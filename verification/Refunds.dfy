/** Refund calls to a provider that knows no idempotency header: the refund's receipt is the key, a
    repeat answers "Duplicate receipt", and the adapter then looks the refund up. */
module Refunds {
  import Text = DecimalText
  import Strings

  type Option<+T> = Text.Option<T>

  datatype PaymentStatus = Created | Authorized | Captured | Refunded | FailedPayment

  datatype Payment = Payment(id: string, order: string, status: PaymentStatus)

  datatype Refund = Refund(id: nat, payment: string, receipt: string, amount: Option<int>, status: string)

  datatype Ledger = Ledger(payments: seq<Payment>, refunds: seq<Refund>)

  const REFERENCE_LENGTH: nat := 40

  // ---- The wire ------------------------------------------------------------------------------------

  /** What becomes of one request and its reply: a refused request changes nothing and is answered 4xx
      or 5xx; `usable` is whether the body of a reply is the JSON it should be. */
  datatype Fate = Lost(processed: bool) | Refused(code: nat) | Replied(processed: bool, code: nat, usable: bool)

  datatype Body = NoBody | Duplicate | OneRefund(refund: Refund)

  datatype Response = Response(code: nat, body: Body)

  function FindRefund(refunds: seq<Refund>, payment: string, receipt: string): Option<nat> {
    if refunds == [] then Text.None
    else
      var last := |refunds| - 1;
      if refunds[last].payment == payment && refunds[last].receipt == receipt then Text.Some(last)
      else FindRefund(refunds[..last], payment, receipt)
  }

  /** The refunds after a request that reached the ledger; a receipt already used on the payment is
      turned down. */
  function Process(refunds: seq<Refund>, payment: string, receipt: string, amount: Option<int>,
      status: string): seq<Refund> {
    if FindRefund(refunds, payment, receipt).Some? then refunds
    else refunds + [Refund(|refunds|, payment, receipt, amount, status)]
  }

  // ---- The adapter ---------------------------------------------------------------------------------

  datatype Call = Call(configured: bool, target: string, amount: Amount, reference: string)

  /** amount_minor: left out, an integer, or something that is not an integer. */
  datatype Amount = Everything | Minor(n: int) | NotAnInteger

  /** The fates of the three requests a call can make, and the status a new refund starts in. */
  datatype Fates = Fates(resolve: Fate, post: Fate, lookup: Fate, firstStatus: string)

  datatype Answer = NoAnswer | RefundIs(reference: string, id: nat, status: string)

  predicate IsOrder(target: string) {
    Strings.StartsWith(target, "order_")
  }

  /** Where the first captured or refunded payment of an order is, in the provider's order. */
  function FirstSettled(payments: seq<Payment>, order: string): Option<nat> {
    if payments == [] then Text.None
    else
      var before := FirstSettled(payments[..|payments| - 1], order);
      var last := payments[|payments| - 1];
      if before.Some? then before
      else if last.order == order && Settled(last.status) then Text.Some(|payments| - 1)
      else Text.None
  }

  function Resolve(payments: seq<Payment>, order: string): Option<string> {
    var at := FirstSettled(payments, order);
    if at.Some? && at.value < |payments| then Text.Some(payments[at.value].id) else Text.None
  }

  predicate Settled(status: PaymentStatus) {
    status == Captured || status == Refunded
  }

  predicate Answered(fate: Fate) {
    fate.Replied? && fate.processed && fate.code == 200 && fate.usable
  }

  /** The payment a call is about: an order id is resolved, and cannot be when the lookup fails. */
  function PaymentFor(payments: seq<Payment>, call: Call, fates: Fates): Option<string> {
    if !IsOrder(call.target) then Text.Some(call.target)
    else if !Answered(fates.resolve) then Text.None
    else
      var found := Resolve(payments, call.target);
      if found.Some? && found.value == "" then Text.None else found
  }

  function Truncated(reference: string): string {
    if |reference| <= REFERENCE_LENGTH then reference else reference[..REFERENCE_LENGTH]
  }

  /** The receipt: the caller's reference, or one made of the payment and the amount. */
  function ReceiptFor(call: Call, payment: string): string {
    Truncated(
      if call.reference != "" then call.reference
      else if call.amount.Minor? then "rf_" + payment + "_" + Text.IntText(call.amount.n)
      else "rf_" + payment)
  }

  predicate Acceptable(call: Call) {
    call.configured && call.target != "" && !call.amount.NotAnInteger? && (call.amount.Minor? ==> call.amount.n > 0)
  }

  function AmountOf(call: Call): Option<int> {
    if call.amount.Minor? then Text.Some(call.amount.n) else Text.None
  }

  /** create_refund: the ledger's refunds afterwards, and the answer. */
  function CreateRefund(ledger: Ledger, call: Call, fates: Fates): (r: (seq<Refund>, Answer)) {
    var payment := PaymentFor(ledger.payments, call, fates);
    if !Acceptable(call) || payment.None? then (ledger.refunds, NoAnswer)
    else
      var receipt := ReceiptFor(call, payment.value);
      var before := FindRefund(ledger.refunds, payment.value, receipt);
      var done := Process(ledger.refunds, payment.value, receipt, AmountOf(call), fates.firstStatus);
      match fates.post
      case Lost(processed) => (if processed then done else ledger.refunds, NoAnswer)
      case Refused(_) => (ledger.refunds, NoAnswer)
      case Replied(processed, code, usable) =>
        var after := if processed then done else ledger.refunds;
        if !processed || !usable then (after, NoAnswer)
        else if before.None? then (after, if code == 200 then Report(after, payment.value, receipt) else NoAnswer)
        else if code == 400 && Answered(fates.lookup) then (after, Report(after, payment.value, receipt))
        else (after, NoAnswer)
  }

  /** A refund that has failed is not reported. */
  function Report(refunds: seq<Refund>, payment: string, receipt: string): Answer {
    var found := FindRefund(refunds, payment, receipt);
    if found.None? || found.value >= |refunds| || refunds[found.value].status == "failed" then NoAnswer
    else RefundIs(receipt, refunds[found.value].id, refunds[found.value].status)
  }

  // ---- Runs ----------------------------------------------------------------------------------------

  /** A call of ours, a refund moving to another status, or a payment moving on. */
  datatype Event =
    | Ask(call: Call, fates: Fates)
    | MoveRefund(id: nat, status: string)
    | MovePayment(at: nat, settles: PaymentStatus)

  /** A settled payment stays settled. */
  predicate MayMove(before: PaymentStatus, after: PaymentStatus) {
    Settled(before) ==> Settled(after)
  }

  function Next(ledger: Ledger, event: Event): Ledger {
    match event
    case Ask(call, fates) => ledger.(refunds := CreateRefund(ledger, call, fates).0)
    case MoveRefund(id, status) =>
      if id < |ledger.refunds| then
        ledger.(refunds := ledger.refunds[id := ledger.refunds[id].(status := status)])
      else
        ledger
    case MovePayment(at, settles) =>
      if at < |ledger.payments| && MayMove(ledger.payments[at].status, settles)
      then ledger.(payments := ledger.payments[at := ledger.payments[at].(status := settles)]) else ledger
  }

  function Run(ledger: Ledger, events: seq<Event>): Ledger {
    if events == [] then ledger else Next(Run(ledger, events[..|events| - 1]), events[|events| - 1])
  }

  predicate OnePerReceipt(refunds: seq<Refund>) {
    && (forall i :: 0 <= i < |refunds| ==> refunds[i].id == i)
    && forall i, j :: 0 <= i < j < |refunds| ==>
        !(refunds[i].payment == refunds[j].payment && refunds[i].receipt == refunds[j].receipt)
  }

  /** Refunds are never lost, renamed or moved to another payment. */
  predicate Extends(before: seq<Refund>, after: seq<Refund>) {
    && |before| <= |after|
    && forall i :: 0 <= i < |before| ==> after[i] == before[i].(status := after[i].status)
  }

  predicate PaymentsMoved(before: seq<Payment>, after: seq<Payment>) {
    && |before| == |after|
    && forall i :: 0 <= i < |before| ==>
      after[i] == before[i].(status := after[i].status) && MayMove(before[i].status, after[i].status)
  }

  lemma {:induction false} FindRefundIsRight(refunds: seq<Refund>, payment: string, receipt: string)
    ensures var found := FindRefund(refunds, payment, receipt);
      if found.Some? then found.value < |refunds| && refunds[found.value].payment == payment
          && refunds[found.value].receipt == receipt
      else forall i :: 0 <= i < |refunds| ==> !(refunds[i].payment == payment && refunds[i].receipt == receipt)
  {
    if refunds != [] {
      FindRefundIsRight(refunds[..|refunds| - 1], payment, receipt);
    }
  }

  lemma ProcessKeepsOne(refunds: seq<Refund>, payment: string, receipt: string, amount: Option<int>, status: string)
    requires OnePerReceipt(refunds)
    ensures var after := Process(refunds, payment, receipt, amount, status);
      OnePerReceipt(after) && Extends(refunds, after)
  {
    FindRefundIsRight(refunds, payment, receipt);
  }

  lemma CreateKeepsOne(ledger: Ledger, call: Call, fates: Fates)
    requires OnePerReceipt(ledger.refunds)
    ensures OnePerReceipt(CreateRefund(ledger, call, fates).0)
      && Extends(ledger.refunds, CreateRefund(ledger, call, fates).0)
  {
    var payment := PaymentFor(ledger.payments, call, fates);
    if payment.Some? {
      ProcessKeepsOne(ledger.refunds, payment.value, ReceiptFor(call, payment.value), AmountOf(call),
          fates.firstStatus);
    }
    hide OnePerReceipt, Process, PaymentFor, ReceiptFor, Acceptable;
  }

  lemma NextKeepsOne(ledger: Ledger, event: Event)
    requires OnePerReceipt(ledger.refunds)
    ensures var after := Next(ledger, event);
      OnePerReceipt(after.refunds) && Extends(ledger.refunds, after.refunds)
          && PaymentsMoved(ledger.payments, after.payments)
  {
    if event.Ask? {
      CreateKeepsOne(ledger, event.call, event.fates);
    }
    hide CreateRefund;
  }

  lemma {:induction false} RunKeepsOne(ledger: Ledger, events: seq<Event>)
    requires OnePerReceipt(ledger.refunds)
    ensures var after := Run(ledger, events);
      && OnePerReceipt(after.refunds) && Extends(ledger.refunds, after.refunds)
      && PaymentsMoved(ledger.payments, after.payments)
  {
    if events != [] {
      var before := events[..|events| - 1];
      RunKeepsOne(ledger, before);
      NextKeepsOne(Run(ledger, before), events[|events| - 1]);
    }
  }

  /** A call that may be sent: for all of a payment, or for a positive whole amount. */
  predicate MayAsk(call: Call) {
    call.configured && call.target != "" && (call.amount.Everything? || (call.amount.Minor? && call.amount.n > 0))
  }

  predicate IsSettled(payment: Payment) {
    payment.status == Captured || payment.status == Refunded
  }

  /** The payment the call is about: the one it names, or the first settled one of the order it names, if the
      provider answers what that is. */
  predicate IsPaymentFor(payments: seq<Payment>, call: Call, fates: Fates, payment: string) {
    if "order_" <= call.target then
      && payment != "" && fates.resolve == Replied(true, 200, true)
      && exists k :: 0 <= k < |payments| && payments[k].id == payment && IsFirstOf(payments, call.target, k)
    else
      payment == call.target
  }

  predicate IsFirstOf(payments: seq<Payment>, order: string, k: nat)
    requires k < |payments|
  {
    && payments[k].order == order && IsSettled(payments[k])
    && forall j :: 0 <= j < k ==> !(payments[j].order == order && IsSettled(payments[j]))
  }

  predicate StartOf(receipt: string, reference: string) {
    receipt <= reference && |receipt| == if |reference| < 40 then |reference| else 40
  }

  /** The first 40 characters of the caller's reference, or of one made of the payment and the amount. */
  ghost predicate IsReceipt(call: Call, payment: string, receipt: string) {
    if call.reference != "" then StartOf(receipt, call.reference)
    else match call.amount
      case Minor(n) => exists digits :: Text.IsWritten(digits, n) && StartOf(receipt, "rf_" + payment + "_" + digits)
      case _ => StartOf(receipt, "rf_" + payment)
  }

  /** The refund is the one a call asked for when the payments stood so: its payment, its receipt and
      its amount. */
  ghost predicate AskedBy(refund: Refund, payments: seq<Payment>, event: Event) {
    && event.Ask? && MayAsk(event.call)
    && IsPaymentFor(payments, event.call, event.fates, refund.payment)
    && IsReceipt(event.call, refund.payment, refund.receipt)
    && match event.call.amount
       case Minor(n) => refund.amount == Text.Some(n)
       case _ => refund.amount == Text.None
  }

  lemma ReceiptIs(call: Call, payment: string)
    requires MayAsk(call)
    ensures IsReceipt(call, payment, ReceiptFor(call, payment))
  {
    if call.reference == "" && call.amount.Minor? {
      Text.TextIsWritten(call.amount.n);
      hide Text.NatText;
      assert Text.IsWritten(Text.NatText(call.amount.n), call.amount.n);
    }
  }

  lemma ReceiptIsOnly(call: Call, payment: string, receipt: string)
    requires MayAsk(call) && IsReceipt(call, payment, receipt)
    ensures receipt == ReceiptFor(call, payment)
  {
    if call.reference == "" && call.amount.Minor? {
      var digits :| Text.IsWritten(digits, call.amount.n) && StartOf(receipt, "rf_" + payment + "_" + digits);
      Text.WrittenIsText(digits, call.amount.n);
    }
  }

  lemma PaymentIs(payments: seq<Payment>, call: Call, fates: Fates, payment: string)
    ensures PaymentFor(payments, call, fates) == Text.Some(payment) <==> IsPaymentFor(payments, call, fates, payment)
  {
    hide FirstSettled;
    FirstSettledIsFirst(payments, call.target);
    var at := FirstSettled(payments, call.target);
    assert IsOrder(call.target) <==> "order_" <= call.target;
    if at.Some? {
      assert IsFirstOf(payments, call.target, at.value);
    }
    forall k | 0 <= k < |payments| && IsFirstOf(payments, call.target, k) ensures at == Text.Some(k) {
      assert at.None? ==> false;
    }
  }

  /** Whatever a run adds to the ledger, some call of the run asked for exactly that. */
  lemma {:induction false} CreatedAsAsked(ledger: Ledger, events: seq<Event>, i: nat) returns (k: nat)
    requires OnePerReceipt(ledger.refunds) && |ledger.refunds| <= i < |Run(ledger, events).refunds|
    ensures k < |events| && AskedBy(Run(ledger, events).refunds[i], Run(ledger, events[..k]).payments, events[k])
  {
    hide OnePerReceipt, PaymentFor, ReceiptFor, Acceptable, Next;
    assert events != [];
    var before, last := events[..|events| - 1], events[|events| - 1];
    var mid := Run(ledger, before);
    RunKeepsOne(ledger, before);
    NextKeepsOne(mid, last);
    if i < |mid.refunds| {
      k := CreatedAsAsked(ledger, before, i);
      assert before[k] == events[k] && before[..k] == events[..k];
    } else {
      AddedAsAsked(mid, last, i);
      k := |events| - 1;
    }
  }

  lemma AddedAsAsked(ledger: Ledger, event: Event, i: nat)
    requires |ledger.refunds| <= i < |Next(ledger, event).refunds|
    ensures AskedBy(Next(ledger, event).refunds[i], ledger.payments, event)
  {
    hide PaymentFor, ReceiptFor, FindRefund, IsPaymentFor, IsReceipt;
    if event.Ask? {
      var refund := Next(ledger, event).refunds[i];
      PaymentIs(ledger.payments, event.call, event.fates, refund.payment);
      if MayAsk(event.call) {
        ReceiptIs(event.call, refund.payment);
      }
    }
  }

  /** Two calls ask for the same thing: one caller reference, or none and the same amount. */
  predicate SameAsk(a: Call, b: Call) {
    if a.reference == "" then b.reference == "" && a.amount == b.amount
    else b.reference != "" && Truncated(a.reference) == Truncated(b.reference)
  }

  /** Any number of calls, lost replies, retries and provider moves create at most one refund per payment
      and caller reference, because the adapter makes the same receipt of them every time. */
  lemma AtMostOneRefund(ledger: Ledger, events: seq<Event>, i: nat, j: nat) returns (a: nat, b: nat)
    requires OnePerReceipt(ledger.refunds) && |ledger.refunds| <= i < j < |Run(ledger, events).refunds|
    ensures a < |events| && AskedBy(Run(ledger, events).refunds[i], Run(ledger, events[..a]).payments, events[a])
    ensures b < |events| && AskedBy(Run(ledger, events).refunds[j], Run(ledger, events[..b]).payments, events[b])
    ensures Run(ledger, events).refunds[i].payment == Run(ledger, events).refunds[j].payment ==>
      !SameAsk(events[a].call, events[b].call)
  {
    a := CreatedAsAsked(ledger, events, i);
    b := CreatedAsAsked(ledger, events, j);
    RunKeepsOne(ledger, events);
    var payment := Run(ledger, events).refunds[i].payment;
    ReceiptIsOnly(events[a].call, payment, Run(ledger, events).refunds[i].receipt);
    ReceiptIsOnly(events[b].call, Run(ledger, events).refunds[j].payment, Run(ledger, events).refunds[j].receipt);
    if SameAsk(events[a].call, events[b].call) {
      assert ReceiptFor(events[a].call, payment) == ReceiptFor(events[b].call, payment);
    }
    hide Run, PaymentFor, ReceiptFor, SameAsk;
  }

  // ---- What an answer means ------------------------------------------------------------------------

  /** An answer names the refund of this payment and receipt. */
  lemma AnswerIsTheRefund(ledger: Ledger, call: Call, fates: Fates)
    requires OnePerReceipt(ledger.refunds)
    ensures var (after, answer) := CreateRefund(ledger, call, fates);
      var payment := PaymentFor(ledger.payments, call, fates);
      answer.RefundIs? ==>
        && payment.Some? && answer.reference == ReceiptFor(call, payment.value) && answer.id < |after|
        && after[answer.id].payment == payment.value && after[answer.id].receipt == answer.reference
        && after[answer.id].status == answer.status != "failed"
  {
    var payment := PaymentFor(ledger.payments, call, fates);
    if payment.Some? {
      var receipt := ReceiptFor(call, payment.value);
      var after := CreateRefund(ledger, call, fates).0;
      CreateKeepsOne(ledger, call, fates);
      FindRefundIsRight(after, payment.value, receipt);
      hide PaymentFor, ReceiptFor, Process, OnePerReceipt;
    }
  }

  lemma SameKeySameRefund(a: seq<Refund>, b: seq<Refund>, i: nat, j: nat)
    requires OnePerReceipt(b) && Extends(a, b) && i < |a| && j < |b|
    requires a[i].payment == b[j].payment && a[i].receipt == b[j].receipt
    ensures i == j
  {
    assert b[i].payment == a[i].payment && b[i].receipt == a[i].receipt;
  }

  /** Every answer about one payment and receipt, however far apart and with whatever in between, names
      the same refund: through the first reply or through the duplicate-receipt lookup. */
  lemma SameRefundNamed(ledger: Ledger, first: Event, between: seq<Event>, second: Event)
    requires OnePerReceipt(ledger.refunds) && first.Ask? && second.Ask?
    requires var later := Run(Next(ledger, first), between);
      var p, q := PaymentFor(ledger.payments, first.call, first.fates),
          PaymentFor(later.payments, second.call, second.fates);
      p.Some? && p == q && ReceiptFor(first.call, p.value) == ReceiptFor(second.call, p.value)
    requires CreateRefund(ledger, first.call, first.fates).1.RefundIs?
    requires CreateRefund(Run(Next(ledger, first), between), second.call, second.fates).1.RefundIs?
    ensures CreateRefund(Run(Next(ledger, first), between), second.call, second.fates).1.id
      == CreateRefund(ledger, first.call, first.fates).1.id
  {
    hide CreateRefund, OnePerReceipt, Extends, PaymentFor, ReceiptFor, PaymentsMoved;
    var mid := Next(ledger, first);
    NextKeepsOne(ledger, first);
    RunKeepsOne(mid, between);
    var later := Run(mid, between);
    NextKeepsOne(later, second);
    AnswerIsTheRefund(ledger, first.call, first.fates);
    AnswerIsTheRefund(later, second.call, second.fates);
    ExtendsTransitive(mid.refunds, later.refunds, Next(later, second).refunds);
    SameKeySameRefund(mid.refunds, Next(later, second).refunds, CreateRefund(ledger, first.call, first.fates).1.id,
                      CreateRefund(later, second.call, second.fates).1.id);
  }

  lemma ExtendsTransitive(a: seq<Refund>, b: seq<Refund>, c: seq<Refund>)
    requires Extends(a, b) && Extends(b, c)
    ensures Extends(a, c)
  {
    forall i | 0 <= i < |a| ensures c[i] == a[i].(status := c[i].status) {
      assert b[i] == a[i].(status := b[i].status) && c[i] == b[i].(status := c[i].status);
    }
  }

  /** A repeat whose replies arrive finds the refund it already created and creates nothing, whatever
      was lost the first time. */
  lemma RepeatFindsTheRefund(ledger: Ledger, call: Call, fates: Fates, at: nat)
    requires OnePerReceipt(ledger.refunds) && Acceptable(call) && at < |ledger.refunds|
    requires PaymentFor(ledger.payments, call, fates) == Text.Some(ledger.refunds[at].payment)
    requires ReceiptFor(call, ledger.refunds[at].payment) == ledger.refunds[at].receipt
    requires fates.post == Replied(true, 400, true) && Answered(fates.lookup)
    ensures CreateRefund(ledger, call, fates) == (ledger.refunds,
      if ledger.refunds[at].status == "failed" then NoAnswer
      else RefundIs(ledger.refunds[at].receipt, at, ledger.refunds[at].status))
  {
    var refund := ledger.refunds[at];
    FindRefundIsRight(ledger.refunds, refund.payment, refund.receipt);
    hide PaymentFor, ReceiptFor, Acceptable;
  }

  /** The ledger has a refund of the payment under the receipt. */
  predicate Known(refunds: seq<Refund>, payment: string, receipt: string) {
    exists i :: 0 <= i < |refunds| && refunds[i].payment == payment && refunds[i].receipt == receipt
  }

  /** The request reaches the ledger, whatever becomes of its reply. */
  predicate Arrives(post: Fate) {
    (post.Lost? || post.Replied?) && post.processed
  }

  /** Every call about a payment, every outcome: what the ledger is afterwards and when a refund is named. A refund
      is added exactly by a call that may be sent, reaches the provider and has a new receipt for the payment; and
      one is named exactly when a new one is answered 200, or a known one 400 and then looked up, unless it has
      failed. */
  lemma EveryOutcome(ledger: Ledger, call: Call, fates: Fates, payment: string, receipt: string)
    requires OnePerReceipt(ledger.refunds) && MayAsk(call)
    requires IsPaymentFor(ledger.payments, call, fates, payment) && IsReceipt(call, payment, receipt)
    ensures var (after, answer) := CreateRefund(ledger, call, fates);
      var known := Known(ledger.refunds, payment, receipt);
      && (after == ledger.refunds || (|after| == |ledger.refunds| + 1 && after[..|ledger.refunds|] == ledger.refunds))
      && (|after| == |ledger.refunds| + 1 <==> Arrives(fates.post) && !known)
      && (|after| == |ledger.refunds| + 1 ==> AskedBy(after[|ledger.refunds|], ledger.payments, Ask(call, fates)))
      && (|after| == |ledger.refunds| + 1 ==> after[|ledger.refunds|].status == fates.firstStatus)
      && (answer.RefundIs? <==> Looked(fates, known) && Stands(after, payment, receipt))
      && (answer.RefundIs? ==> answer.reference == receipt && answer.id < |after|)
      && (answer.RefundIs? ==> after[answer.id].payment == payment && after[answer.id].receipt == receipt)
      && (answer.RefundIs? ==> answer.status == after[answer.id].status)
  {
    hide PaymentFor, ReceiptFor, IsPaymentFor, IsReceipt, Looked;
    PaymentIs(ledger.payments, call, fates, payment);
    ReceiptIsOnly(call, payment, receipt);
    FindRefundIsRight(ledger.refunds, payment, receipt);
    CreateKeepsOne(ledger, call, fates);
    AnswerIsTheRefund(ledger, call, fates);
    RefundOutcome(ledger, call, fates, payment, receipt);
  }

  /** The replies name a refund: a new one answered 200, or a known one answered 400 and looked up. */
  predicate Looked(fates: Fates, known: bool) {
    if known then fates.post == Replied(true, 400, true) && fates.lookup == Replied(true, 200, true)
    else fates.post == Replied(true, 200, true)
  }

  /** The ledger has a refund of the payment under the receipt that has not failed. */
  predicate Stands(refunds: seq<Refund>, payment: string, receipt: string) {
    exists i :: 0 <= i < |refunds| && refunds[i].payment == payment && refunds[i].receipt == receipt
      && refunds[i].status != "failed"
  }

  lemma RefundOutcome(ledger: Ledger, call: Call, fates: Fates, payment: string, receipt: string)
    requires OnePerReceipt(ledger.refunds) && MayAsk(call)
    requires PaymentFor(ledger.payments, call, fates) == Text.Some(payment) && ReceiptFor(call, payment) == receipt
    ensures var (after, answer) := CreateRefund(ledger, call, fates);
      answer.RefundIs? <==> Looked(fates, Known(ledger.refunds, payment, receipt)) && Stands(after, payment, receipt)
  {
    hide PaymentFor, ReceiptFor;
    FindRefundIsRight(ledger.refunds, payment, receipt);
    CreateKeepsOne(ledger, call, fates);
    FindRefundIsRight(CreateRefund(ledger, call, fates).0, payment, receipt);
  }

  /** A call that may not be sent, or has no payment, does nothing. */
  lemma NothingToRefund(ledger: Ledger, call: Call, fates: Fates)
    requires !MayAsk(call) || forall payment :: !IsPaymentFor(ledger.payments, call, fates, payment)
    ensures CreateRefund(ledger, call, fates) == (ledger.refunds, NoAnswer)
  {
    hide PaymentFor, IsPaymentFor;
    var payment := PaymentFor(ledger.payments, call, fates);
    if payment.Some? {
      PaymentIs(ledger.payments, call, fates, payment.value);
    }
  }

  // ---- Orders ----------------------------------------------------------------------------------------

  lemma {:induction false} FirstSettledIsFirst(payments: seq<Payment>, order: string)
    ensures var at := FirstSettled(payments, order);
      && (at.Some? ==> at.value < |payments| && payments[at.value].order == order && Settled(payments[at.value].status))
      && forall j :: 0 <= j < (if at.Some? then at.value else |payments|) ==>
        !(payments[j].order == order && Settled(payments[j].status))
  {
    if payments != [] {
      FirstSettledIsFirst(payments[..|payments| - 1], order);
    }
  }

  /** An order once resolved keeps resolving to the same payment exactly as long as no payment listed
      before it gets captured. */
  lemma OrderKeepsItsPayment(before: seq<Payment>, after: seq<Payment>, order: string)
    requires PaymentsMoved(before, after) && FirstSettled(before, order).Some?
    ensures FirstSettled(after, order) == FirstSettled(before, order) <==>
      forall j :: 0 <= j < FirstSettled(before, order).value && j < |after| ==>
        !(after[j].order == order && Settled(after[j].status))
  {
    FirstSettledIsFirst(before, order);
    FirstSettledIsFirst(after, order);
    var i := FirstSettled(before, order).value;
    assert after[i] == before[i].(status := after[i].status) && MayMove(before[i].status, after[i].status);
  }

  // ---- One order, one reference, over runs -------------------------------------------------------------

  predicate DistinctIds(payments: seq<Payment>) {
    && (forall i :: 0 <= i < |payments| ==> payments[i].id != "")
    && forall i, j :: 0 <= i < j < |payments| ==> payments[i].id != payments[j].id
  }

  /** A call that reaches the ledger, whatever becomes of the answer. */
  predicate Reaches(fates: Fates) {
    Answered(fates.resolve) && !fates.post.Refused? && fates.post.processed
  }

  /** Repeats of one call, with any fates, and provider moves. */
  predicate OnlyRepeats(events: seq<Event>, call: Call) {
    forall k :: 0 <= k < |events| ==> events[k].Ask? ==> events[k].call == call
  }

  lemma SettledIdAt(payments: seq<Payment>, order: string, at: nat)
    requires FirstSettled(payments, order) == Text.Some(at)
    ensures at < |payments| && Resolve(payments, order) == Text.Some(payments[at].id)
  {
    FirstSettledIsFirst(payments, order);
  }

  /** While the order still resolves to its first payment, repeats add nothing to that payment's refund. */
  lemma {:induction false} StaysSingle(ledger: Ledger, events: seq<Event>, call: Call, at: nat)
    requires OnePerReceipt(ledger.refunds) && IsOrder(call.target) && call.reference != "" && OnlyRepeats(events, call)
    requires FirstSettled(ledger.payments, call.target) == Text.Some(at)
    requires FirstSettled(Run(ledger, events).payments, call.target) == Text.Some(at)
    requires at < |ledger.payments|
    requires FindRefund(ledger.refunds, ledger.payments[at].id, Truncated(call.reference)).Some?
    ensures |Run(ledger, events).refunds| == |ledger.refunds|
  {
    hide FirstSettled, FindRefund, CreateRefund, IsOrder, Next, OnePerReceipt;
    if events != [] {
      var before, last := events[..|events| - 1], events[|events| - 1];
      var mid := Run(ledger, before);
      RunKeepsOne(ledger, before);
      NextKeepsOne(mid, last);
      StillFirst(ledger.payments, mid.payments, Run(ledger, events).payments, call.target, at);
      StaysSingle(ledger, before, call, at);
      StillFound(ledger.refunds, mid.refunds, ledger.payments[at].id, Truncated(call.reference));
      RepeatAddsNothing(mid, last, call, at);
    }
  }

  lemma StillFirst(a: seq<Payment>, b: seq<Payment>, c: seq<Payment>, order: string, at: nat)
    requires PaymentsMoved(a, b) && PaymentsMoved(b, c)
    requires FirstSettled(a, order) == Text.Some(at) && FirstSettled(c, order) == Text.Some(at)
    ensures FirstSettled(b, order) == Text.Some(at) && at < |a| == |b| && b[at].id == a[at].id
  {
    FirstSettledIsFirst(a, order);
    FirstSettledIsFirst(b, order);
    FirstSettledIsFirst(c, order);
    assert b[at] == a[at].(status := b[at].status) && MayMove(a[at].status, b[at].status);
    var k := FirstSettled(b, order).value;
    assert c[k] == b[k].(status := c[k].status) && MayMove(b[k].status, c[k].status);
  }

  lemma StillFound(a: seq<Refund>, b: seq<Refund>, payment: string, receipt: string)
    requires Extends(a, b) && FindRefund(a, payment, receipt).Some?
    ensures FindRefund(b, payment, receipt).Some?
  {
    FindRefundIsRight(a, payment, receipt);
    FindRefundIsRight(b, payment, receipt);
    var i := FindRefund(a, payment, receipt).value;
    assert b[i] == a[i].(status := b[i].status);
  }

  lemma RepeatAddsNothing(ledger: Ledger, event: Event, call: Call, at: nat)
    requires IsOrder(call.target) && call.reference != "" && (event.Ask? ==> event.call == call)
    requires FirstSettled(ledger.payments, call.target) == Text.Some(at) && at < |ledger.payments|
    requires FindRefund(ledger.refunds, ledger.payments[at].id, Truncated(call.reference)).Some?
    ensures |Next(ledger, event).refunds| == |ledger.refunds|
  {
    hide FirstSettled, FindRefund, IsOrder, Acceptable;
  }

  /** Once reached, a call leaves the refund of its payment and reference in the ledger. */
  lemma ReachedIsThere(ledger: Ledger, call: Call, fates: Fates, at: nat)
    requires OnePerReceipt(ledger.refunds) && Acceptable(call) && IsOrder(call.target) && call.reference != ""
      && Reaches(fates)
    requires FirstSettled(ledger.payments, call.target) == Text.Some(at) && at < |ledger.payments|
    requires ledger.payments[at].id != ""
    ensures var after := Next(ledger, Ask(call, fates));
      var (id, receipt) := (ledger.payments[at].id, Truncated(call.reference));
      && FindRefund(after.refunds, id, receipt).Some? && after.payments == ledger.payments
      && (FindRefund(ledger.refunds, id, receipt).None? ==> |after.refunds| == |ledger.refunds| + 1)
  {
    hide FirstSettled, IsOrder, Acceptable;
    FindRefundIsRight(ledger.refunds, ledger.payments[at].id, Truncated(call.reference));
  }

  /** An order refunded once under a reference, and again later after any repeats and moves, has a single
      refund exactly when no payment listed before the one first refunded has been captured in between. */
  lemma OneRefundPerOrder(ledger: Ledger, call: Call, first: Fates, between: seq<Event>, last: Fates)
    requires OnePerReceipt(ledger.refunds) && DistinctIds(ledger.payments)
    requires Acceptable(call) && IsOrder(call.target) && call.reference != "" && OnlyRepeats(between, call)
    requires FirstSettled(ledger.payments, call.target).Some? && Reaches(first) && Reaches(last)
    requires forall i :: 0 <= i < |ledger.refunds| ==> ledger.refunds[i].receipt != Truncated(call.reference)
    ensures var mid := Run(Next(ledger, Ask(call, first)), between);
      var at := FirstSettled(ledger.payments, call.target).value;
      |Next(mid, Ask(call, last)).refunds| == |ledger.refunds| + 1 <==>
        forall j :: 0 <= j < at && j < |mid.payments| ==>
            !(mid.payments[j].order == call.target && Settled(mid.payments[j].status))
  {
    hide FirstSettled, FindRefund, CreateRefund, IsOrder, Next, OnePerReceipt, Acceptable, Run, Resolve;
    var start := Next(ledger, Ask(call, first));
    var mid := Run(start, between);
    var end := Next(mid, Ask(call, last));
    var at := FirstSettled(ledger.payments, call.target).value;
    var receipt := Truncated(call.reference);
    SettledIdAt(ledger.payments, call.target, at);
    var id := ledger.payments[at].id;
    FindRefundIsRight(ledger.refunds, id, receipt);
    ReachedIsThere(ledger, call, first, at);
    NextKeepsOne(ledger, Ask(call, first));
    RunKeepsOne(start, between);
    NextKeepsOne(mid, Ask(call, last));
    OrderKeepsItsPayment(start.payments, mid.payments, call.target);
    SettledStays(start.payments, mid.payments, call.target, at);
    var now := FirstSettled(mid.payments, call.target).value;
    SettledIdAt(mid.payments, call.target, now);
    if now == at {
      StaysSingle(start, between, call, at);
      StillFound(start.refunds, mid.refunds, id, receipt);
      RepeatAddsNothing(mid, Ask(call, last), call, at);
    } else {
      ReachedIsThere(mid, call, last, now);
      StillFound(start.refunds, mid.refunds, id, receipt);
      StillFound(mid.refunds, end.refunds, id, receipt);
      TwoPaymentsTwoRefunds(ledger.refunds, end.refunds, id, mid.payments[now].id, receipt);
    }
  }

  lemma SettledStays(a: seq<Payment>, b: seq<Payment>, order: string, at: nat)
    requires PaymentsMoved(a, b) && FirstSettled(a, order) == Text.Some(at)
    ensures FirstSettled(b, order).Some? && FirstSettled(b, order).value <= at < |a| == |b|
    ensures DistinctIds(a) ==> b[FirstSettled(b, order).value].id != ""
    ensures DistinctIds(a) && FirstSettled(b, order).value != at ==> b[FirstSettled(b, order).value].id != a[at].id
  {
    FirstSettledIsFirst(a, order);
    FirstSettledIsFirst(b, order);
    assert b[at] == a[at].(status := b[at].status) && MayMove(a[at].status, b[at].status);
    var k := FirstSettled(b, order).value;
    assert b[k] == a[k].(status := b[k].status);
  }

  lemma TwoPaymentsTwoRefunds(before: seq<Refund>, after: seq<Refund>, p: string, q: string, receipt: string)
    requires p != q && |before| <= |after| && FindRefund(after, p, receipt).Some? && FindRefund(after, q, receipt).Some?
    requires Extends(before, after) && forall i :: 0 <= i < |before| ==> before[i].receipt != receipt
    ensures |after| >= |before| + 2
  {
    FindRefundIsRight(after, p, receipt);
    FindRefundIsRight(after, q, receipt);
    var i, j := FindRefund(after, p, receipt).value, FindRefund(after, q, receipt).value;
    forall k | 0 <= k < |before| ensures after[k].receipt != receipt {
      assert after[k] == before[k].(status := after[k].status);
    }
  }

  /** A refund of a payment and receipt not seen before, answered. */
  lemma FreshRefund(ledger: Ledger, call: Call, fates: Fates, payment: string)
    requires Acceptable(call) && PaymentFor(ledger.payments, call, fates) == Text.Some(payment)
    requires FindRefund(ledger.refunds, payment, ReceiptFor(call, payment)).None?
      && fates.post == Replied(true, 200, true)
    ensures CreateRefund(ledger, call, fates).0
      == ledger.refunds + [Refund(|ledger.refunds|, payment, ReceiptFor(call, payment), AmountOf(call),
          fates.firstStatus)]
  {
  }

  lemma OneOfTwo(one: Payment, two: Payment)
    requires one.order == two.order && Settled(two.status)
    ensures Resolve([one, two], one.order) == Text.Some(if Settled(one.status) then one.id else two.id)
  {
    FirstSettledIsFirst([one, two], one.order);
    var at := FirstSettled([one, two], one.order);
    assert at.Some? by {
      assert [one, two][1] == two;
    }
    assert Settled(one.status) ==> at.value == 0 by {
      assert [one, two][0] == one;
    }
  }

  /** A late capture breaks it: refunding the same order twice under one reference leaves two refunds,
      one on each payment. */
  lemma LateCaptureRefundsTwice(one: Payment, two: Payment, call: Call, fates: Fates)
    requires one.order == two.order == call.target && IsOrder(call.target) && Acceptable(call) && call.reference != ""
    requires one.id != two.id && one.id != "" && two.id != "" && one.status == Authorized && two.status == Captured
    requires Answered(fates.resolve) && fates.post == Replied(true, 200, true)
    ensures var after := Run(Ledger([one, two], []), [Ask(call, fates), MovePayment(0, Captured), Ask(call, fates)]);
      && |after.refunds| == 2 && after.refunds[0].receipt == after.refunds[1].receipt == Truncated(call.reference)
      && after.refunds[0].payment == two.id && after.refunds[1].payment == one.id
  {
    hide CreateRefund, FindRefund, Resolve, Acceptable;
    var ask, move := Ask(call, fates), MovePayment(0, Captured);
    var start, receipt := Ledger([one, two], []), Truncated(call.reference);
    OneOfTwo(one, two);
    FindRefundIsRight([], two.id, receipt);
    FreshRefund(start, call, fates, two.id);
    var first := Next(start, ask);
    assert first.refunds == [Refund(0, two.id, receipt, AmountOf(call), fates.firstStatus)];
    var moved := Next(first, move);
    var captured := one.(status := Captured);
    assert moved == Ledger([captured, two], first.refunds);
    OneOfTwo(captured, two);
    FindRefundIsRight(first.refunds, one.id, receipt);
    FreshRefund(moved, call, fates, one.id);
    ThreeSteps(start, ask, move, ask);
  }

  lemma ThreeSteps(ledger: Ledger, a: Event, b: Event, c: Event)
    ensures Run(ledger, [a, b, c]) == Next(Next(Next(ledger, a), b), c)
  {
    hide Next;
    assert [a, b, c][..2] == [a, b] && [a, b][..1] == [a] && [a][..0] == [];
    assert Run(ledger, [a]) == Next(Run(ledger, []), a);
    assert Run(ledger, [a, b]) == Next(Run(ledger, [a]), b);
  }

  // ---- The adapter against the provider's own ledger -------------------------------------------------

  class Provider {
    var payments: seq<Payment>
    var refunds: seq<Refund>

    constructor (payments: seq<Payment>)
      ensures this.payments == payments && refunds == []
    {
      this.payments, refunds := payments, [];
    }

    method PaymentIdForOrder(order: string, fate: Fate) returns (payment: Option<string>)
      ensures payment == if Answered(fate) then Resolve(payments, order) else Text.None
    {
      if !Answered(fate) {
        return Text.None;
      }
      FirstSettledIsFirst(payments, order);
      var i := 0;
      while i < |payments|
        invariant 0 <= i <= |payments|
        invariant forall j :: 0 <= j < i ==> !(payments[j].order == order && Settled(payments[j].status))
      {
        if payments[i].order == order && Settled(payments[i].status) {
          return Text.Some(payments[i].id);
        }
        i := i + 1;
      }
      payment := Text.None;
    }

    method ExistingRefund(payment: string, receipt: string, fate: Fate) returns (at: Option<nat>)
      requires OnePerReceipt(refunds)
      ensures at == if Answered(fate) then FindRefund(refunds, payment, receipt) else Text.None
    {
      if !Answered(fate) {
        return Text.None;
      }
      FindRefundIsRight(refunds, payment, receipt);
      var i := 0;
      while i < |refunds|
        invariant 0 <= i <= |refunds|
        invariant forall j :: 0 <= j < i ==> !(refunds[j].payment == payment && refunds[j].receipt == receipt)
      {
        if refunds[i].payment == payment && refunds[i].receipt == receipt {
          return Text.Some(i);
        }
        i := i + 1;
      }
      at := Text.None;
    }

    /** POST /payments/{id}/refund: what the provider does, and the code and body that come back. */
    method Post(payment: string, receipt: string, amount: Option<int>, fates: Fates) returns (reply: Option<Response>)
      requires OnePerReceipt(refunds)
      modifies this`refunds
      ensures OnePerReceipt(refunds)
      ensures refunds == if (fates.post.Lost? || fates.post.Replied?) && fates.post.processed
        then Process(old(refunds), payment, receipt, amount, fates.firstStatus) else old(refunds)
      ensures fates.post.Lost? <==> reply.None?
      ensures fates.post.Refused? ==> reply.value == Response(fates.post.code, NoBody)
      ensures fates.post.Replied? ==> reply.value.code == fates.post.code
      ensures fates.post.Replied? ==> (reply.value.body.NoBody? <==> !fates.post.processed || !fates.post.usable)
      ensures fates.post.Replied? && fates.post.processed && fates.post.usable ==>
        (reply.value.body == Duplicate <==> FindRefund(old(refunds), payment, receipt).Some?)
      ensures reply.Some? && reply.value.body.OneRefund? ==>
        |refunds| > 0 && reply.value.body.refund == refunds[|refunds| - 1]
    {
      ProcessKeepsOne(refunds, payment, receipt, amount, fates.firstStatus);
      FindRefundIsRight(refunds, payment, receipt);
      var known := FindRefund(refunds, payment, receipt);
      if !fates.post.Refused? && fates.post.processed && known.None? {
        refunds := refunds + [Refund(|refunds|, payment, receipt, amount, fates.firstStatus)];
      }
      match fates.post {
        case Lost(_) => reply := Text.None;
        case Refused(code) => reply := Text.Some(Response(code, NoBody));
        case Replied(processed, code, usable) =>
          var body := if !processed || !usable then NoBody
            else if known.Some? then Duplicate
            else OneRefund(refunds[|refunds| - 1]);
          reply := Text.Some(Response(code, body));
      }
    }

    method IssueRefund(call: Call, fates: Fates) returns (answer: Answer)
      requires OnePerReceipt(refunds)
      modifies this`refunds
      ensures (refunds, answer) == CreateRefund(Ledger(payments, old(refunds)), call, fates)
      ensures OnePerReceipt(refunds)
    {
      if !Acceptable(call) {
        return NoAnswer;
      }
      var payment := call.target;
      if IsOrder(call.target) {
        var resolved := PaymentIdForOrder(call.target, fates.resolve);
        if resolved.None? || resolved.value == "" {
          return NoAnswer;
        }
        payment := resolved.value;
      }
      var reference := ReceiptFor(call, payment);
      var reply := Post(payment, reference, AmountOf(call), fates);
      if reply.None? {
        return NoAnswer;
      }
      var code, data := reply.value.code, Text.None;
      if code == 400 && reply.value.body == Duplicate {
        var at := ExistingRefund(payment, reference, fates.lookup);
        if at.Some? {
          FindRefundIsRight(refunds, payment, reference);
          code, data := 200, Text.Some(refunds[at.value]);
        }
      } else if reply.value.body.OneRefund? {
        data := Text.Some(reply.value.body.refund);
      }
      if code != 200 || data.None? || data.value.status == "failed" {
        return NoAnswer;
      }
      answer := RefundIs(reference, data.value.id, data.value.status);
    }
  }
}
