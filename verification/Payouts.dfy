/** Payout calls to a provider that may do what it was asked and lose the reply.

    The provider keeps a ledger that is idempotent by the X-Payout-Idempotency header of a request, and
    by nothing else; that one payout is made per reference is up to what the adapter sends. What the
    network and the provider do with one request is a Fate, chosen freely. */
module Payouts {
  import Text = DecimalText

  type Option<+T> = Text.Option<T>

  /** `header` is the idempotency key the payout was created under; `reference` is its reference_id. */
  datatype Payout =
    Payout(id: nat, header: string, reference: string, amount: int, fund: string, mode: string, status: string)

  const MIN_PAISE := 100
  const REFERENCE_LENGTH: nat := 40

  /** A status that means the payout will not pay; the provider never takes one back. */
  predicate DefiniteNo(status: string) {
    status == "failed" || status == "rejected" || status == "cancelled"
  }

  predicate WillPay(p: Payout) {
    !DefiniteNo(p.status)
  }

  // ---- The wire ------------------------------------------------------------------------------------

  /** Lost is a timeout or a dropped connection. A reply's body is usable when it is the JSON object
      of the payout; an unreadable body counts as an empty one. */
  datatype Reply = Lost | Replied(code: nat, usable: bool)

  /** Whether the request reached the ledger, the status a new payout starts in, and the reply. */
  datatype Fate = Fate(processed: bool, firstStatus: string, reply: Reply)

  datatype Request = Request(header: string, reference: string, amount: int, fund: string, mode: string)

  function Find(ledger: seq<Payout>, header: string): Option<nat> {
    if ledger == [] then Text.None
    else if ledger[|ledger| - 1].header == header then Text.Some(|ledger| - 1)
    else Find(ledger[..|ledger| - 1], header)
  }

  function NewPayout(id: nat, request: Request, status: string): Payout {
    Payout(id, request.header, request.reference, request.amount, request.fund, request.mode, status)
  }

  /** The ledger after a request that reached it: the same header gives the payout there already is. */
  function Process(ledger: seq<Payout>, request: Request, firstStatus: string): seq<Payout> {
    if Find(ledger, request.header).Some? then ledger
    else ledger + [NewPayout(|ledger|, request, firstStatus)]
  }

  // ---- One call --------------------------------------------------------------------------------------

  /** A payout named to the caller, a definite no, or an outcome the caller must leave open. */
  datatype Answer = Paid(reference: string, id: nat, status: string) | NoPayout | OutcomeUnknown

  /** What the adapter makes of the reply. A reply naming a payout comes from a ledger that has it. */
  function Post(ledger: seq<Payout>, request: Request, fate: Fate): (r: (seq<Payout>, Answer)) {
    var after := if fate.processed then Process(ledger, request, fate.firstStatus) else ledger;
    if fate.reply.Lost? || fate.reply.code >= 500 then (after, OutcomeUnknown)
    else if (fate.reply.code != 200 && fate.reply.code != 201) || !fate.reply.usable || !fate.processed then
      (after, NoPayout)
    else
      var found := Find(after, request.header);
      if found.None? || found.value >= |after| || DefiniteNo(after[found.value].status) then (after, NoPayout)
      else (after, Paid(request.reference, after[found.value].id, after[found.value].status))
  }

  datatype Amount = Whole(n: int) | NotAnInteger

  datatype Channel = Upi(address: string) | Bank(account: string, ifsc: string, mode: string)

  /** A call of the adapter; `contact` and `fund` are ids kept from earlier, "" for none. */
  datatype Call = Call(channel: Channel, amount: Amount, currency: string, reference: string, contact: string,
      fund: string)

  /** How the two calls before the payout come out: an id, or "" for any failure. */
  datatype Setup = Setup(configured: bool, contact: string, fund: string)

  predicate IsRupees(currency: string) {
    && |currency| == 3
    && (currency[0] == 'I' || currency[0] == 'i' || currency[0] == '\U{131}')
    && (currency[1] == 'N' || currency[1] == 'n') && (currency[2] == 'R' || currency[2] == 'r')
  }

  predicate Complete(channel: Channel) {
    match channel
    case Upi(address) => address != ""
    case Bank(account, ifsc, mode) =>
      account != "" && ifsc != "" && (mode == "IMPS" || mode == "NEFT" || mode == "RTGS")
  }

  predicate Acceptable(call: Call) {
    && Complete(call.channel) && call.reference != "" && IsRupees(call.currency)
    && call.amount.Whole? && call.amount.n >= MIN_PAISE
  }

  function Truncated(reference: string): string {
    if |reference| <= REFERENCE_LENGTH then reference else reference[..REFERENCE_LENGTH]
  }

  function ContactFor(call: Call, setup: Setup): string {
    if call.contact != "" then call.contact else setup.contact
  }

  function FundFor(call: Call, setup: Setup): string {
    if call.fund != "" then call.fund else setup.fund
  }

  /** Is a payout request sent at all? */
  predicate Dispatches(call: Call, setup: Setup) {
    setup.configured && Acceptable(call) && ContactFor(call, setup) != "" && FundFor(call, setup) != ""
  }

  function RequestOf(call: Call, setup: Setup): Request
    requires call.amount.Whole?
  {
    var reference := Truncated(call.reference);
    var mode := if call.channel.Upi? then "UPI" else call.channel.mode;
    Request(reference, reference, call.amount.n, FundFor(call, setup), mode)
  }

  /** A whole call: contact, fund account, payout. */
  function Attempt(ledger: seq<Payout>, call: Call, setup: Setup, fate: Fate): (seq<Payout>, Answer) {
    if Dispatches(call, setup) then Post(ledger, RequestOf(call, setup), fate) else (ledger, NoPayout)
  }

  // ---- Runs ----------------------------------------------------------------------------------------

  /** A call of ours, or the provider moving one of its payouts on. */
  datatype Event = Pay(call: Call, setup: Setup, fate: Fate) | Move(id: nat, status: string)

  function Next(ledger: seq<Payout>, event: Event): seq<Payout> {
    match event
    case Pay(call, setup, fate) => Attempt(ledger, call, setup, fate).0
    case Move(id, status) =>
      if id < |ledger| && WillPay(ledger[id]) then ledger[id := ledger[id].(status := status)] else ledger
  }

  function Run(ledger: seq<Payout>, events: seq<Event>): seq<Payout> {
    if events == [] then ledger else Next(Run(ledger, events[..|events| - 1]), events[|events| - 1])
  }

  predicate HeadersUnique(ledger: seq<Payout>) {
    && (forall i :: 0 <= i < |ledger| ==> ledger[i].id == i)
    && forall i, j :: 0 <= i < j < |ledger| ==> ledger[i].header != ledger[j].header
  }

  /** What a later ledger keeps of an earlier one: every payout, except that one which may pay can
      change its status. */
  predicate Extends(before: seq<Payout>, after: seq<Payout>) {
    && |before| <= |after|
    && forall i :: 0 <= i < |before| ==>
      && after[i] == before[i].(status := after[i].status)
      && (DefiniteNo(before[i].status) ==> after[i] == before[i])
  }

  lemma {:induction false} FindIsRight(ledger: seq<Payout>, header: string)
    ensures var found := Find(ledger, header);
      if found.Some? then found.value < |ledger| && ledger[found.value].header == header
      else forall i :: 0 <= i < |ledger| ==> ledger[i].header != header
  {
    if ledger != [] {
      FindIsRight(ledger[..|ledger| - 1], header);
    }
  }

  lemma ProcessKeepsOne(ledger: seq<Payout>, request: Request, firstStatus: string)
    requires HeadersUnique(ledger)
    ensures var after := Process(ledger, request, firstStatus);
      HeadersUnique(after) && Extends(ledger, after) && |after| <= |ledger| + 1
  {
    FindIsRight(ledger, request.header);
  }

  lemma NextKeepsOne(ledger: seq<Payout>, event: Event)
    requires HeadersUnique(ledger)
    ensures HeadersUnique(Next(ledger, event)) && Extends(ledger, Next(ledger, event))
  {
    if event.Pay? && Dispatches(event.call, event.setup) {
      ProcessKeepsOne(ledger, RequestOf(event.call, event.setup), event.fate.firstStatus);
    }
  }

  lemma ExtendsTransitive(a: seq<Payout>, b: seq<Payout>, c: seq<Payout>)
    requires Extends(a, b) && Extends(b, c)
    ensures Extends(a, c)
  {
    forall i | 0 <= i < |a|
      ensures c[i] == a[i].(status := c[i].status) && (DefiniteNo(a[i].status) ==> c[i] == a[i])
    {
      assert b[i] == a[i].(status := b[i].status) && c[i] == b[i].(status := c[i].status);
    }
  }

  lemma {:induction false} RunKeepsOne(ledger: seq<Payout>, events: seq<Event>)
    requires HeadersUnique(ledger)
    ensures HeadersUnique(Run(ledger, events)) && Extends(ledger, Run(ledger, events))
  {
    if events != [] {
      var before := events[..|events| - 1];
      RunKeepsOne(ledger, before);
      NextKeepsOne(Run(ledger, before), events[|events| - 1]);
      ExtendsTransitive(ledger, Run(ledger, before), Run(ledger, events));
    }
  }

  /** The ways to write the one currency: the first letter may also be a dotless i. */
  const RUPEES: set<string> := {
    "INR", "INr", "InR", "Inr", "iNR", "iNr", "inR", "inr",
    "\U{131}NR", "\U{131}Nr", "\U{131}nR", "\U{131}nr" }

  /** A call that may be dispatched: a whole amount of rupees, at least 100 paise, to an address or an account
      with a mode the bank knows, under a reference. */
  predicate MayDispatch(call: Call) {
    && call.reference != "" && call.currency in RUPEES && call.amount.Whole? && call.amount.n >= 100
    && match call.channel
       case Upi(address) => address != ""
       case Bank(account, ifsc, mode) => account != "" && ifsc != "" && mode in {"IMPS", "NEFT", "RTGS"}
  }

  /** The contact and the fund account are there: kept from earlier, or made for the call. */
  predicate IsSetUp(call: Call, setup: Setup) {
    setup.configured && (call.contact != "" || setup.contact != "") && (call.fund != "" || setup.fund != "")
  }

  predicate StartOf(header: string, reference: string) {
    header <= reference && |header| == if |reference| < 40 then |reference| else 40
  }

  /** The payout is the one a dispatched call asked for: its reference, sent as the header too, its amount, its
      fund account and its mode. */
  predicate AskedBy(p: Payout, event: Event) {
    && event.Pay? && MayDispatch(event.call) && IsSetUp(event.call, event.setup)
    && p.reference == p.header && StartOf(p.header, event.call.reference)
    && p.amount == event.call.amount.n
    && (event.call.fund != "" ==> p.fund == event.call.fund)
    && (event.call.fund == "" ==> p.fund == event.setup.fund)
    && match event.call.channel
       case Upi(_) => p.mode == "UPI"
       case Bank(_, _, mode) => p.mode == mode
  }

  lemma RupeesAreSpelled(currency: string)
    ensures IsRupees(currency) <==> currency in RUPEES
  {
    if |currency| == 3 {
      assert currency == [currency[0], currency[1], currency[2]];
    }
  }

  /** What is dispatched, and what is asked for. */
  lemma DispatchesIs(call: Call, setup: Setup)
    ensures Dispatches(call, setup) <==> MayDispatch(call) && IsSetUp(call, setup)
    ensures Dispatches(call, setup) ==> forall p: Payout, id: nat, status: string, fate: Fate ::
      p == NewPayout(id, RequestOf(call, setup), status) ==> AskedBy(p, Pay(call, setup, fate)) && p.status == status
  {
    hide IsRupees;
    RupeesAreSpelled(call.currency);
    StartIsTruncated(call.reference, Truncated(call.reference));
  }

  lemma StartIsTruncated(reference: string, header: string)
    ensures StartOf(header, reference) <==> header == Truncated(reference)
  {
  }

  /** Whatever a run adds to the ledger, some call of the run asked for exactly that. */
  lemma {:induction false} CreatedAsAsked(ledger: seq<Payout>, events: seq<Event>, i: nat)
    requires HeadersUnique(ledger) && |ledger| <= i < |Run(ledger, events)|
    ensures exists k :: 0 <= k < |events| && AskedBy(Run(ledger, events)[i], events[k])
  {
    hide AskedBy, HeadersUnique;
    assert events != [];
    var before, last := events[..|events| - 1], events[|events| - 1];
    var mid := Run(ledger, before);
    RunKeepsOne(ledger, before);
    NextKeepsOne(mid, last);
    if i < |mid| {
      CreatedAsAsked(ledger, before, i);
      var k :| 0 <= k < |before| && AskedBy(mid[i], before[k]);
      StillAsked(mid[i], Run(ledger, events)[i], before[k]);
      assert before[k] == events[k];
    } else {
      AddedAsAsked(mid, last, i);
    }
  }

  lemma StillAsked(p: Payout, q: Payout, event: Event)
    requires AskedBy(p, event) && q == p.(status := q.status)
    ensures AskedBy(q, event)
  {
  }

  lemma AddedAsAsked(ledger: seq<Payout>, event: Event, i: nat)
    requires |ledger| <= i < |Next(ledger, event)|
    ensures AskedBy(Next(ledger, event)[i], event)
  {
    hide AskedBy;
    if event.Pay? {
      DispatchesIs(event.call, event.setup);
    }
  }

  /** Any number of calls, lost replies, retries and provider moves create at most one payout per
      (40-character) reference, because the adapter sends the reference as the header every time. */
  lemma AtMostOnePayout(ledger: seq<Payout>, events: seq<Event>, i: nat, j: nat)
    requires HeadersUnique(ledger) && |ledger| <= i < j < |Run(ledger, events)|
    ensures Run(ledger, events)[i].reference != Run(ledger, events)[j].reference
  {
    var after := Run(ledger, events);
    RunKeepsOne(ledger, events);
    CreatedAsAsked(ledger, events, i);
    CreatedAsAsked(ledger, events, j);
    assert after[i].header == after[i].reference && after[j].header == after[j].reference;
  }

  /** The provider would not help an adapter that sent another header for the same reference. */
  lemma AnotherHeaderPaysAgain(ledger: seq<Payout>, request: Request, other: Request, status: string)
    requires HeadersUnique(ledger) && Find(ledger, request.header).None? && Find(ledger, other.header).None?
    requires other.header != request.header && other.reference == request.reference
    ensures var after := Process(Process(ledger, request, status), other, status);
      && HeadersUnique(after) && |after| == |ledger| + 2
      && after[|ledger|].reference == after[|ledger| + 1].reference == request.reference
  {
    var mid := Process(ledger, request, status);
    ProcessKeepsOne(ledger, request, status);
    ProcessKeepsOne(mid, other, status);
    assert mid[..|ledger|] == ledger;
  }

  // ---- What an answer means ----------------------------------------------------------------------------

  /** A named payout is in the ledger under the reference, and was not a definite no; if the call made
      it, it is what the call asked for. */
  lemma PaidIsThere(ledger: seq<Payout>, call: Call, setup: Setup, fate: Fate)
    requires HeadersUnique(ledger)
    ensures var (after, answer) := Attempt(ledger, call, setup, fate);
      answer.Paid? ==>
        && answer.reference == Truncated(call.reference) && answer.id < |after|
        && after[answer.id].id == answer.id && after[answer.id].header == answer.reference
        && after[answer.id].status == answer.status && WillPay(after[answer.id])
        && (answer.id < |ledger| ==> after[answer.id] == ledger[answer.id])
        && (answer.id >= |ledger| ==> AskedBy(after[answer.id], Pay(call, setup, fate)))
  {
    hide AskedBy;
    DispatchesIs(call, setup);
    if Dispatches(call, setup) {
      var request := RequestOf(call, setup);
      ProcessKeepsOne(ledger, request, fate.firstStatus);
      FindIsRight(Process(ledger, request, fate.firstStatus), request.header);
    }
  }

  /** Every answer that names a payout for one reference, however far apart and with whatever in
      between, names the same payout. */
  lemma SamePayoutNamed(ledger: seq<Payout>, first: Event, between: seq<Event>, second: Event)
    requires HeadersUnique(ledger) && first.Pay? && second.Pay?
    requires Truncated(first.call.reference) == Truncated(second.call.reference)
    requires Attempt(ledger, first.call, first.setup, first.fate).1.Paid?
    requires var later := Run(Next(ledger, first), between);
      Attempt(later, second.call, second.setup, second.fate).1.Paid?
    ensures var later := Run(Next(ledger, first), between);
      Attempt(later, second.call, second.setup, second.fate).1.id
          == Attempt(ledger, first.call, first.setup, first.fate).1.id
  {
    hide Attempt, HeadersUnique, Extends;
    var mid := Next(ledger, first);
    NextKeepsOne(ledger, first);
    RunKeepsOne(mid, between);
    var later := Run(mid, between);
    NextKeepsOne(later, second);
    PaidIsThere(ledger, first.call, first.setup, first.fate);
    PaidIsThere(later, second.call, second.setup, second.fate);
    ExtendsTransitive(mid, later, Next(later, second));
    SameHeaderSameId(mid, Next(later, second), Attempt(ledger, first.call, first.setup, first.fate).1.id,
                        Attempt(later, second.call, second.setup, second.fate).1.id);
  }

  lemma SameHeaderSameId(a: seq<Payout>, b: seq<Payout>, i: nat, j: nat)
    requires HeadersUnique(b) && Extends(a, b) && i < |a| && j < |b| && a[i].header == b[j].header
    ensures i == j
  {
    assert b[i].header == a[i].header;
  }

  /** The provider did what it was asked and answered below 500 with something other than the payout:
      an unreadable body, or a status other than 200 and 201. */
  predicate Muffled(fate: Fate) {
    && fate.processed && fate.reply.Replied? && fate.reply.code < 500
    && (!fate.reply.usable || (fate.reply.code != 200 && fate.reply.code != 201))
  }

  /** The entries a call added that may still pay. */
  predicate AddsNothingThatPays(before: seq<Payout>, after: seq<Payout>) {
    |before| <= |after| && after[..|before|] == before && forall i :: |before| <= i < |after| ==>
        DefiniteNo(after[i].status)
  }

  predicate IsNew(ledger: seq<Payout>, call: Call) {
    Find(ledger, Truncated(call.reference)).None?
  }

  /** None is a definite no exactly when it did not come from a muffled answer to a request that
      created a payout: for any reference not in the ledger, one that may pay. */
  lemma NoneIsANo(ledger: seq<Payout>, call: Call, setup: Setup, fate: Fate)
    requires HeadersUnique(ledger)
    ensures var (after, answer) := Attempt(ledger, call, setup, fate);
      answer.NoPayout? ==>
        (AddsNothingThatPays(ledger, after) <==>
          !(Dispatches(call, setup) && Muffled(fate) && IsNew(ledger, call) && !DefiniteNo(fate.firstStatus)))
  {
    var (after, answer) := Attempt(ledger, call, setup, fate);
    if Dispatches(call, setup) && fate.processed {
      var request := RequestOf(call, setup);
      FindIsRight(ledger, request.header);
      FindIsRight(after, request.header);
      if Find(ledger, request.header).None? {
        assert after[..|ledger|] == ledger;
        assert after[|ledger|].status == fate.firstStatus && after[|ledger|].reference == request.reference;
        assert Find(after, request.header) == Text.Some(|ledger|);
      } else {
        assert after[..|ledger|] == ledger;
      }
    } else {
      assert after[..|ledger|] == ledger;
    }
  }

  /** An input that fails it: a processed request whose 200 has a body that is not JSON is answered
      None, and the payout pays. */
  lemma MuffledAnswerHidesAPayout()
    ensures var call := Call(Upi("driver@upi"), Whole(50_000), "INR", "withdrawal_7", "cont_1", "fa_1");
      var fate := Fate(true, "processing", Replied(200, false));
      var (after, answer) := Attempt([], call, Setup(true, "", ""), fate);
      answer == NoPayout && |after| == 1 && WillPay(after[0]) && after[0].reference == "withdrawal_7"
  {
  }

  /** The answer tells the truth about a payout: it names it, or is a no because it will not pay. */
  predicate Names(answer: Answer, p: Payout) {
    if WillPay(p) then answer == Paid(p.header, p.id, p.status) else answer == NoPayout
  }

  /** Only a raised outcome is left open, and a delivered retry closes it: it names the one payout of
      the reference, or says no exactly when that payout will not pay. */
  lemma RetryResolves(ledger: seq<Payout>, events: seq<Event>, call: Call, setup: Setup, fate: Fate)
    requires HeadersUnique(ledger) && Dispatches(call, setup)
    requires fate.processed && fate.reply.Replied? && fate.reply.usable
      && (fate.reply.code == 200 || fate.reply.code == 201)
    ensures var before := Run(ledger, events);
      var (after, answer) := Attempt(before, call, setup, fate);
      && HeadersUnique(after)
      && (Find(before, Truncated(call.reference)).Some? ==> after == before)
      && exists i :: 0 <= i < |after| && after[i].header == Truncated(call.reference) && Names(answer, after[i])
  {
    RunKeepsOne(ledger, events);
    var before := Run(ledger, events);
    var request := RequestOf(call, setup);
    ProcessKeepsOne(before, request, fate.firstStatus);
    var after := Process(before, request, fate.firstStatus);
    FindIsRight(before, request.header);
    FindIsRight(after, request.header);
    var i := Find(after, request.header).value;
    assert after[i].id == i && after[i].header == Truncated(call.reference);
  }

  /** The ledger has a payout of this header. */
  predicate Known(ledger: seq<Payout>, header: string) {
    exists i :: 0 <= i < |ledger| && ledger[i].header == header
  }

  /** The ledger has a payout of this header that will pay. */
  predicate Pays(ledger: seq<Payout>, header: string) {
    exists i :: 0 <= i < |ledger| && ledger[i].header == header
      && ledger[i].status !in {"failed", "rejected", "cancelled"}
  }

  predicate WellAnswered(fate: Fate) {
    fate.processed && fate.reply.Replied? && fate.reply.usable && fate.reply.code in {200, 201}
  }

  /** Every call, every outcome: what the ledger is afterwards, and which of the three answers is given. A payout is
      added exactly by a call that may be dispatched, is set up, reaches the provider and has a new reference;
      the outcome is left open exactly when such a call is not answered, or with a server error; and a payout is
      named exactly when one is well answered and the payout of the reference will pay. */
  lemma EveryOutcome(ledger: seq<Payout>, call: Call, setup: Setup, fate: Fate, header: string)
    requires HeadersUnique(ledger) && StartOf(header, call.reference)
    ensures var (after, answer) := Attempt(ledger, call, setup, fate);
      var sent := MayDispatch(call) && IsSetUp(call, setup);
      && (after == ledger || (|after| == |ledger| + 1 && after[..|ledger|] == ledger))
      && (|after| == |ledger| + 1 <==> sent && fate.processed && !Known(ledger, header))
      && (|after| == |ledger| + 1 ==> AskedBy(after[|ledger|], Pay(call, setup, fate)))
      && (|after| == |ledger| + 1 ==> after[|ledger|].id == |ledger| && after[|ledger|].status == fate.firstStatus)
      && (answer.OutcomeUnknown? <==> sent && (fate.reply.Lost? || fate.reply.code >= 500))
      && (answer.Paid? <==> sent && WellAnswered(fate) && Pays(after, header))
      && (answer.Paid? ==> answer.reference == header && answer.id < |after|)
      && (answer.Paid? ==> after[answer.id].header == header && answer.status == after[answer.id].status)
  {
    hide AskedBy, MayDispatch, IsSetUp, Attempt, Pays, Known, WellAnswered;
    LedgerOutcome(ledger, call, setup, fate, header);
    AnswerOutcome(ledger, call, setup, fate, header);
  }

  lemma LedgerOutcome(ledger: seq<Payout>, call: Call, setup: Setup, fate: Fate, header: string)
    requires HeadersUnique(ledger) && StartOf(header, call.reference)
    ensures var after := Attempt(ledger, call, setup, fate).0;
      var sent := MayDispatch(call) && IsSetUp(call, setup);
      && (after == ledger || (|after| == |ledger| + 1 && after[..|ledger|] == ledger))
      && (|after| == |ledger| + 1 <==> sent && fate.processed && !Known(ledger, header))
      && (|after| == |ledger| + 1 ==> AskedBy(after[|ledger|], Pay(call, setup, fate)))
      && (|after| == |ledger| + 1 ==> after[|ledger|].id == |ledger| && after[|ledger|].status == fate.firstStatus)
  {
    hide AskedBy, MayDispatch, IsSetUp;
    DispatchesIs(call, setup);
    StartIsTruncated(call.reference, header);
    FindIsRight(ledger, header);
  }

  lemma AnswerOutcome(ledger: seq<Payout>, call: Call, setup: Setup, fate: Fate, header: string)
    requires HeadersUnique(ledger) && StartOf(header, call.reference)
    ensures var (after, answer) := Attempt(ledger, call, setup, fate);
      var sent := MayDispatch(call) && IsSetUp(call, setup);
      && (answer.OutcomeUnknown? <==> sent && (fate.reply.Lost? || fate.reply.code >= 500))
      && (answer.Paid? <==> sent && WellAnswered(fate) && Pays(after, header))
      && (answer.Paid? ==> answer.reference == header && answer.id < |after|)
      && (answer.Paid? ==> after[answer.id].header == header && answer.status == after[answer.id].status)
  {
    hide AskedBy, MayDispatch, IsSetUp;
    DispatchesIs(call, setup);
    StartIsTruncated(call.reference, header);
    if Dispatches(call, setup) {
      var request := RequestOf(call, setup);
      ProcessKeepsOne(ledger, request, fate.firstStatus);
      FindIsRight(Process(ledger, request, fate.firstStatus), header);
    }
  }

  // ---- The adapter against the provider's own ledger ---------------------------------------------------

  class Provider {
    var ledger: seq<Payout>

    constructor ()
      ensures ledger == []
    {
      ledger := [];
    }

    /** POST /payouts with the idempotency key, whatever becomes of the reply. */
    method CreatePayout(request: Request, fate: Fate) returns (answer: Answer)
      requires HeadersUnique(ledger)
      modifies this
      ensures (ledger, answer) == Post(old(ledger), request, fate) && HeadersUnique(ledger)
    {
      ProcessKeepsOne(ledger, request, fate.firstStatus);
      if fate.processed {
        var known := Lookup(request.header);
        if known == |ledger| {
          ledger := ledger + [NewPayout(|ledger|, request, fate.firstStatus)];
        }
      }
      match fate.reply {
        case Lost => return OutcomeUnknown;
        case Replied(code, usable) =>
          if code >= 500 {
            return OutcomeUnknown;
          }
          if (code != 200 && code != 201) || !usable || !fate.processed {
            return NoPayout;
          }
          var at := Lookup(request.header);
          if at == |ledger| || DefiniteNo(ledger[at].status) {
            return NoPayout;
          }
          return Paid(request.reference, ledger[at].id, ledger[at].status);
      }
    }

    /** Where the payout with a header is; the length of the ledger when there is none. */
    method Lookup(header: string) returns (i: nat)
      requires HeadersUnique(ledger)
      ensures i <= |ledger| && (i < |ledger| ==> ledger[i].header == header)
      ensures Find(ledger, header) == if i < |ledger| then Text.Some(i) else Text.None
    {
      i := 0;
      while i < |ledger| && ledger[i].header != header
        invariant 0 <= i <= |ledger| && forall j :: 0 <= j < i ==> ledger[j].header != header
      {
        i := i + 1;
      }
      FindIsRight(ledger, header);
    }

    /** create_upi_payout and create_bank_payout: the checks, then contact, fund account and payout. */
    method Dispatch(call: Call, setup: Setup, fate: Fate) returns (answer: Answer)
      requires HeadersUnique(ledger)
      modifies this
      ensures (ledger, answer) == Attempt(old(ledger), call, setup, fate) && HeadersUnique(ledger)
    {
      if !setup.configured || !Acceptable(call) {
        return NoPayout;
      }
      var contact := if call.contact != "" then call.contact else setup.contact;
      if contact == "" {
        return NoPayout;
      }
      var fund := if call.fund != "" then call.fund else setup.fund;
      if fund == "" {
        return NoPayout;
      }
      var mode := if call.channel.Upi? then "UPI" else call.channel.mode;
      var reference := Truncated(call.reference);
      answer := CreatePayout(Request(reference, reference, call.amount.n, fund, mode), fate);
    }
  }
}
