/** Paying from a wallet: concurrent calls that check for a duplicate, lock the wallet row, check what
    may be spent, insert the debit under a unique key, and commit.

    Every call is a process that takes one database step at a time. A step that has to wait for a row
    lock, or for another transaction's uncommitted key, does nothing. */
module WalletPayments {
  import opened Decimals
  import Money
  import MoneyRounding
  import Text = DecimalText

  type Option<+T> = Text.Option<T>

  /** Amounts in minor units; `held` is what a review keeps from being spent. */
  datatype Wallet = Wallet(balance: int, held: int, currency: string)

  datatype TxnKind = CreditTxn | DebitTxn

  datatype TxnStatus = TxnPending | TxnCompleted | TxnFailed

  /** A row of the ledger, of this or any other part of the platform; its position in the table is its id.
      A row need not have a key. */
  datatype Txn = Txn(user: nat, amount: int, key: Option<string>, kind: TxnKind, status: TxnStatus)

  predicate CompletedDebit(row: Txn) {
    row.kind == DebitTxn && row.status == TxnCompleted
  }

  /** An empty key is none: the code makes a fresh one before it looks at the ledger. */
  datatype Call = Call(user: nat, amount: Money.Amount, key: string)

  datatype Result = Paid(id: nat) | Duplicate(id: nat) | Failed

  /** Where a call stands. From Locked to Inserted it holds the lock of its wallet row; the debit and
      the ledger row it has written by then are not committed. */
  datatype Pc = Arrived | Wanting | Locked | Debited(minor: int) | Inserted(minor: int) | Done(result: Result)

  datatype Proc = Proc(call: Call, pc: Pc)

  datatype State = State(wallets: seq<Wallet>, rows: seq<Txn>, procs: seq<Proc>)

  /** A call arrives with the key it will use if it has none. Abort is any exception, or a crash, before
      the commit. Credits and holds of the rest of the platform take the wallet lock; releasing a hold
      does not. Record is a row some other part of the platform writes: a credit, a debit, finished or not,
      with a key or without; a completed debit takes its amount from the wallet, under the lock. */
  datatype Event =
    | Arrive(call: Call, newKey: string)
    | Step(p: nat)
    | Abort(p: nat)
    | Credit(user: nat, amount: nat)
    | Hold(user: nat, amount: nat)
    | Release(user: nat, amount: nat)
    | Record(row: Txn)

  // ---- One step ------------------------------------------------------------------------------------

  function FindKey(rows: seq<Txn>, key: string): Option<nat> {
    if rows == [] then Text.None
    else if rows[|rows| - 1].key == Text.Some(key) then Text.Some(|rows| - 1)
    else FindKey(rows[..|rows| - 1], key)
  }

  predicate HoldsLock(proc: Proc, user: nat) {
    proc.call.user == user && (proc.pc.Locked? || proc.pc.Debited? || proc.pc.Inserted?)
  }

  predicate LockFree(procs: seq<Proc>, user: nat) {
    forall q :: 0 <= q < |procs| ==> !HoldsLock(procs[q], user)
  }

  predicate KeyPending(procs: seq<Proc>, key: string) {
    exists q :: 0 <= q < |procs| && procs[q].pc.Inserted? && procs[q].call.key == key
  }

  /** The amount in minor units of the wallet's currency, or nothing to go on. */
  function MinorOf(table: Money.CurrencyTable, amount: Money.Amount, currency: string): Option<int> {
    match Money.ParseInput(amount)
    case Err(_) => Text.None
    case Ok(d) =>
      match Money.ToMinor(table, Money.ADecimal(d), currency)
      case Err(_) => Text.None
      case Ok(m) => Text.Some(m)
  }

  /** Refused before any query: not a number, or not positive. */
  predicate Refused(amount: Money.Amount) {
    match Money.ParseInput(amount)
    case Err(_) => true
    case Ok(d) => d.coeff <= 0
  }

  /** The row a payment writes. */
  function PaymentRow(call: Call, minor: int): Txn {
    Txn(call.user, minor, Text.Some(call.key), DebitTxn, TxnCompleted)
  }

  function Move(s: State, p: nat, pc: Pc): State
    requires p < |s.procs|
  {
    s.(procs := s.procs[p := s.procs[p].(pc := pc)])
  }

  function StepOf(table: Money.CurrencyTable, s: State, p: nat): State
    requires p < |s.procs|
  {
    var call := s.procs[p].call;
    match s.procs[p].pc
    case Arrived =>
      if Refused(call.amount) then Move(s, p, Done(Failed))
      else
        var existing := FindKey(s.rows, call.key);
        Move(s, p, if existing.Some? then Done(Duplicate(existing.value)) else Wanting)
    case Wanting =>
      if call.user >= |s.wallets| then Move(s, p, Done(Failed))
      else if LockFree(s.procs, call.user) then Move(s, p, Locked) else s
    case Locked =>
      if call.user >= |s.wallets| then s
      else
        var wallet := s.wallets[call.user];
        var minor := MinorOf(table, call.amount, wallet.currency);
        var short := minor.None? || wallet.balance - wallet.held < minor.value;
        Move(s, p, if short then Done(Failed) else Debited(minor.value))
    case Debited(minor) =>
      if FindKey(s.rows, call.key).Some? then Move(s, p, Done(Failed))
      else if KeyPending(s.procs, call.key) then s else Move(s, p, Inserted(minor))
    case Inserted(minor) =>
      if call.user >= |s.wallets| then s
      else
        var wallet := s.wallets[call.user];
        Move(s, p, Done(Paid(|s.rows|))).(
          wallets := s.wallets[call.user := wallet.(balance := wallet.balance - minor)],
          rows := s.rows + [PaymentRow(call, minor)])
    case Done(_) => s
  }

  function Keyed(call: Call, newKey: string): Call {
    if call.key == "" then call.(key := newKey) else call
  }

  /** A generated key is one nobody has used. */
  predicate KeyUsed(s: State, key: string) {
    FindKey(s.rows, key).Some? || exists q :: 0 <= q < |s.procs| && s.procs[q].call.key == key
  }

  /** The unique index on the key, and the wallet lock of a completed debit. */
  predicate MayRecord(s: State, row: Txn) {
    && (row.key.Some? ==> FindKey(s.rows, row.key.value).None? && !KeyPending(s.procs, row.key.value))
    && (CompletedDebit(row) ==>
      && row.user < |s.wallets| && LockFree(s.procs, row.user)
      && 0 <= row.amount <= s.wallets[row.user].balance - s.wallets[row.user].held)
  }

  function Recorded(s: State, row: Txn): State
    requires MayRecord(s, row)
  {
    var t := s.(rows := s.rows + [row]);
    if CompletedDebit(row) then
      var wallet := s.wallets[row.user];
      t.(wallets := s.wallets[row.user := wallet.(balance := wallet.balance - row.amount)])
    else
      t
  }

  function Next(table: Money.CurrencyTable, s: State, event: Event): State {
    match event
    case Arrive(call, newKey) =>
      if call.key == "" && (newKey == "" || KeyUsed(s, newKey)) then s
      else s.(procs := s.procs + [Proc(Keyed(call, newKey), Arrived)])
    case Step(p) => if p < |s.procs| then StepOf(table, s, p) else s
    case Abort(p) => if p < |s.procs| && !s.procs[p].pc.Done? then Move(s, p, Done(Failed)) else s
    case Credit(user, amount) =>
      if user < |s.wallets| && LockFree(s.procs, user)
      then s.(wallets := s.wallets[user := s.wallets[user].(balance := s.wallets[user].balance + amount)]) else s
    case Hold(user, amount) =>
      if user < |s.wallets| && LockFree(s.procs, user) && amount <= s.wallets[user].balance - s.wallets[user].held
      then s.(wallets := s.wallets[user := s.wallets[user].(held := s.wallets[user].held + amount)]) else s
    case Release(user, amount) =>
      if user < |s.wallets| && amount <= s.wallets[user].held
      then s.(wallets := s.wallets[user := s.wallets[user].(held := s.wallets[user].held - amount)]) else s
    case Record(row) => if MayRecord(s, row) then Recorded(s, row) else s
  }

  function Run(table: Money.CurrencyTable, s: State, events: seq<Event>): State {
    if events == [] then s else Next(table, Run(table, s, events[..|events| - 1]), events[|events| - 1])
  }

  // ---- The invariant ---------------------------------------------------------------------------------

  /** What the call asks for, in minor units of its own wallet. */
  predicate Asks(table: Money.CurrencyTable, s: State, call: Call, minor: int) {
    call.user < |s.wallets| && MinorOf(table, call.amount, s.wallets[call.user].currency) == Text.Some(minor)
  }

  /** The debit is exactly what the call asks for, from its own user. */
  predicate OwnDebit(table: Money.CurrencyTable, s: State, call: Call, id: nat) {
    && id < |s.rows| && CompletedDebit(s.rows[id])
    && s.rows[id].user == call.user && Asks(table, s, call, s.rows[id].amount)
  }

  predicate ProcOk(table: Money.CurrencyTable, s: State, proc: Proc) {
    match proc.pc
    case Locked => proc.call.user < |s.wallets| && !Refused(proc.call.amount)
    case Debited(minor) =>
      && Asks(table, s, proc.call, minor)
      && 0 <= minor <= s.wallets[proc.call.user].balance - s.wallets[proc.call.user].held
    case Inserted(minor) =>
      && Asks(table, s, proc.call, minor) && FindKey(s.rows, proc.call.key).None?
      && 0 <= minor <= s.wallets[proc.call.user].balance - s.wallets[proc.call.user].held
    case Wanting => !Refused(proc.call.amount)
    case Arrived => true
    case Done(result) =>
      && (result.Paid? ==> OwnDebit(table, s, proc.call, result.id))
      && (!result.Failed? ==> result.id < |s.rows| && s.rows[result.id].key == Text.Some(proc.call.key))
  }

  predicate Apart(a: Proc, b: Proc) {
    && !(a.call.user == b.call.user && HoldsLock(a, a.call.user) && HoldsLock(b, b.call.user))
    && !(a.pc.Inserted? && b.pc.Inserted? && a.call.key == b.call.key)
    && !(a.pc.Done? && b.pc.Done? && a.pc.result.Paid? && a.pc.result == b.pc.result)
  }

  predicate KeysUnique(rows: seq<Txn>) {
    forall i, j :: 0 <= i < j < |rows| && rows[i].key.Some? ==> rows[i].key != rows[j].key
  }

  predicate WalletsOk(wallets: seq<Wallet>) {
    forall u :: 0 <= u < |wallets| ==> 0 <= wallets[u].held <= wallets[u].balance
  }

  predicate Inv(table: Money.CurrencyTable, s: State) {
    && WalletsOk(s.wallets) && KeysUnique(s.rows)
    && (forall p :: 0 <= p < |s.procs| ==> ProcOk(table, s, s.procs[p]))
    && forall p, q :: 0 <= p < q < |s.procs| ==> Apart(s.procs[p], s.procs[q])
  }

  lemma {:induction false} FindKeyIsRight(rows: seq<Txn>, key: string)
    ensures var found := FindKey(rows, key);
      if found.Some? then found.value < |rows| && rows[found.value].key == Text.Some(key)
      else forall i :: 0 <= i < |rows| ==> rows[i].key != Text.Some(key)
  {
    if rows != [] {
      FindKeyIsRight(rows[..|rows| - 1], key);
    }
  }

  lemma RoundingNonNegative(c: int, p: nat)
    requires c >= 0 && p >= 1
    ensures HalfEven(c, p) >= 0 && HalfUp(c, p) >= 0
  {
  }

  lemma FixNonNegative(d: Dec)
    requires d.coeff >= 0
    ensures Fix(d).coeff >= 0
  {
    var n := Digits(Abs(d.coeff));
    if n > PRECISION {
      RoundingNonNegative(d.coeff, Pow10(n - PRECISION));
    }
    hide HalfEven, Digits, Pow10;
  }

  lemma RoundedNonNegative(d: Dec, e: nat)
    requires d.coeff > 0
    ensures Money.ToMinorOf(d, e).Ok? ==> Money.ToMinorOf(d, e).value >= 0
  {
    var scaled := Scaleb(d, e);
    FixNonNegative(Dec(d.coeff, d.exp + e));
    hide Fix, HalfUp, Digits, Pow10;
    if scaled.exp >= 0 {
      MulNonNegative(scaled.coeff, Pow10(scaled.exp));
    } else {
      RoundingNonNegative(scaled.coeff, Pow10(-scaled.exp));
    }
  }

  lemma MinorIsNonNegative(table: Money.CurrencyTable, amount: Money.Amount, currency: string)
    requires !Refused(amount)
    ensures MinorOf(table, amount, currency).Some? ==> MinorOf(table, amount, currency).value >= 0
  {
    hide Money.ToMinorOf, Money.ParseInput;
    var d := Money.ParseInput(amount).value;
    if currency in table {
      RoundedNonNegative(d, table[currency]);
    }
  }

  lemma ApartAnyway(table: Money.CurrencyTable, s: State, p: nat, q: nat)
    requires Inv(table, s) && p < |s.procs| && q < |s.procs| && p != q
    ensures Apart(s.procs[p], s.procs[q])
  {
    if p < q {
    } else {
      assert Apart(s.procs[q], s.procs[p]);
    }
  }

  /** A step by one process leaves the others' standing as it was. */
  lemma OthersStandStill(table: Money.CurrencyTable, s: State, t: State, p: nat)
    requires Inv(table, s) && p < |s.procs| == |t.procs| && forall q :: 0 <= q < |s.procs| && q != p ==>
      t.procs[q] == s.procs[q]
    requires t.wallets == s.wallets && t.rows == s.rows
    requires ProcOk(table, t, t.procs[p])
    requires forall q :: 0 <= q < |s.procs| && q != p ==> Apart(t.procs[p], s.procs[q])
    ensures Inv(table, t)
  {
    forall q | 0 <= q < |t.procs| ensures ProcOk(table, t, t.procs[q]) {
      assert q != p ==> ProcOk(table, s, s.procs[q]);
    }
    hide ProcOk;
    forall a, b | 0 <= a < b < |t.procs| ensures Apart(t.procs[a], t.procs[b]) {
      if a == p {
        assert Apart(t.procs[p], s.procs[b]);
      } else if b == p {
        assert Apart(t.procs[p], s.procs[a]);
      } else {
        assert Apart(s.procs[a], s.procs[b]);
      }
    }
  }

  /** What a step that commits nothing makes of its own process. */
  lemma StepIsOk(table: Money.CurrencyTable, s: State, p: nat)
    requires Inv(table, s) && p < |s.procs| && !s.procs[p].pc.Inserted?
    ensures var t := StepOf(table, s, p);
      && t == s.(procs := s.procs[p := t.procs[p]]) && t.procs[p].call == s.procs[p].call
          && ProcOk(table, t, t.procs[p])
      && !(t.procs[p].pc.Done? && t.procs[p].pc.result.Paid? && t != s)
      && (t.procs[p].pc.Inserted? ==> !KeyPending(s.procs, s.procs[p].call.key))
      && (t != s && HoldsLock(t.procs[p], t.procs[p].call.user) ==>
        HoldsLock(s.procs[p], s.procs[p].call.user) || LockFree(s.procs, s.procs[p].call.user))
  {
    hide MinorOf, Refused, FindKey, LockFree, KeyPending;
    var t, call := StepOf(table, s, p), s.procs[p].call;
    FindKeyIsRight(s.rows, call.key);
    assert ProcOk(table, s, s.procs[p]);
    if s.procs[p].pc.Locked? {
      MinorIsNonNegative(table, call.amount, s.wallets[call.user].currency);
    }
  }

  lemma StepKeepsInv(table: Money.CurrencyTable, s: State, p: nat)
    requires Inv(table, s) && p < |s.procs| && !s.procs[p].pc.Inserted?
    ensures Inv(table, StepOf(table, s, p))
  {
    hide StepOf, ProcOk;
    StepIsOk(table, s, p);
    var t := StepOf(table, s, p);
    if t != s {
      forall q | 0 <= q < |s.procs| && q != p ensures Apart(t.procs[p], s.procs[q]) {
        ApartAnyway(table, s, p, q);
      }
      OthersStandStill(table, s, t, p);
    }
  }

  lemma CommitKeepsInv(table: Money.CurrencyTable, s: State, p: nat)
    requires Inv(table, s) && p < |s.procs| && s.procs[p].pc.Inserted?
    ensures Inv(table, StepOf(table, s, p))
  {
    hide MinorOf, Refused, ProcOk, FindKey;
    CommitIs(table, s, p);
    var t := StepOf(table, s, p);
    hide StepOf;
    forall q | 0 <= q < |t.procs| ensures ProcOk(table, t, t.procs[q]) {
      if q == p {
        CommitPays(table, s, p);
      } else {
        CommitKeepsOther(table, s, p, q);
      }
    }
    forall a, b | 0 <= a < b < |t.procs| ensures Apart(t.procs[a], t.procs[b]) {
      InvProc(table, s, a);
      InvProc(table, s, b);
      PaidIdsKnown(table, s, s.procs[a]);
      PaidIdsKnown(table, s, s.procs[b]);
      ApartAnyway(table, s, a, b);
    }
    CommitRowsUnique(s.rows, t.rows[|s.rows|]);
  }

  /** What a commit makes of the state. */
  lemma CommitIs(table: Money.CurrencyTable, s: State, p: nat)
    requires Inv(table, s) && p < |s.procs| && s.procs[p].pc.Inserted?
    ensures var t := StepOf(table, s, p); var call, minor := s.procs[p].call, s.procs[p].pc.minor;
      && t.procs == s.procs[p := s.procs[p].(pc := Done(Paid(|s.rows|)))]
      && t.rows == s.rows + [PaymentRow(call, minor)]
      && call.user < |s.wallets| && Asks(table, s, call, minor)
      && t.wallets == s.wallets[call.user := s.wallets[call.user].(balance := s.wallets[call.user].balance - minor)]
      && FindKey(s.rows, call.key).None? && 0 <= minor <= s.wallets[call.user].balance - s.wallets[call.user].held
  {
    hide MinorOf, FindKey;
    assert ProcOk(table, s, s.procs[p]);
  }

  lemma CommitPays(table: Money.CurrencyTable, s: State, p: nat)
    requires Inv(table, s) && p < |s.procs| && s.procs[p].pc.Inserted?
    ensures ProcOk(table, StepOf(table, s, p), StepOf(table, s, p).procs[p])
  {
    hide MinorOf, FindKey, StepOf;
    CommitIs(table, s, p);
  }

  lemma PaidIdsKnown(table: Money.CurrencyTable, s: State, proc: Proc)
    requires ProcOk(table, s, proc)
    ensures proc.pc.Done? && proc.pc.result.Paid? ==> proc.pc.result.id < |s.rows|
  {
  }

  lemma CommitRowsUnique(rows: seq<Txn>, row: Txn)
    requires KeysUnique(rows) && (row.key.Some? ==> FindKey(rows, row.key.value).None?)
    ensures KeysUnique(rows + [row])
  {
    if row.key.Some? {
      FindKeyIsRight(rows, row.key.value);
    }
  }

  lemma RecordKeepsInv(table: Money.CurrencyTable, s: State, row: Txn)
    requires Inv(table, s) && MayRecord(s, row)
    ensures Inv(table, Recorded(s, row))
  {
    hide MinorOf, Refused, FindKey, KeyPending, LockFree, ProcOk;
    var t := Recorded(s, row);
    CommitRowsUnique(s.rows, row);
    forall q | 0 <= q < |t.procs| ensures ProcOk(table, t, t.procs[q]) {
      InvProc(table, s, q);
      RecordLeaves(s, row, q);
      OtherStands(table, s, t, s.procs[q]);
    }
  }

  lemma RecordLeaves(s: State, row: Txn, q: nat)
    requires MayRecord(s, row) && q < |s.procs|
    ensures var t, proc := Recorded(s, row), s.procs[q];
      && (HoldsLock(proc, proc.call.user) && proc.call.user < |s.wallets| ==>
          t.wallets[proc.call.user] == s.wallets[proc.call.user])
      && (proc.pc.Inserted? && FindKey(s.rows, proc.call.key).None? ==> FindKey(t.rows, proc.call.key).None?)
  {
    assert (s.rows + [row])[..|s.rows|] == s.rows;
    hide FindKey;
    var key := s.procs[q].call.key;
    FindKeyIsRight(s.rows, key);
    FindKeyIsRight(s.rows + [row], key);
  }

  lemma CommitKeepsOther(table: Money.CurrencyTable, s: State, p: nat, q: nat)
    requires Inv(table, s) && p < |s.procs| && s.procs[p].pc.Inserted? && q < |s.procs| && q != p
    ensures ProcOk(table, StepOf(table, s, p), s.procs[q])
  {
    hide MinorOf, Refused, FindKey, StepOf, ProcOk;
    CommitIs(table, s, p);
    InvProc(table, s, q);
    ApartAnyway(table, s, p, q);
    var t := StepOf(table, s, p);
    FindKeyIsRight(s.rows, s.procs[q].call.key);
    FindKeyIsRight(t.rows, s.procs[q].call.key);
    OtherStands(table, s, t, s.procs[q]);
  }

  /** A process keeps its standing when its wallet keeps its currency, and its balance too if it holds
      the lock, and the ledger grows by other keys. */
  lemma OtherStands(table: Money.CurrencyTable, s: State, t: State, proc: Proc)
    requires ProcOk(table, s, proc) && |t.wallets| == |s.wallets| && s.rows <= t.rows
    requires forall u :: 0 <= u < |s.wallets| ==> t.wallets[u].currency == s.wallets[u].currency
    requires HoldsLock(proc, proc.call.user) && proc.call.user < |s.wallets| ==>
      t.wallets[proc.call.user] == s.wallets[proc.call.user]
    requires proc.pc.Inserted? && FindKey(s.rows, proc.call.key).None? ==> FindKey(t.rows, proc.call.key).None?
    ensures ProcOk(table, t, proc)
  {
    hide MinorOf, Refused, FindKey;
  }

  lemma NextKeepsInv(table: Money.CurrencyTable, s: State, event: Event)
    requires Inv(table, s)
    ensures Inv(table, Next(table, s, event))
  {
    hide MinorOf, Refused, StepOf, FindKey, KeyUsed;
    var t := Next(table, s, event);
    if event.Step? {
      if event.p < |s.procs| {
        if s.procs[event.p].pc.Inserted? {
          CommitKeepsInv(table, s, event.p);
        } else {
          StepKeepsInv(table, s, event.p);
        }
      }
    } else if event.Abort? {
      if t != s {
        forall q | 0 <= q < |s.procs| && q != event.p ensures Apart(t.procs[event.p], s.procs[q]) {
        }
        OthersStandStill(table, s, t, event.p);
      }
    } else if event.Record? {
      if MayRecord(s, event.row) {
        RecordKeepsInv(table, s, event.row);
      }
    } else if event.Arrive? {
      forall q | 0 <= q < |t.procs| ensures ProcOk(table, t, t.procs[q]) {
        assert q < |s.procs| ==> ProcOk(table, s, s.procs[q]);
      }
    } else {
      forall q | 0 <= q < |t.procs| ensures ProcOk(table, t, t.procs[q]) {
        assert ProcOk(table, s, s.procs[q]);
        assert s.procs[q].call.user == event.user && HoldsLock(s.procs[q], event.user) ==>
            !LockFree(s.procs, event.user);
      }
    }
  }

  predicate Initial(s: State) {
    WalletsOk(s.wallets) && KeysUnique(s.rows) && s.procs == []
  }

  /** In every interleaving: keys are unique, no wallet falls below what is held, and each answer is
      true of the ledger. */
  lemma {:induction false} RunKeepsInv(table: Money.CurrencyTable, s: State, events: seq<Event>)
    requires Initial(s)
    ensures Inv(table, Run(table, s, events))
  {
    hide Next;
    if events != [] {
      RunKeepsInv(table, s, events[..|events| - 1]);
      NextKeepsInv(table, Run(table, s, events[..|events| - 1]), events[|events| - 1]);
    }
  }

  // ---- Conservation ----------------------------------------------------------------------------------

  /** What a user's completed debits come to. */
  function Debits(rows: seq<Txn>, user: nat): int {
    if rows == [] then 0
    else
      var last := rows[|rows| - 1];
      Debits(rows[..|rows| - 1], user) + if last.user == user && CompletedDebit(last) then last.amount else 0
  }

  function Worth(s: State, user: nat): int
    requires user < |s.wallets|
  {
    s.wallets[user].balance + Debits(s.rows, user)
  }

  /** What credits that took effect brought in. */
  function Credited(table: Money.CurrencyTable, s: State, events: seq<Event>, user: nat): int {
    if events == [] then 0
    else
      var last, before := events[|events| - 1], Run(table, s, events[..|events| - 1]);
      var counts := last.Credit? && last.user == user && user < |before.wallets| && LockFree(before.procs, user);
      Credited(table, s, events[..|events| - 1], user) + if counts then last.amount else 0
  }

  lemma NextConserves(table: Money.CurrencyTable, s: State, event: Event, user: nat)
    requires user < |s.wallets|
    ensures |Next(table, s, event).wallets| == |s.wallets|
    ensures Worth(Next(table, s, event), user) == Worth(s, user)
      + if event.Credit? && event.user == user && LockFree(s.procs, user) then event.amount else 0
  {
    hide MinorOf, Refused, FindKey, LockFree, KeyPending;
    var t := Next(table, s, event);
    if t.rows != s.rows {
      assert t.rows[..|s.rows|] == s.rows;
    }
  }

  /** Balance plus completed debits stays what it was, but for credits, over any interleaving of any
      calls, failures and crashes. */
  lemma {:induction false} RunConserves(table: Money.CurrencyTable, s: State, events: seq<Event>, user: nat)
    requires user < |s.wallets|
    ensures |Run(table, s, events).wallets| == |s.wallets|
    ensures Worth(Run(table, s, events), user) == Worth(s, user) + Credited(table, s, events, user)
  {
    hide Next, Worth, LockFree;
    if events != [] {
      RunConserves(table, s, events[..|events| - 1], user);
      NextConserves(table, Run(table, s, events[..|events| - 1]), events[|events| - 1], user);
    }
  }

  // ---- Each key debits at most once --------------------------------------------------------------------

  function PaidCalls(procs: seq<Proc>): nat {
    if procs == [] then 0
    else
      var last := procs[|procs| - 1];
      PaidCalls(procs[..|procs| - 1]) + if last.pc.Done? && last.pc.result.Paid? then 1 else 0
  }

  /** Only a commit writes, and it answers Paid: any other step of a call, a failure and a crash leave
      wallets and ledger as they were. */
  lemma OnlyPaidWrites(table: Money.CurrencyTable, s: State, p: nat)
    requires p < |s.procs|
    ensures var t := StepOf(table, s, p);
      (t.wallets == s.wallets && t.rows == s.rows && (t.procs[p].pc.Done? && t.procs[p].pc.result.Paid? ==> t == s))
      || (t.procs[p].pc == Done(Paid(|s.rows|)) && s.procs[p].pc.Inserted? && |t.rows| == |s.rows| + 1)
    ensures Next(table, s, Abort(p)).wallets == s.wallets && Next(table, s, Abort(p)).rows == s.rows
  {
    hide MinorOf, Refused, FindKey, LockFree, KeyPending;
  }

  lemma {:induction false} PaidCallsAt(procs: seq<Proc>, p: nat, proc: Proc)
    requires p < |procs| && !(procs[p].pc.Done? && procs[p].pc.result.Paid?)
    ensures PaidCalls(procs[p := proc]) == PaidCalls(procs) + if proc.pc.Done? && proc.pc.result.Paid? then 1 else 0
  {
    var last := |procs| - 1;
    if p < last {
      PaidCallsAt(procs[..last], p, proc);
      assert procs[p := proc][..last] == procs[..last][p := proc];
    } else {
      assert procs[p := proc][..last] == procs[..last];
    }
  }

  /** How many rows of other parts of the platform took effect. */
  function RecordedRows(table: Money.CurrencyTable, s: State, events: seq<Event>): nat {
    if events == [] then 0
    else
      var last, before := events[|events| - 1], Run(table, s, events[..|events| - 1]);
      RecordedRows(table, s, events[..|events| - 1]) + if last.Record? && MayRecord(before, last.row) then 1 else 0
  }

  lemma NextCountsPaid(table: Money.CurrencyTable, s: State, event: Event)
    ensures |Next(table, s, event).rows| - PaidCalls(Next(table, s, event).procs)
      == |s.rows| - PaidCalls(s.procs) + if event.Record? && MayRecord(s, event.row) then 1 else 0
  {
    var t := Next(table, s, event);
    if event.Step? && event.p < |s.procs| {
      StepIsAMove(table, s, event.p);
      if !s.procs[event.p].pc.Done? {
        PaidCallsAt(s.procs, event.p, t.procs[event.p]);
      }
    } else if event.Abort? && event.p < |s.procs| && !s.procs[event.p].pc.Done? {
      PaidCallsAt(s.procs, event.p, t.procs[event.p]);
    } else if event.Arrive? {
      assert t.procs[..|s.procs|] == s.procs;
    }
  }

  lemma StepIsAMove(table: Money.CurrencyTable, s: State, p: nat)
    requires p < |s.procs|
    ensures var t := StepOf(table, s, p);
      && |t.procs| == |s.procs| && t.procs == s.procs[p := t.procs[p]] && (s.procs[p].pc.Done? ==> t == s)
    ensures var t := StepOf(table, s, p);
      var pays := t.procs[p].pc.Done? && t.procs[p].pc.result.Paid? && !s.procs[p].pc.Done?;
      |t.rows| == |s.rows| + if pays then 1 else 0
  {
    hide MinorOf, Refused, FindKey, LockFree, KeyPending;
  }

  /** Beside the rows of other parts of the platform there is one new row per call answered Paid, and no
      other. */
  lemma {:induction false} OneDebitPerPaidCall(table: Money.CurrencyTable, s: State, events: seq<Event>)
    ensures |Run(table, s, events).rows|
      == |s.rows| + PaidCalls(Run(table, s, events).procs) - PaidCalls(s.procs) + RecordedRows(table, s, events)
  {
    hide Next, MayRecord;
    if events != [] {
      OneDebitPerPaidCall(table, s, events[..|events| - 1]);
      NextCountsPaid(table, Run(table, s, events[..|events| - 1]), events[|events| - 1]);
    }
  }

  /** All calls with one key that succeed name the same debit, and at most one of them made it. */
  lemma KeyDebitsOnce(table: Money.CurrencyTable, s: State, events: seq<Event>, p: nat, q: nat)
    requires Initial(s)
    requires var t := Run(table, s, events);
      p < |t.procs| && q < |t.procs| && p != q && t.procs[p].call.key == t.procs[q].call.key
    requires var t := Run(table, s, events); t.procs[p].pc.Done? && t.procs[q].pc.Done?
    ensures var t := Run(table, s, events);
      var a, b := t.procs[p].pc.result, t.procs[q].pc.result;
      && (!a.Failed? && !b.Failed? ==> a.id == b.id < |t.rows| && t.rows[a.id].key == Text.Some(t.procs[p].call.key))
      && !(a.Paid? && b.Paid?)
  {
    RunKeepsInv(table, s, events);
    var t := Run(table, s, events);
    assert ProcOk(table, t, t.procs[p]) && ProcOk(table, t, t.procs[q]);
    ApartAnyway(table, t, p, q);
  }

  /** A paid call was debited exactly what it asked for, from its own wallet, under its own key. */
  lemma PaidDebitsTheAmount(table: Money.CurrencyTable, s: State, events: seq<Event>, p: nat)
    requires Initial(s) && p < |Run(table, s, events).procs|
    requires var pc := Run(table, s, events).procs[p].pc; pc.Done? && pc.result.Paid?
    ensures var t := Run(table, s, events); var call, id := t.procs[p].call, t.procs[p].pc.result.id;
      && id < |t.rows| && call.user < |t.wallets|
      && t.rows[id] == Txn(call.user, t.rows[id].amount, Text.Some(call.key), DebitTxn, TxnCompleted)
      && IsAmount(table, call.amount, t.wallets[call.user].currency, t.rows[id].amount)
  {
    hide MinorOf, Refused, FindKey, IsAmount;
    RunKeepsInv(table, s, events);
    var t := Run(table, s, events);
    assert ProcOk(table, t, t.procs[p]);
    MinorIsAmount(table, t.procs[p].call.amount, t.wallets[t.procs[p].call.user].currency);
  }

  /** The minor units an amount comes to in a currency of the table: the nearest whole number, ties away from
      zero, but for an amount of more than 28 digits that the context rounds across a half. */
  predicate IsAmount(table: Money.CurrencyTable, amount: Money.Amount, currency: string, minor: int) {
    var d := Money.ParseInput(amount);
    && d.Ok? && currency in table && Money.ToMinorOf(d.value, table[currency]) == Ok(minor)
    && (Money.IsNearestMinor(d.value, table[currency], minor) <==> !MoneyRounding.CrossesHalf(d.value, table[currency]))
  }

  lemma MinorIsAmount(table: Money.CurrencyTable, amount: Money.Amount, currency: string)
    ensures var minor := MinorOf(table, amount, currency);
      minor.Some? ==> IsAmount(table, amount, currency, minor.value)
  {
    hide Money.ToMinorOf, Money.ParseInput, Money.IsNearestMinor, MoneyRounding.CrossesHalf;
    var d := Money.ParseInput(amount);
    if d.Ok? && currency in table && Money.ToMinorOf(d.value, table[currency]).Ok? {
      MoneyRounding.NearestExactly(d.value, table[currency]);
    }
  }

  /** Past the check for an existing key, and not answered from it. */
  predicate PastTheCheck(pc: Pc) {
    !pc.Arrived? && !(pc.Done? && pc.result.Duplicate?)
  }

  lemma NextKeepsCall(table: Money.CurrencyTable, s: State, event: Event, p: nat)
    requires p < |s.procs|
    ensures var t := Next(table, s, event);
      && p < |t.procs| && t.procs[p].call == s.procs[p].call
      && (s.procs[p].pc.Done? ==> t.procs[p] == s.procs[p])
      && (PastTheCheck(s.procs[p].pc) ==> PastTheCheck(t.procs[p].pc))
      && s.rows <= t.rows && |t.wallets| == |s.wallets|
      && forall u :: 0 <= u < |s.wallets| ==> t.wallets[u].currency == s.wallets[u].currency
  {
    hide MinorOf, Refused, FindKey, LockFree, KeyPending, KeyUsed;
  }

  lemma {:induction false} RunKeepsCall(table: Money.CurrencyTable, s: State, events: seq<Event>, p: nat)
    requires p < |s.procs|
    ensures var t := Run(table, s, events);
      && p < |t.procs| && t.procs[p].call == s.procs[p].call
      && (s.procs[p].pc.Done? ==> t.procs[p] == s.procs[p])
      && (PastTheCheck(s.procs[p].pc) ==> PastTheCheck(t.procs[p].pc))
      && s.rows <= t.rows && |t.wallets| == |s.wallets|
      && forall u :: 0 <= u < |s.wallets| ==> t.wallets[u].currency == s.wallets[u].currency
  {
    hide Next, PastTheCheck;
    if events != [] {
      RunKeepsCall(table, s, events[..|events| - 1], p);
      NextKeepsCall(table, Run(table, s, events[..|events| - 1]), events[|events| - 1], p);
    }
  }

  /** The row already under the call's key, if there is one, is what the call asks for. */
  predicate NewOrOwn(table: Money.CurrencyTable, s: State, call: Call) {
    var existing := FindKey(s.rows, call.key);
    existing.None? || OwnDebit(table, s, call, existing.value)
  }

  /** A success names a debit of the caller's own user and amount exactly when, as the call looked, its
      key was new or the row under it was that: a known key is answered as a success without asking
      whose debit it is. */
  lemma SuccessIsOwnExactly(table: Money.CurrencyTable, s: State, before: seq<Event>, p: nat, after: seq<Event>)
    requires Initial(s)
    requires var r := Run(table, s, before); p < |r.procs| && r.procs[p].pc.Arrived? && !Refused(r.procs[p].call.amount)
    requires var t := Run(table, Next(table, Run(table, s, before), Step(p)), after);
      p < |t.procs| && t.procs[p].pc.Done? && !t.procs[p].pc.result.Failed?
    ensures var r := Run(table, s, before); var t := Run(table, Next(table, r, Step(p)), after);
      OwnDebit(table, t, t.procs[p].call, t.procs[p].pc.result.id) <==> NewOrOwn(table, r, r.procs[p].call)
  {
    hide MinorOf, Refused, Inv, ProcOk, Run;
    var r := Run(table, s, before);
    RunKeepsInv(table, s, before);
    CheckLooksOnce(table, r, p);
    var mid := Next(table, r, Step(p));
    NextKeepsInv(table, r, Step(p));
    RunKeepsInvFrom(table, mid, after);
    RunKeepsCall(table, mid, after, p);
    var t := Run(table, mid, after);
    InvProc(table, t, p);
    var existing := FindKey(r.rows, r.procs[p].call.key);
    if existing.Some? {
      FindKeyIsRight(r.rows, r.procs[p].call.key);
    } else {
      PaidIsOwn(table, t, t.procs[p]);
    }
  }

  /** A run that shows it: the key of a row of another user is answered as a success, and nothing is taken
      from the caller. */
  lemma AnothersKeyIsASuccess(table: Money.CurrencyTable, s: State, call: Call, id: nat)
    requires Initial(s) && !Refused(call.amount) && call.key != "" && FindKey(s.rows, call.key) == Text.Some(id)
    requires id < |s.rows| && s.rows[id].user != call.user
    ensures var t := Run(table, s, [Arrive(call, ""), Step(0)]);
      && |t.procs| == 1 && t.procs[0] == Proc(call, Done(Duplicate(id)))
      && !OwnDebit(table, t, call, id) && t.wallets == s.wallets && t.rows == s.rows
  {
    hide MinorOf, Refused, FindKey;
    var events := [Arrive(call, ""), Step(0)];
    assert events[..1] == [events[0]] && [events[0]][..0] == [];
    assert Run(table, s, []) == s;
    var mid := Run(table, s, events[..1]);
    assert mid == s.(procs := [Proc(call, Arrived)]);
    assert Run(table, s, events) == Next(table, mid, Step(0));
  }

  lemma PaidIsOwn(table: Money.CurrencyTable, s: State, proc: Proc)
    requires ProcOk(table, s, proc) && proc.pc.Done? && proc.pc.result.Paid?
    ensures OwnDebit(table, s, proc.call, proc.pc.result.id)
  {
  }

  lemma InvProc(table: Money.CurrencyTable, s: State, p: nat)
    requires Inv(table, s) && p < |s.procs|
    ensures ProcOk(table, s, s.procs[p])
  {
  }

  lemma CheckLooksOnce(table: Money.CurrencyTable, s: State, p: nat)
    requires p < |s.procs| && s.procs[p].pc.Arrived? && !Refused(s.procs[p].call.amount)
    ensures var t := Next(table, s, Step(p)); var existing := FindKey(s.rows, s.procs[p].call.key);
      && p < |t.procs| && t.procs[p].call == s.procs[p].call && t.rows == s.rows && t.wallets == s.wallets
      && t.procs[p].pc == if existing.Some? then Done(Duplicate(existing.value)) else Wanting
  {
    hide MinorOf, FindKey;
  }

  lemma {:induction false} RunKeepsInvFrom(table: Money.CurrencyTable, s: State, events: seq<Event>)
    requires Inv(table, s)
    ensures Inv(table, Run(table, s, events))
  {
    hide Next, Inv;
    if events != [] {
      RunKeepsInvFrom(table, s, events[..|events| - 1]);
      NextKeepsInv(table, Run(table, s, events[..|events| - 1]), events[|events| - 1]);
    }
  }

  /** No debit, and nothing else that happens, takes a balance below what is held. */
  lemma HeldIsKept(table: Money.CurrencyTable, s: State, events: seq<Event>, user: nat)
    requires Initial(s) && user < |Run(table, s, events).wallets|
    ensures var wallet := Run(table, s, events).wallets[user]; 0 <= wallet.held <= wallet.balance
  {
    RunKeepsInv(table, s, events);
  }

  /** `p` cannot take its next step because of `q`: it has the wallet row `p` wants, or an uncommitted row
      under the key `p` inserts. */
  ghost predicate WaitsFor(s: State, p: nat, q: nat) {
    && p < |s.procs| && q < |s.procs|
    && var call := s.procs[p].call;
       || (s.procs[p].pc.Wanting? && call.user < |s.wallets| && HoldsLock(s.procs[q], call.user))
       || (s.procs[p].pc.Debited? && FindKey(s.rows, call.key).None? && s.procs[q].pc.Inserted?
           && s.procs[q].call.key == call.key)
  }

  predicate CanMove(table: Money.CurrencyTable, s: State, p: nat) {
    p < |s.procs| && StepOf(table, s, p).procs[p] != s.procs[p]
  }

  ghost predicate Waiting(s: State, p: nat) {
    exists q :: WaitsFor(s, p, q)
  }

  /** A call that is not done can take a step exactly when it waits for nobody. */
  lemma MovesUnlessWaiting(table: Money.CurrencyTable, s: State, p: nat)
    requires Inv(table, s) && p < |s.procs| && !s.procs[p].pc.Done?
    ensures CanMove(table, s, p) <==> !Waiting(s, p)
  {
    hide MinorOf, Refused, FindKey;
    InvProc(table, s, p);
    var call := s.procs[p].call;
    if s.procs[p].pc.Wanting? && call.user < |s.wallets| && !LockFree(s.procs, call.user) {
      var q :| 0 <= q < |s.procs| && HoldsLock(s.procs[q], call.user);
      assert WaitsFor(s, p, q);
    }
    if s.procs[p].pc.Debited? && FindKey(s.rows, call.key).None? && KeyPending(s.procs, call.key) {
      var q :| 0 <= q < |s.procs| && s.procs[q].pc.Inserted? && s.procs[q].call.key == call.key;
      assert WaitsFor(s, p, q);
    }
  }

  /** Wallet row before key: this is how far along that order a call is. */
  function Depth(proc: Proc): nat {
    if proc.pc.Inserted? then 2 else if proc.pc.Locked? || proc.pc.Debited? then 1 else 0
  }

  /** Waiting never ends in a deadlock: the waits that hold a call up lead, through at most one other, to a
      call that can take a step. */
  lemma {:induction false} SomebodyCanMove(table: Money.CurrencyTable, s: State, p: nat) returns (chain: seq<nat>)
    requires Inv(table, s) && p < |s.procs| && !s.procs[p].pc.Done?
    ensures chain != [] && chain[0] == p && |chain| <= 3 - Depth(s.procs[p])
    ensures forall i :: 0 <= i < |chain| - 1 ==> WaitsFor(s, chain[i], chain[i + 1])
    ensures CanMove(table, s, chain[|chain| - 1])
    decreases 2 - Depth(s.procs[p])
  {
    hide Inv, CanMove, FindKey;
    MovesUnlessWaiting(table, s, p);
    chain := [p];
    if Waiting(s, p) {
      var q :| WaitsFor(s, p, q);
      var rest := SomebodyCanMove(table, s, q);
      chain := [p] + rest;
    }
  }

  // ---- One call on its own -------------------------------------------------------------------------------

  /** The tables a call works on. */
  class Ledger {
    const table: Money.CurrencyTable
    var wallets: seq<Wallet>
    var rows: seq<Txn>

    constructor (table: Money.CurrencyTable, wallets: seq<Wallet>, rows: seq<Txn>)
      ensures this.table == table && this.wallets == wallets && this.rows == rows
    {
      this.table, this.wallets, this.rows := table, wallets, rows;
    }

    method FindTransaction(key: string) returns (found: Option<nat>)
      requires KeysUnique(rows)
      ensures found == FindKey(rows, key)
    {
      FindKeyIsRight(rows, key);
      var i := 0;
      while i < |rows|
        invariant 0 <= i <= |rows| && forall j :: 0 <= j < i ==> rows[j].key != Text.Some(key)
      {
        if rows[i].key == Text.Some(key) {
          return Text.Some(i);
        }
        i := i + 1;
      }
      found := Text.None;
    }

    /** wallet_payment when nothing else runs: exactly the steps of the process above. A failure
        changes nothing. */
    method WalletPayment(request: Call, newKey: string) returns (result: Result)
      requires KeysUnique(rows) && WalletsOk(wallets)
      requires request.key == "" ==> newKey != "" && FindKey(rows, newKey).None?
      modifies this
      ensures State(wallets, rows, [Proc(Keyed(request, newKey), Done(result))])
        == Alone(table, State(old(wallets), old(rows), [Proc(Keyed(request, newKey), Arrived)]), 5)
      ensures KeysUnique(rows) && WalletsOk(wallets)
      ensures !result.Paid? ==> wallets == old(wallets) && rows == old(rows)
      ensures result.Paid? ==>
        TookPayment(table, old(wallets), old(rows), wallets, rows, Keyed(request, newKey), result.id)
    {
      var call := if request.key == "" then request.(key := newKey) else request;
      hide Inv, Alone, FindKey, MinorOf, Refused, KeysUnique, WalletsOk, IsAmount;
      AloneKeepsInv(table, State(wallets, rows, [Proc(call, Arrived)]));
      AloneEnds(table, wallets, rows, call);
      if Refused(call.amount) {
        return Failed;
      }
      var existing := FindTransaction(call.key);
      if existing.Some? {
        return Duplicate(existing.value);
      }
      if call.user >= |wallets| {
        return Failed;
      }
      var wallet := wallets[call.user];
      var minor := MinorOf(table, call.amount, wallet.currency);
      if minor.None? || wallet.balance - wallet.held < minor.value {
        return Failed;
      }
      wallets := wallets[call.user := wallet.(balance := wallet.balance - minor.value)];
      rows := rows + [PaymentRow(call, minor.value)];
      MinorIsAmount(table, call.amount, wallet.currency);
      result := Paid(|rows| - 1);
    }
  }

  /** A payment was taken: one completed debit of the call's user and key, of what its amount comes to, and as
      much less in the wallet; everything else is as it was. */
  predicate TookPayment(table: Money.CurrencyTable, wallets: seq<Wallet>, rows: seq<Txn>,
      after: seq<Wallet>, ledger: seq<Txn>, call: Call, id: nat) {
    && id == |rows| && |ledger| == |rows| + 1 && ledger[..id] == rows && call.user < |wallets|
    && ledger[id] == Txn(call.user, ledger[id].amount, Text.Some(call.key), DebitTxn, TxnCompleted)
    && IsAmount(table, call.amount, wallets[call.user].currency, ledger[id].amount)
    && ledger[id].amount <= wallets[call.user].balance - wallets[call.user].held
    && after == TakenFrom(wallets, call.user, ledger[id].amount)
  }

  function TakenFrom(wallets: seq<Wallet>, user: nat, amount: int): seq<Wallet>
    requires user < |wallets|
  {
    wallets[user := Wallet(wallets[user].balance - amount, wallets[user].held, wallets[user].currency)]
  }

  /** Alone, a payment of a positive amount of at most 28 digits under a new key, from a known wallet in a known
      currency, is made exactly when that many minor units may be spent, and then takes exactly that. */
  lemma PaidIfItCanBe(table: Money.CurrencyTable, wallets: seq<Wallet>, rows: seq<Txn>, call: Call, d: Dec, minor: int)
    requires Money.ParseInput(call.amount) == Ok(d) && 0 < d.coeff < Money.Limit()
    requires (forall i :: 0 <= i < |rows| ==> rows[i].key != Text.Some(call.key)) && call.user < |wallets|
    requires wallets[call.user].currency in table && minor < Money.Limit()
    requires Money.IsNearestMinor(d, table[wallets[call.user].currency], minor)
    ensures var wallet, after := wallets[call.user], Alone(table, State(wallets, rows, [Proc(call, Arrived)]), 5);
      && |after.procs| == 1
      && (wallet.balance - wallet.held >= minor ==>
          && after.procs[0] == Proc(call, Done(Paid(|rows|)))
          && after.rows == rows + [Txn(call.user, minor, Text.Some(call.key), DebitTxn, TxnCompleted)]
          && after.wallets == TakenFrom(wallets, call.user, minor))
      && (wallet.balance - wallet.held < minor ==>
          after == State(wallets, rows, [Proc(call, Done(Failed))]))
  {
    hide Money.ToMinorOf, Money.ParseInput, Money.IsNearestMinor, Money.Limit, MinorOf, Refused, Alone, FindKey;
    AloneEnds(table, wallets, rows, call);
    FindKeyIsRight(rows, call.key);
    MinorIsExactly(table, call.amount, wallets[call.user].currency, d, minor);
  }

  lemma MinorIsExactly(table: Money.CurrencyTable, amount: Money.Amount, currency: string, d: Dec, minor: int)
    requires Money.ParseInput(amount) == Ok(d) && 0 < d.coeff < Money.Limit() && minor < Money.Limit()
    requires currency in table && Money.IsNearestMinor(d, table[currency], minor)
    ensures !Refused(amount) && MinorOf(table, amount, currency) == Text.Some(minor)
  {
    hide Money.ToMinorOf, Money.ParseInput, Money.Limit;
    NearestIsNonNegative(d, table[currency], minor);
    Money.ToMinorIsNearest(d, table[currency], minor);
  }

  lemma NearestIsNonNegative(d: Dec, e: nat, minor: int)
    requires d.coeff > 0 && Money.IsNearestMinor(d, e, minor)
    ensures minor >= 0
  {
    hide Pow10;
    if d.exp + e >= 0 {
      MulNonNegative(d.coeff, Pow10(d.exp + e));
    } else if minor < 0 {
      MulStep(minor, 0, Pow10(-(d.exp + e)));
    }
  }

  /** Alone, a payment fails and changes nothing if its amount is no number or not positive, its wallet is not
      known or its currency not in the table; and if its key is known it is answered with the row under it. */
  lemma FailsIfItCannotBe(table: Money.CurrencyTable, wallets: seq<Wallet>, rows: seq<Txn>, call: Call)
    ensures var after := Alone(table, State(wallets, rows, [Proc(call, Arrived)]), 5);
      var d := Money.ParseInput(call.amount);
      && |after.procs| == 1
      && (d.Err? || d.value.coeff <= 0 ==> after == State(wallets, rows, [Proc(call, Done(Failed))]))
      && (d.Ok? && d.value.coeff > 0 && (exists i :: 0 <= i < |rows| && rows[i].key == Text.Some(call.key)) ==>
          && after.wallets == wallets && after.rows == rows
          && after.procs[0].pc.Done? && after.procs[0].pc.result.Duplicate?
          && after.procs[0].pc.result.id < |rows| && rows[after.procs[0].pc.result.id].key == Text.Some(call.key))
      && ((forall i :: 0 <= i < |rows| ==> rows[i].key != Text.Some(call.key))
          && (call.user >= |wallets| || wallets[call.user].currency !in table) ==>
          after == State(wallets, rows, [Proc(call, Done(Failed))]))
  {
    AloneEnds(table, wallets, rows, call);
    FindKeyIsRight(rows, call.key);
    hide Money.ToMinorOf, Money.ParseInput, Alone, FindKey;
  }

  /** n steps of a process that runs alone. */
  function Alone(table: Money.CurrencyTable, s: State, n: nat): State
    requires |s.procs| == 1
    decreases n
  {
    if n == 0 then s
    else
      StepIsAMove(table, s, 0);
      Alone(table, StepOf(table, s, 0), n - 1)
  }

  /** How a call ends that has the tables to itself. */
  function Ending(table: Money.CurrencyTable, wallets: seq<Wallet>, rows: seq<Txn>, call: Call): State {
    var existing := FindKey(rows, call.key);
    if Refused(call.amount) then State(wallets, rows, [Proc(call, Done(Failed))])
    else if existing.Some? then State(wallets, rows, [Proc(call, Done(Duplicate(existing.value)))])
    else if call.user >= |wallets| then State(wallets, rows, [Proc(call, Done(Failed))])
    else
      var wallet := wallets[call.user];
      var minor := MinorOf(table, call.amount, wallet.currency);
      if minor.None? || wallet.balance - wallet.held < minor.value then State(wallets, rows, [Proc(call, Done(Failed))])
      else
        State(wallets[call.user := wallet.(balance := wallet.balance - minor.value)],
              rows + [PaymentRow(call, minor.value)], [Proc(call, Done(Paid(|rows|)))])
  }

  lemma {:induction false} DoneStays(table: Money.CurrencyTable, s: State, n: nat)
    requires |s.procs| == 1 && s.procs[0].pc.Done?
    ensures Alone(table, s, n) == s
    decreases n
  {
    if n > 0 {
      DoneStays(table, s, n - 1);
    }
  }

  lemma AloneEnds(table: Money.CurrencyTable, wallets: seq<Wallet>, rows: seq<Txn>, call: Call)
    ensures Alone(table, State(wallets, rows, [Proc(call, Arrived)]), 5) == Ending(table, wallets, rows, call)
  {
    hide FindKey, MinorOf, Refused;
    var s0 := State(wallets, rows, [Proc(call, Arrived)]);
    var s1 := StepOf(table, s0, 0);
    DoneOrOn(table, s0, 5);
    if !s1.procs[0].pc.Done? {
      assert s1.procs == [Proc(call, Wanting)];
      var s2 := StepOf(table, s1, 0);
      DoneOrOn(table, s1, 4);
      if !s2.procs[0].pc.Done? {
        assert LockFree(s1.procs, call.user);
        assert s2.procs == [Proc(call, Locked)];
        LockedEnds(table, s2);
      }
    }
  }

  lemma DoneOrOn(table: Money.CurrencyTable, s: State, n: nat)
    requires |s.procs| == 1 && n > 0
    ensures |StepOf(table, s, 0).procs| == 1
    ensures var t := StepOf(table, s, 0);
      Alone(table, s, n) == if t.procs[0].pc.Done? then t else Alone(table, t, n - 1)
  {
    hide StepOf;
    StepIsAMove(table, s, 0);
    if StepOf(table, s, 0).procs[0].pc.Done? {
      DoneStays(table, StepOf(table, s, 0), n - 1);
    }
  }

  lemma LockedEnds(table: Money.CurrencyTable, s: State)
    requires |s.procs| == 1 && s.procs[0].pc.Locked? && s.procs[0].call.user < |s.wallets|
    requires FindKey(s.rows, s.procs[0].call.key).None? && !Refused(s.procs[0].call.amount)
    ensures Alone(table, s, 3) == Ending(table, s.wallets, s.rows, s.procs[0].call)
  {
    hide FindKey, MinorOf, Refused;
    var call := s.procs[0].call;
    DoneOrOn(table, s, 3);
    var s1 := StepOf(table, s, 0);
    if s1.procs[0].pc.Debited? {
      DoneOrOn(table, s1, 2);
      assert !KeyPending(s1.procs, call.key);
      var s2 := StepOf(table, s1, 0);
      DoneOrOn(table, s2, 1);
    }
  }

  lemma AloneKeepsInv(table: Money.CurrencyTable, s: State)
    requires |s.procs| == 1 && s.procs[0].pc.Arrived? && KeysUnique(s.rows) && WalletsOk(s.wallets)
    ensures Inv(table, Alone(table, s, 5))
  {
    InvAfter(table, s, 5);
  }

  lemma {:induction false} InvAfter(table: Money.CurrencyTable, s: State, n: nat)
    requires |s.procs| == 1 && Inv(table, s)
    ensures Inv(table, Alone(table, s, n))
    decreases n
  {
    hide StepOf;
    if n > 0 {
      StepIsAMove(table, s, 0);
      NextKeepsInv(table, s, Step(0));
      InvAfter(table, StepOf(table, s, 0), n - 1);
    }
  }
}
