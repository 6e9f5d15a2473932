/** Moving Decimal money columns to integer minor units, in batches, with a second read to verify.

    The table is an object whose rows the two passes rewrite; each row carries its originals, its
    minor-unit columns and the digits of its currency. */
module MoneyMigration {
  import opened Decimals
  import Money
  import Text = DecimalText

  type Option<+T> = Text.Option<T>

  /** What a Decimal column can hold: at most 28 significant digits (the columns have ten). */
  type Stored = d: Dec | Abs(d.coeff) < Money.Limit() witness Dec(0, 0)

  /** What a 64-bit integer column can hold. */
  type BigInt = m: int | -0x8000_0000_0000_0000 <= m < 0x8000_0000_0000_0000

  datatype Row = Row(pk: nat, digits: nat, original: seq<Option<Stored>>, minor: seq<Option<int>>)

  datatype MigrationError =
    | NotWhole(pk: nat, field: nat)
    | Differs(count: nat)

  type Outcome = Result<(), MigrationError>

  // ---- One value ---------------------------------------------------------------------------------

  predicate Integral(d: Dec) {
    d.exp >= 0 || Abs(d.coeff) % Pow10(-d.exp) == 0
  }

  function Truncated(d: Dec): int {
    if d.exp >= 0 then d.coeff * Pow10(d.exp)
    else if d.coeff < 0 then -(Abs(d.coeff) / Pow10(-d.exp)) else d.coeff / Pow10(-d.exp)
  }

  /** Scale a stored value exactly, or refuse. */
  function ExactMinor(value: Option<Dec>, digits: nat): Result<Option<int>, ()> {
    if value.None? then Ok(Text.None)
    else
      var scaled := Scaleb(value.value, digits);
      if Integral(scaled) then Ok(Text.Some(Truncated(scaled))) else Err(())
  }

  /** The check of the second pass: minor == original * 10^digits, computed in the context. */
  predicate Agrees(original: Option<Dec>, minor: Option<int>, digits: nat) {
    if original.None? && minor.None? then true
    else
      && original.Some? && minor.Some?
      && SameValue(Dec(minor.value, 0), Fix(Dec(original.value.coeff * Pow10(digits), original.value.exp)))
  }

  function Restored(minor: Option<int>, digits: nat): Option<Dec> {
    if minor.None? then Text.None else Text.Some(Scaleb(Dec(minor.value, 0), 0 - digits))
  }

  // ---- What exactness means, without the context ---------------------------------------------------

  /** Is the value a whole number of minor units? */
  predicate Whole(value: Option<Dec>, digits: nat) {
    value.Some? && value.value.exp + digits < 0 ==> Abs(value.value.coeff) % Pow10(-(value.value.exp + digits)) == 0
  }

  /** minor == value * 10^digits as numbers, with None for None. */
  predicate IsExactly(value: Option<Dec>, digits: nat, minor: Option<int>) {
    if value.None? then minor.None?
    else
      && minor.Some?
      && var e := value.value.exp + digits;
         if e >= 0 then minor.value == value.value.coeff * Pow10(e)
         else minor.value * Pow10(-e) == value.value.coeff
  }

  /** For stored values, conversion succeeds exactly on whole numbers of minor units, and is exact. */
  lemma ExactMinorIsExact(value: Option<Stored>, digits: nat)
    ensures ExactMinor(value, digits).Ok? <==> Whole(value, digits)
    ensures ExactMinor(value, digits).Ok? ==> IsExactly(value, digits, ExactMinor(value, digits).value)
  {
    if value.Some? {
      var d := value.value;
      Money.FixCases(Dec(d.coeff, d.exp + digits));
      if d.exp + digits < 0 && Whole(value, digits) {
        ExactDivision(Abs(d.coeff), Pow10(-(d.exp + digits)));
        if d.coeff < 0 {
          assert (-(Abs(d.coeff) / Pow10(-(d.exp + digits)))) * Pow10(-(d.exp + digits)) == d.coeff;
        }
      }
    }
  }

  lemma ExactDivision(c: nat, p: nat)
    requires p >= 1 && c % p == 0
    ensures c / p * p == c
  {
    assert c == p * (c / p) + c % p;
  }

  /** The second pass passes on every exact value of a stored column. */
  lemma ExactAgrees(value: Option<Stored>, digits: nat, minor: Option<int>)
    requires IsExactly(value, digits, minor)
    ensures Agrees(value, minor, digits)
  {
    if value.Some? {
      var d := value.value;
      FixedProduct(d, digits);
      var product := Fix(Dec(d.coeff * Pow10(digits), d.exp));
      ExactValue(d, digits, minor.value);
      SameValueTransitive(Dec(minor.value, 0), Dec(d.coeff, d.exp + digits), product);
    }
  }

  /** And only on those: for stored values the second pass compares exactly. */
  lemma AgreesExactly(value: Option<Stored>, digits: nat, minor: Option<int>)
    ensures Agrees(value, minor, digits) <==> IsExactly(value, digits, minor)
  {
    if IsExactly(value, digits, minor) {
      ExactAgrees(value, digits, minor);
    }
    if Agrees(value, minor, digits) && value.Some? {
      var d := value.value;
      FixedProduct(d, digits);
      var product := Fix(Dec(d.coeff * Pow10(digits), d.exp));
      SameValueSymmetric(Dec(d.coeff, d.exp + digits), product);
      SameValueTransitive(Dec(minor.value, 0), product, Dec(d.coeff, d.exp + digits));
      ValueIsExact(d, digits, minor.value);
    }
  }

  lemma SameValueSymmetric(a: Dec, b: Dec)
    requires SameValue(a, b)
    ensures SameValue(b, a)
  {
  }

  lemma ValueIsExact(d: Dec, digits: nat, m: int)
    requires SameValue(Dec(m, 0), Dec(d.coeff, d.exp + digits))
    ensures IsExactly(Text.Some(d), digits, Text.Some(m))
  {
    var e := d.exp + digits;
    assert Pow10(0) == 1;
    if e >= 0 {
      assert Rescaled(Dec(m, 0), 0) == m;
    } else {
      assert Rescaled(Dec(d.coeff, e), e) == d.coeff;
    }
  }

  /** The product of a stored value and 10^digits has trailing zeros where it has too many digits,
      so the context loses nothing. */
  lemma FixedProduct(d: Stored, digits: nat)
    ensures SameValue(Dec(d.coeff, d.exp + digits), Fix(Dec(d.coeff * Pow10(digits), d.exp)))
  {
    hide Fix, HalfEven, SameValue;
    var c := d.coeff * Pow10(digits);
    if Digits(Abs(c)) <= PRECISION {
      hide Digits;
      ShortProduct(d, digits);
    } else {
      var k := Digits(Abs(c)) - PRECISION;
      hide Digits;
      ExcessIsSmall(d.coeff, digits, k);
      SplitProduct(d.coeff, digits, k);
      var q := d.coeff * Pow10(digits - k);
      RoundingMultiples(q, Pow10(k));
      QuotientFits(q, c, k);
      FixOfMultiple(q, k, d.exp, c);
      ShorterProduct(d, digits, k);
    }
  }

  lemma ShortProduct(d: Dec, digits: nat)
    requires Digits(Abs(d.coeff * Pow10(digits))) <= PRECISION
    ensures SameValue(Dec(d.coeff, d.exp + digits), Fix(Dec(d.coeff * Pow10(digits), d.exp)))
  {
    var c := d.coeff * Pow10(digits);
    hide Digits, HalfEven;
    assert Fix(Dec(c, d.exp)) == Dec(c, d.exp);
    hide Fix;
    ShorterProduct(d, digits, 0);
    assert Pow10(0) == 1;
  }

  lemma ShorterProduct(d: Dec, digits: nat, k: nat)
    requires k <= digits
    ensures SameValue(Dec(d.coeff, d.exp + digits), Dec(d.coeff * Pow10(digits - k), d.exp + k))
  {
    assert Pow10(0) == 1;
    assert Rescaled(Dec(d.coeff, d.exp + digits), d.exp + k) == d.coeff * Pow10(digits - k);
  }

  lemma SplitProduct(coeff: int, digits: nat, k: nat)
    requires k <= digits
    ensures coeff * Pow10(digits) == coeff * Pow10(digits - k) * Pow10(k)
  {
    Pow10Add(digits - k, k);
    assert coeff * (Pow10(digits - k) * Pow10(k)) == coeff * Pow10(digits - k) * Pow10(k);
  }

  /** Dropping k trailing zeros is exact. */
  lemma FixOfMultiple(q: int, k: nat, exp: int, c: int)
    requires c == q * Pow10(k) && k >= 1 && Digits(Abs(c)) == PRECISION + k
    requires HalfEven(c, Pow10(k)) == q && Abs(q) < Money.Limit()
    ensures Fix(Dec(c, exp)) == Dec(q, exp + k)
  {
    hide HalfEven, Pow10, Digits;
  }

  /** Multiplying by 10^digits adds at most that many digits. */
  lemma ExcessIsSmall(coeff: int, digits: nat, k: nat)
    requires Abs(coeff) < Money.Limit()
    requires Digits(Abs(coeff * Pow10(digits))) == PRECISION + k
    ensures k <= digits
  {
    var c := Abs(coeff * Pow10(digits));
    Money.AbsScale(coeff, Pow10(digits));
    MulMonotone(Abs(coeff), Money.Limit(), Pow10(digits));
    Pow10Add(PRECISION, digits);
    if coeff != 0 {
      MulStep(Abs(coeff), Money.Limit(), Pow10(digits));
      DigitsAtMost(c, PRECISION + digits);
    }
  }

  lemma QuotientFits(q: int, c: int, k: nat)
    requires c == q * Pow10(k) && Digits(Abs(c)) == PRECISION + k && k >= 1
    ensures Abs(q) < Money.Limit()
  {
    Money.AbsScale(q, Pow10(k));
    DigitsBounds(Abs(c));
    Pow10Add(PRECISION, k);
    if Abs(q) >= Money.Limit() {
      MulMonotone(Money.Limit(), Abs(q), Pow10(k));
    }
  }

  lemma ExactValue(d: Dec, digits: nat, m: int)
    requires IsExactly(Text.Some(d), digits, Text.Some(m))
    ensures SameValue(Dec(m, 0), Dec(d.coeff, d.exp + digits))
  {
    var e := d.exp + digits;
    if e >= 0 {
      assert Rescaled(Dec(m, 0), 0) == m && Rescaled(Dec(d.coeff, e), 0) == m;
    } else {
      assert Rescaled(Dec(m, 0), e) == d.coeff && Rescaled(Dec(d.coeff, e), e) == d.coeff;
    }
  }

  lemma SameValueTransitive(a: Dec, b: Dec, c: Dec)
    requires SameValue(a, b) && SameValue(b, c)
    ensures SameValue(a, c)
  {
    var low := Lower(a.exp, Lower(b.exp, c.exp));
    SameValueAt(a, b, low);
    SameValueAt(b, c, low);
    SameValueFrom(a, c, low);
  }

  lemma SameValueAt(a: Dec, b: Dec, low: int)
    requires SameValue(a, b) && low <= a.exp && low <= b.exp
    ensures Rescaled(a, low) == Rescaled(b, low)
  {
    RescaleTwice(a, Lower(a.exp, b.exp), low);
    RescaleTwice(b, Lower(a.exp, b.exp), low);
  }

  lemma SameValueFrom(a: Dec, c: Dec, low: int)
    requires low <= a.exp && low <= c.exp && Rescaled(a, low) == Rescaled(c, low)
    ensures SameValue(a, c)
  {
    var x := Lower(a.exp, c.exp);
    RescaleTwice(a, x, low);
    RescaleTwice(c, x, low);
    CancelFactor(Rescaled(a, x), Rescaled(c, x), Pow10(x - low));
  }

  lemma CancelFactor(a: int, b: int, p: nat)
    requires p >= 1 && a * p == b * p
    ensures a == b
  {
    if a < b {
      MulStep(a, b, p);
    } else if b < a {
      MulStep(b, a, p);
    }
  }

  /** Backward after forward restores the value, and the very same decimal where the column already
      kept the currency's digits. */
  lemma BackwardUndoesForward(value: Option<Stored>, digits: nat, minor: Option<int>)
    requires IsExactly(value, digits, minor)
    requires minor.Some? ==> Abs(minor.value) < Money.Limit()
    ensures value.None? ==> Restored(minor, digits).None?
    ensures value.Some? ==> Restored(minor, digits).Some? && SameValue(Restored(minor, digits).value, value.value)
    ensures value.Some? && value.value.exp == 0 - digits ==> Restored(minor, digits) == value
  {
    if value.Some? {
      var d, m := value.value, minor.value;
      Money.FixCases(Dec(m, 0 - digits));
      ExactValue(d, digits, m);
      var e := d.exp + digits;
      var low := Lower(0, e);
      assert Rescaled(Dec(m, 0 - digits), low - digits) == Rescaled(Dec(m, 0), low);
      assert Rescaled(d, low - digits) == Rescaled(Dec(d.coeff, e), low);
      SameValueFrom(Dec(m, 0 - digits), d, low - digits);
      if e == 0 {
        assert Pow10(0) == 1;
      }
    }
  }

  /** The digit bound matters: in a wider column, a value of 29 digits would lose its last unit, and
      the verifying pass, rounding the same way, would not see it. */
  lemma WiderColumnsWouldLoseSilently()
    ensures var value := Text.Some(Dec(1_0000000_0000000_0000000_0000001, -2));
      && ExactMinor(value, 2) == Ok(Text.Some(1_0000000_0000000_0000000_0000000))
      && Agrees(value, Text.Some(1_0000000_0000000_0000000_0000000), 2)
      && !IsExactly(value, 2, Text.Some(1_0000000_0000000_0000000_0000000))
  {
    assert Pow10(2) == 100 && Pow10(0) == 1;
    WideValueRounds(1, 0);
    WideValueRounds(100, -2);
    hide Fix, Digits, HalfEven;
    assert Pow10(1) == 10 && Pow10(3) == 1000;
  }

  /** 10^28 + 1, or a hundred times that, in the context. */
  lemma WideValueRounds(by10: nat, exp: int)
    requires by10 == 1 || by10 == 100
    ensures Fix(Dec(by10 * 1_0000000_0000000_0000000_0000001, exp)).coeff == 1_0000000_0000000_0000000_000000
    ensures Fix(Dec(by10 * 1_0000000_0000000_0000000_0000001, exp)).exp == if by10 == 1 then exp + 1 else exp + 3
  {
    var c := by10 * 1_0000000_0000000_0000000_0000001;
    var digits: nat := if by10 == 1 then 29 else 31;
    assert Pow10(1) == 10 && Pow10(2) == 100 && Pow10(3) == 1000;
    Money.PowersNeeded();
    Pow10Add(27, 1);
    Pow10Add(28, 1);
    Pow10Add(28, 2);
    Pow10Add(28, 3);
    DigitsAtMost(c, digits - 1);
    DigitsAtMost(c, digits);
    hide Pow10, Digits;
  }

  // ---- The two passes over a table -------------------------------------------------------------------

  predicate RowShape(row: Row, fields: nat) {
    |row.original| == fields && |row.minor| == fields
  }

  /** Nothing but the minor-unit columns differs. */
  predicate SameButMinor(a: Row, b: Row) {
    a.pk == b.pk && a.digits == b.digits && a.original == b.original && |a.minor| == |b.minor|
  }

  predicate SameButOriginal(a: Row, b: Row) {
    a.pk == b.pk && a.digits == b.digits && a.minor == b.minor && |a.original| == |b.original|
  }

  predicate WholeRow(row: Row) {
    forall j :: 0 <= j < |row.original| ==> Whole(row.original[j], row.digits)
  }

  predicate ExactRow(row: Row) {
    && |row.minor| == |row.original|
    && forall j :: 0 <= j < |row.original| ==> IsExactly(row.original[j], row.digits, row.minor[j])
  }

  /** Each row of the first list, converted, is the row of the second. */
  ghost predicate AllConverted(from: seq<Row>, to: seq<Row>) {
    && |from| == |to|
    && forall k :: 0 <= k < |to| ==> SameButMinor(from[k], to[k]) && ExactRow(to[k]) && WholeRow(from[k])
  }

  predicate AllSameButMinor(from: seq<Row>, to: seq<Row>) {
    |from| == |to| && forall k :: 0 <= k < |to| ==> SameButMinor(from[k], to[k])
  }

  predicate AllWhole(rows: seq<Row>) {
    forall k :: 0 <= k < |rows| ==> WholeRow(rows[k])
  }

  predicate AllExact(rows: seq<Row>) {
    forall k :: 0 <= k < |rows| ==> ExactRow(rows[k])
  }

  ghost predicate AllRestored(from: seq<Row>, to: seq<Row>) {
    |from| == |to| && forall k :: 0 <= k < |to| ==> RestoredRow(from[k], to[k])
  }

  /** A batch about to be written differs from the stored rows only in the columns it writes. */
  lemma FlushTargets(from: seq<Row>, written: seq<Row>, pending: seq<Row>, rows: seq<Row>, snapshot: seq<Row>)
    requires AllConverted(from, written + pending) && from <= snapshot
    requires rows == written + snapshot[|written|..]
    ensures forall k :: 0 <= k < |pending| ==> SameButMinor(rows[|written| + k], pending[k])
  {
    forall k | 0 <= k < |pending| ensures SameButMinor(rows[|written| + k], pending[k]) {
      assert (written + pending)[|written| + k] == pending[k];
    }
  }

  /** A batch written in place extends the written part by exactly the batch. */
  lemma Spliced(written: seq<Row>, pending: seq<Row>, snapshot: seq<Row>, rows: seq<Row>)
    requires |written| + |pending| <= |snapshot| && rows == written + snapshot[|written|..]
    ensures rows[..|written|] + pending + rows[|written| + |pending|..]
      == (written + pending) + snapshot[|written| + |pending|..]
  {
  }

  lemma OneMore(snapshot: seq<Row>, i: nat, written: seq<Row>, pending: seq<Row>, row: Row)
    requires i < |snapshot|
    ensures snapshot[..i + 1] == snapshot[..i] + [snapshot[i]]
    ensures written + (pending + [row]) == written + pending + [row]
  {
  }

  lemma NothingPending(written: seq<Row>)
    ensures written + [] == written
  {
  }

  /** After the last batch the table is the written rows. */
  lemma AllWritten(snapshot: seq<Row>, i: nat, written: seq<Row>, pending: seq<Row>, rows: seq<Row>)
    requires i == |snapshot| == |written| + |pending|
    requires rows == (written + pending) + snapshot[i..]
    ensures snapshot[..i] == snapshot && rows == written + pending
  {
  }

  /** Whatever has been written so far, originals are untouched. */
  lemma WrittenRows(i: nat, written: seq<Row>, pending: seq<Row>, rows: seq<Row>, snapshot: seq<Row>, fields: nat)
    requires i < |snapshot| && AllConverted(snapshot[..i], written + pending)
    requires rows == written + snapshot[|written|..]
    requires forall k :: 0 <= k < |snapshot| ==> RowShape(snapshot[k], fields)
    requires !WholeRow(snapshot[i])
    ensures AllSameButMinor(snapshot, rows) && !AllWhole(snapshot)
    ensures forall k :: 0 <= k < |rows| ==> RowShape(rows[k], fields)
  {
    forall k | 0 <= k < |rows| ensures SameButMinor(snapshot[k], rows[k]) {
      if k < |written| {
        assert (written + pending)[k] == rows[k];
      }
    }
  }

  lemma AppendConverted(from: seq<Row>, to: seq<Row>, row: Row, converted: Row)
    requires AllConverted(from, to) && SameButMinor(row, converted) && ExactRow(converted) && WholeRow(row)
    ensures AllConverted(from + [row], to + [converted])
  {
  }

  lemma AppendRestored(from: seq<Row>, to: seq<Row>, row: Row, restored: Row)
    requires AllRestored(from, to) && RestoredRow(row, restored)
    ensures AllRestored(from + [row], to + [restored])
  {
  }

  lemma ConvertedShape(snapshot: seq<Row>, rows: seq<Row>, fields: nat)
    requires AllConverted(snapshot, rows)
    requires forall k :: 0 <= k < |snapshot| ==> RowShape(snapshot[k], fields)
    ensures AllSameButMinor(snapshot, rows) && AllWhole(snapshot) && AllExact(rows)
    ensures forall k :: 0 <= k < |rows| ==> RowShape(rows[k], fields)
  {
  }

  lemma RestoreTargets(from: seq<Row>, written: seq<Row>, pending: seq<Row>, rows: seq<Row>, snapshot: seq<Row>)
    requires AllRestored(from, written + pending) && from <= snapshot
    requires rows == written + snapshot[|written|..]
    ensures forall k :: 0 <= k < |pending| ==> SameButOriginal(rows[|written| + k], pending[k])
  {
    forall k | 0 <= k < |pending| ensures SameButOriginal(rows[|written| + k], pending[k]) {
      assert (written + pending)[|written| + k] == pending[k];
    }
  }

  lemma RestoredShape(snapshot: seq<Row>, rows: seq<Row>, fields: nat)
    requires AllRestored(snapshot, rows)
    requires forall k :: 0 <= k < |snapshot| ==> RowShape(snapshot[k], fields)
    ensures forall k :: 0 <= k < |rows| ==> RowShape(rows[k], fields)
  {
    forall k | 0 <= k < |rows| ensures RestoredRow(snapshot[k], rows[k]) && RowShape(snapshot[k], fields) {
    }
  }

  /** What a column held and what it holds again are the same number, or both nothing. */
  predicate SameColumn(a: Option<Dec>, b: Option<Dec>) {
    if a.Some? && b.Some? then SameValue(a.value, b.value) else a == b
  }

  /** Forward and then backward: every Decimal column of every row holds its old value again. */
  lemma TableRoundTrip(original: seq<Row>, converted: seq<Row>, restored: seq<Row>)
    requires AllSameButMinor(original, converted) && AllExact(converted) && AllRestored(converted, restored)
    ensures |restored| == |original|
    ensures forall i :: 0 <= i < |original| ==> |restored[i].original| == |original[i].original|
    ensures forall i, j :: 0 <= i < |original| && 0 <= j < |original[i].original| ==>
      SameColumn(restored[i].original[j], original[i].original[j])
  {
    forall i | 0 <= i < |original|
      ensures |restored[i].original| == |original[i].original|
      ensures forall j :: 0 <= j < |original[i].original| ==>
        SameColumn(restored[i].original[j], original[i].original[j])
    {
      assert SameButMinor(original[i], converted[i]) && ExactRow(converted[i])
          && RestoredRow(converted[i], restored[i]);
      forall j | 0 <= j < |original[i].original| ensures SameColumn(restored[i].original[j], original[i].original[j]) {
        RestoredIsStored(converted[i].minor[j], converted[i].digits);
        BackwardUndoesForward(original[i].original[j], original[i].digits, converted[i].minor[j]);
      }
    }
  }

  lemma NoneConverted()
    ensures AllConverted([], []) && AllRestored([], [])
  {
  }

  /** How many of the first j columns of a row are not exact. */
  function WrongIn(row: Row, j: nat): nat {
    if j == 0 || j > |row.original| || j > |row.minor| then 0
    else WrongIn(row, j - 1) + if IsExactly(row.original[j - 1], row.digits, row.minor[j - 1]) then 0 else 1
  }

  function WrongRows(rows: seq<Row>, i: nat): nat {
    if i == 0 || i > |rows| then 0 else WrongRows(rows, i - 1) + WrongIn(rows[i - 1], |rows[i - 1].original|)
  }

  lemma {:induction false} NoneWrongIn(row: Row, j: nat)
    requires j <= |row.original| == |row.minor|
    ensures WrongIn(row, j) == 0 <==> forall k :: 0 <= k < j ==> IsExactly(row.original[k], row.digits, row.minor[k])
  {
    if j > 0 {
      NoneWrongIn(row, j - 1);
    }
  }

  lemma {:induction false} NoneWrong(rows: seq<Row>, i: nat)
    requires i <= |rows| && forall k :: 0 <= k < |rows| ==> |rows[k].original| == |rows[k].minor|
    ensures WrongRows(rows, i) == 0 <==> forall k :: 0 <= k < i ==> ExactRow(rows[k])
  {
    if i > 0 {
      NoneWrong(rows, i - 1);
      NoneWrongIn(rows[i - 1], |rows[i - 1].original|);
    }
  }

  /** The error names a row and a column of it that is not a whole number of minor units. */
  predicate IsWrong(row: Row, error: MigrationError) {
    && error.NotWhole? && error.pk == row.pk && error.field < |row.original|
    && !Whole(row.original[error.field], row.digits)
  }

  predicate NamesWrong(rows: seq<Row>, error: MigrationError) {
    exists i :: 0 <= i < |rows| && IsWrong(rows[i], error)
  }

  class Table {
    var rows: seq<Row>
    const fields: nat

    predicate Valid()
      reads this
    {
      forall i :: 0 <= i < |rows| ==> RowShape(rows[i], fields)
    }

    constructor (rows: seq<Row>, fields: nat)
      requires forall i :: 0 <= i < |rows| ==> RowShape(rows[i], fields)
      ensures Valid() && this.rows == rows && this.fields == fields
    {
      this.rows := rows;
      this.fields := fields;
    }

    /** Write the minor-unit columns of consecutive rows back, in one statement. */
    method BulkUpdate(start: nat, pending: seq<Row>)
      requires start + |pending| <= |rows|
      requires forall k :: 0 <= k < |pending| ==> SameButMinor(rows[start + k], pending[k])
      modifies this
      ensures rows == old(rows)[..start] + pending + old(rows)[start + |pending|..]
    {
      var k := 0;
      while k < |pending|
        invariant 0 <= k <= |pending|
        invariant rows == old(rows)[..start] + pending[..k] + old(rows)[start + k..]
      {
        rows := rows[start + k := rows[start + k].(minor := pending[k].minor)];
        k := k + 1;
      }
      assert pending[..k] == pending;
    }

    /** Copy each Decimal column into its minor-unit column, in batches, then verify by a second
        read. Originals are never touched; it returns only if every value is exact, and it fails
        exactly when some value is not a whole number of minor units. */
    method Forward(batch: nat) returns (r: Outcome)
      requires Valid() && batch >= 1
      modifies this
      ensures Valid() && AllSameButMinor(old(rows), rows)
      ensures r.Ok? <==> AllWhole(old(rows))
      ensures r.Ok? ==> AllExact(rows)
      ensures r.Err? ==> NamesWrong(old(rows), r.error)
    {
      hide WholeRow, ExactRow, SameButMinor, RowShape, AllConverted, AllWhole, AllExact, AllSameButMinor, IsWrong;
      var snapshot := rows;
      var pending: seq<Row> := [];
      var i := 0;
      ghost var written: seq<Row> := [];
      NoneConverted();
      assert snapshot[..0] == [] && written + pending == [];
      while i < |snapshot|
        invariant 0 <= i <= |snapshot| && |pending| < batch && |written| + |pending| == i
        invariant rows == written + snapshot[|written|..]
        invariant AllConverted(snapshot[..i], written + pending)
      {
        var converted := ConvertRow(snapshot[i]);
        if converted.Err? {
          WrittenRows(i, written, pending, rows, snapshot, fields);
          assert IsWrong(snapshot[i], converted.error);
          return Err(converted.error);
        }
        AppendConverted(snapshot[..i], written + pending, snapshot[i], converted.value);
        OneMore(snapshot, i, written, pending, converted.value);
        pending := pending + [converted.value];
        i := i + 1;
        if |pending| >= batch {
          WriteBatch(i, pending, written, snapshot);
          written, pending := written + pending, [];
          NothingPending(written);
        }
      }
      if |pending| > 0 {
        WriteBatch(i, pending, written, snapshot);
      } else {
        NothingPending(written);
      }
      AllWritten(snapshot, i, written, pending, rows);
      ConvertedShape(snapshot, rows, fields);
      r := Verify();
    }

    /** The batch of converted rows that ends before row i, written after the part already written. */
    method WriteBatch(i: nat, pending: seq<Row>, ghost written: seq<Row>, ghost snapshot: seq<Row>)
      requires |written| + |pending| == i <= |snapshot| && rows == written + snapshot[|written|..]
      requires AllConverted(snapshot[..i], written + pending)
      modifies this
      ensures rows == written + pending + snapshot[i..]
    {
      hide AllConverted, SameButMinor;
      FlushTargets(snapshot[..i], written, pending, rows, snapshot);
      Spliced(written, pending, snapshot, rows);
      BulkUpdate(i - |pending|, pending);
    }

    /** The same row with every minor-unit column converted, or the first value that is not whole. */
    method ConvertRow(row: Row) returns (r: Result<Row, MigrationError>)
      requires RowShape(row, fields)
      ensures r.Ok? <==> WholeRow(row)
      ensures r.Ok? ==> SameButMinor(row, r.value) && ExactRow(r.value)
      ensures r.Err? ==> IsWrong(row, r.error)
    {
      var current := row;
      var j := 0;
      while j < fields
        invariant 0 <= j <= fields && SameButMinor(row, current)
        invariant forall k :: 0 <= k < j ==> Whole(row.original[k], row.digits)
        invariant forall k :: 0 <= k < j ==> IsExactly(row.original[k], row.digits, current.minor[k])
      {
        var minor := ExactMinor(row.original[j], row.digits);
        ExactMinorIsExact(row.original[j], row.digits);
        if minor.Err? {
          return Err(NotWhole(row.pk, j));
        }
        current := current.(minor := current.minor[j := minor.value]);
        j := j + 1;
      }
      r := Ok(current);
    }

    /** Re-read every row and compare. */
    method Verify() returns (r: Outcome)
      requires Valid()
      ensures r.Ok? <==> AllExact(rows)
      ensures r.Err? ==> r.error == Differs(WrongRows(rows, |rows|))
    {
      var bad := 0;
      var i := 0;
      while i < |rows|
        invariant 0 <= i <= |rows|
        invariant bad == WrongRows(rows, i)
      {
        var j := 0;
        while j < fields
          invariant 0 <= j <= fields
          invariant bad == WrongRows(rows, i) + WrongIn(rows[i], j)
        {
          AgreesExactly(rows[i].original[j], rows[i].digits, rows[i].minor[j]);
          if !Agrees(rows[i].original[j], rows[i].minor[j], rows[i].digits) {
            bad := bad + 1;
          }
          j := j + 1;
        }
        i := i + 1;
      }
      NoneWrong(rows, |rows|);
      if bad == 0 {
        r := Ok(());
      } else {
        r := Err(Differs(bad));
      }
    }

    /** Rebuild each Decimal column from its minor-unit column, in batches, then verify. */
    method Backward(batch: nat) returns (r: Outcome)
      requires Valid() && batch >= 1
      requires forall i :: 0 <= i < |rows| ==> RowInRange(rows[i])
      modifies this
      ensures Valid() && r.Ok? && AllRestored(old(rows), rows) && AllExact(rows)
    {
      hide RestoredRow, SameButOriginal, AllRestored, AllExact, RowShape, RowInRange;
      var snapshot := rows;
      var pending: seq<Row> := [];
      var i := 0;
      ghost var written: seq<Row> := [];
      NoneConverted();
      assert snapshot[..0] == [] && written + pending == [];
      while i < |snapshot|
        invariant 0 <= i <= |snapshot| && |pending| < batch && |written| + |pending| == i
        invariant rows == written + snapshot[|written|..]
        invariant AllRestored(snapshot[..i], written + pending)
      {
        var row := RestoreRow(snapshot[i]);
        AppendRestored(snapshot[..i], written + pending, snapshot[i], row);
        OneMore(snapshot, i, written, pending, row);
        pending := pending + [row];
        i := i + 1;
        if |pending| >= batch {
          RestoreBatch(i, pending, written, snapshot);
          written, pending := written + pending, [];
          NothingPending(written);
        }
      }
      if |pending| > 0 {
        RestoreBatch(i, pending, written, snapshot);
      } else {
        NothingPending(written);
      }
      AllWritten(snapshot, i, written, pending, rows);
      RestoredRowsAreExact(snapshot, rows);
      RestoredShape(snapshot, rows, fields);
      r := Verify();
    }

    /** The batch of rebuilt rows that ends before row i, written after the part already written. */
    method RestoreBatch(i: nat, pending: seq<Row>, ghost written: seq<Row>, ghost snapshot: seq<Row>)
      requires |written| + |pending| == i <= |snapshot| && rows == written + snapshot[|written|..]
      requires AllRestored(snapshot[..i], written + pending)
      modifies this
      ensures rows == written + pending + snapshot[i..]
    {
      hide AllRestored, SameButOriginal;
      RestoreTargets(snapshot[..i], written, pending, rows, snapshot);
      Spliced(written, pending, snapshot, rows);
      BulkRestore(i - |pending|, pending);
    }

    /** Write the Decimal columns of consecutive rows back, in one statement. */
    method BulkRestore(start: nat, pending: seq<Row>)
      requires start + |pending| <= |rows|
      requires forall k :: 0 <= k < |pending| ==> SameButOriginal(rows[start + k], pending[k])
      modifies this
      ensures rows == old(rows)[..start] + pending + old(rows)[start + |pending|..]
    {
      var k := 0;
      while k < |pending|
        invariant 0 <= k <= |pending|
        invariant rows == old(rows)[..start] + pending[..k] + old(rows)[start + k..]
      {
        rows := rows[start + k := rows[start + k].(original := pending[k].original)];
        k := k + 1;
      }
      assert pending[..k] == pending;
    }

    method RestoreRow(row: Row) returns (r: Row)
      requires RowShape(row, fields)
      requires RowInRange(row)
      ensures RestoredRow(row, r)
    {
      r := row;
      var j := 0;
      while j < fields
        invariant 0 <= j <= fields && SameButOriginal(row, r)
        invariant forall k :: 0 <= k < j ==> r.original[k] == Restored(row.minor[k], row.digits)
      {
        RestoredIsStored(row.minor[j], row.digits);
        var value: Option<Stored> := Restored(row.minor[j], row.digits);
        r := r.(original := r.original[j := value]);
        j := j + 1;
      }
    }
  }

  /** A 64-bit column value. */
  predicate InRange(minor: Option<int>) {
    minor.Some? ==> -0x8000_0000_0000_0000 <= minor.value < 0x8000_0000_0000_0000
  }

  predicate RowInRange(row: Row) {
    forall j :: 0 <= j < |row.minor| ==> InRange(row.minor[j])
  }

  predicate RestoredRow(row: Row, restored: Row) {
    && SameButOriginal(row, restored) && |row.original| == |row.minor|
    && forall j :: 0 <= j < |row.minor| ==>
        InRange(row.minor[j]) && restored.original[j] == Restored(row.minor[j], row.digits)
  }

  lemma RestoredIsStored(minor: Option<int>, digits: nat)
    requires InRange(minor)
    ensures minor.Some? ==>
      Abs(minor.value) < Money.Limit() && Restored(minor, digits) == Text.Some(Dec(minor.value, 0 - digits))
    ensures IsExactly(Restored(minor, digits), digits, minor)
  {
    Money.PowersNeeded();
    if minor.Some? {
      Money.FixCases(Dec(minor.value, 0 - digits));
    }
  }

  lemma RestoredRowsAreExact(snapshot: seq<Row>, rows: seq<Row>)
    requires AllRestored(snapshot, rows)
    ensures AllExact(rows)
  {
    forall k, j | 0 <= k < |rows| && 0 <= j < |rows[k].original|
      ensures IsExactly(rows[k].original[j], rows[k].digits, rows[k].minor[j])
    {
      assert RestoredRow(snapshot[k], rows[k]);
      RestoredIsStored(snapshot[k].minor[j], snapshot[k].digits);
    }
  }

}
