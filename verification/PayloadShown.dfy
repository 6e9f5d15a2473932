/** What a masked payload shows at each of its fields, said without the maskers or the table's order. */
module PayloadShown {
  import opened Strings
  import opened Masking
  import opened MaskingShown
  import opened MaskPayload
  import Text = DecimalText
  import Decimals
  import Coordinates

  type Option<+T> = Text.Option<T>

  // ---- The table -----------------------------------------------------------------------------------

  /** The field belongs to a kind. */
  predicate IsField(key: string, kind: Kind) {
    match kind
    case Phone => key in PHONE_FIELDS
    case Email => key in EMAIL_FIELDS
    case Identifier => key == "username"
    case Label => key in CONTACT_LABEL_FIELDS
    case Name => key in NAME_FIELDS
    case Address => key in ADDRESS_FIELDS
    case Blanked => key in BLANKED_FIELDS
    case Last4 => key in LAST4_FIELDS
    case Upi => key in UPI_FIELDS
    case Coordinate => key in COORDINATE_FIELDS
    case Document => key in DOCUMENT_FIELDS
    case Plain => key != "username" && !InTable(key)
  }

  predicate InTable(key: string) {
    || key in PHONE_FIELDS || key in EMAIL_FIELDS || key in CONTACT_LABEL_FIELDS || key in NAME_FIELDS
    || key in ADDRESS_FIELDS || key in BLANKED_FIELDS || key in LAST4_FIELDS || key in UPI_FIELDS
    || key in COORDINATE_FIELDS || key in DOCUMENT_FIELDS
  }

  lemma KindIs(key: string)
    ensures IsField(key, KindOf(key))
  {
  }

  /** A field of each kind. */
  lemma Examples()
    ensures IsField("phone_number", Phone) && IsField("email", Email) && IsField("username", Identifier)
    ensures IsField("user_label", Label) && IsField("full_name", Name) && IsField("address", Address)
    ensures IsField("aadhaar", Blanked) && IsField("account_number", Last4) && IsField("upi_id", Upi)
    ensures IsField("lat", Coordinate) && IsField("license_doc", Document)
    ensures {"maker", "checker", "created_by"} == OPERATOR_IDENTITY_KEYS
  {
  }

  // ---- One field -----------------------------------------------------------------------------------

  /** Nothing to mask: null, an empty text, a zero or a false. */
  predicate Nothing(v: Json) {
    match v
    case Null => true
    case Str(s) => s == ""
    case Other(_, text, falsy) => falsy || text == ""
    case _ => false
  }

  function TextIn(v: Json): string {
    match v
    case Str(s) => s
    case Other(_, text, _) => text
    case _ => ""
  }

  /** A coordinate is shown in hundredths, the nearest, in the type it came in; text that is no number is shown
      as it is. */
  ghost predicate CoordinateShown(v: Json, w: Json, policy: Policy) {
    var read := Coordinates.Read(TextIn(v));
    if v == Null || v == Str("") || read.None? then w == v
    else match read.value
      case Finite(negative, d) =>
        exists m: nat, body: string ::
          Coordinates.IsNearestHundredth(d, m) && Text.PlacedAt(body, m, 2) && Typed(v, w, negative, m, body, policy)
      case Quiet(negative, _) => Coordinates.Sign(negative) + "NaN" <= TextIn(w) || TextIn(w) == "nan"
      case _ => false
  }

  /** The same hundredths as a float, as a decimal or as text. */
  predicate Typed(v: Json, w: Json, negative: bool, m: nat, body: string, policy: Policy) {
    var sign := if negative then "-" else "";
    match v
    case Other(Floating, _, _) => w.Other? && w.number == Floating
        && w.text == sign + policy.floatText(Decimals.Dec(m, -2))
    case Other(Exact, _, _) => w.Other? && w.number == Exact && w.text == sign + body && (w.falsy <==> m == 0)
    case _ => w == Str(sign + body)
  }

  /** A full name is shown whole to those who may see it, and otherwise as its first word and an initial; an address
      or a number in its place is shown to nobody whole. */
  ghost predicate NameFieldShown(v: Json, w: Json, fullNames: bool) {
    if !v.Str? || v.s == "" then w == v
    else if fullNames && '@' !in Strip(v.s) && !LooksLikeNumber(Strip(v.s)) then w == v
    else w.Str? && ContactShown(v.s, w.s)
  }

  /** What a field of a kind shows of its value. */
  ghost predicate FieldShown(kind: Kind, v: Json, w: Json, policy: Policy) {
    match kind
    case Plain => w == v
    case Blanked => if v == Null || v == Str("") then w == v else w == Str(MASK)
    case Document => if policy.documents || Nothing(v) then w == v else w == Null
    case Coordinate => if policy.exactCoordinates then w == v else CoordinateShown(v, w, policy)
    case Name => NameFieldShown(v, w, policy.fullNames)
    case Phone => if Nothing(v) then w == v else w.Str? && PhoneShown(TextIn(v), w.s)
    case Email => if Nothing(v) then w == v else w.Str? && EmailShown(TextIn(v), w.s)
    case Identifier => if Nothing(v) then w == v else w.Str? && IdentifierShown(TextIn(v), w.s)
    case Label => if Nothing(v) then w == v else w.Str? && ContactShown(TextIn(v), w.s)
    case Address => if Nothing(v) then w == v else w.Str? && AddressShown(TextIn(v), w.s)
    case Last4 => if Nothing(v) then w == v else w.Str? && LastShown(TextIn(v), w.s)
    case Upi => if Nothing(v) then w == v else w.Str? && UpiShown(TextIn(v), w.s)
  }

  lemma ApplyShows(kind: Kind, v: Json, policy: Policy)
    requires !v.Container() && Apply(kind, v, policy).Some?
    ensures FieldShown(kind, v, Apply(kind, v, policy).value, policy)
  {
    hide MaskPhone, MaskEmail, MaskIdentifier, MaskContact, MaskName, MaskLast4, MaskUpi, EmailShown, PhoneShown,
      LastShown, UpiShown, IdentifierShown, ContactShown, RoundCoordinate, CoordinateShown;
    var t := TextIn(v);
    match kind {
      case Phone => MaskPhoneIsShown(t);
      case Email => MaskEmailShows(t);
      case Identifier => MaskIdentifierShows(t);
      case Label => MaskContactShows(t);
      case Address => AddressShows(v, policy);
      case Last4 => MaskLast4Shows(t);
      case Upi => MaskUpiShows(t);
      case Name => NameShows(v, policy);
      case Coordinate =>
        if !policy.exactCoordinates {
          CoordinateShows(v, policy);
        }
      case _ =>
    }
  }

  lemma NameShows(v: Json, policy: Policy)
    requires !v.Container() && Apply(Name, v, policy).Some?
    ensures NameFieldShown(v, Apply(Name, v, policy).value, policy.fullNames)
  {
    hide MaskContact, MaskName, ContactShaped, LooksLikeNumber, ContactShown, LStrip, RStrip, IsSpace, Trimmed, Apply;
    if v.Str? {
      NameFacts(v.s);
      NameApplied(v.s, policy);
    }
    NoNameApplied(v, policy);
  }

  lemma NoNameApplied(v: Json, policy: Policy)
    ensures !v.Str? ==> Apply(Name, v, policy) == Text.Some(v)
  {
    hide MaskContact, MaskName, ContactShaped, LStrip, RStrip, IsSpace, Trimmed;
  }

  lemma NameApplied(s: string, policy: Policy)
    ensures var r := Apply(Name, Str(s), policy);
      if s == "" && !policy.fullNames then r == Text.Some(Str(s))
      else if !policy.fullNames then r == AsStr(MaskName(s))
      else if ContactShaped(Strip(s)) then r == AsStr(MaskContact(s))
      else r == Text.Some(Str(s))
  {
    hide MaskContact, MaskName, ContactShaped, LStrip, RStrip, IsSpace, Trimmed;
  }

  lemma NameFacts(s: string)
    ensures ContactShaped(Strip(s)) <==> '@' in Strip(s) || LooksLikeNumber(Strip(s))
    ensures MaskName(s).Some? ==> ContactShown(s, MaskName(s).value)
    ensures MaskContact(s).Some? && ContactShown(s, MaskContact(s).value)
    ensures s == "" ==> !ContactShaped(Strip(s))
  {
    hide MaskContact, MaskName, PhoneShaped, LooksLikeNumber, ContactShown, LStrip, RStrip, IsSpace, Trimmed;
    MaskNameShows(s);
    MaskContactShows(s);
    NumberShape(Strip(s));
    PhoneShapedIs("");
  }

  lemma AddressShows(v: Json, policy: Policy)
    requires !v.Container() && Apply(Address, v, policy).Some?
    ensures FieldShown(Address, v, Apply(Address, v, policy).value, policy)
  {
    hide MaskingAddress.MaskAddress, AddressShown;
    MaskAddressShows(TextIn(v));
  }

  lemma CoordinateShows(v: Json, policy: Policy)
    requires !v.Container() && RoundCoordinate(v, policy).Some?
    ensures CoordinateShown(v, RoundCoordinate(v, policy).value, policy)
  {
    hide Coordinates.Read, Coordinates.Rounded, Coordinates.Capped, Text.Body, Text.PlacedAt,
        Coordinates.IsNearestHundredth;
    var t := TextIn(v);
    assert TextOf(v) == t;
    var read := Coordinates.Read(t);
    Coordinates.NothingIsNoNumber();
    if read.Some? && read.value.Finite? {
      Coordinates.ReadIsNonNegative(t);
      FiniteShows(v, read.value.negative, read.value.magnitude, policy);
    }
  }

  lemma FiniteShows(v: Json, negative: bool, d: Decimals.Dec, policy: Policy)
    requires !v.Container() && d.coeff >= 0 && v != Null && v != Str("") && RoundCoordinate(v, policy).Some?
    requires Coordinates.Read(TextIn(v)) == Text.Some(Coordinates.Finite(negative, d))
    ensures CoordinateShown(v, RoundCoordinate(v, policy).value, policy)
  {
    hide Coordinates.Read, Coordinates.Rounded, Text.Body, Text.PlacedAt, Coordinates.IsNearestHundredth, SaysZero;
    var q := Coordinates.Rounded(d).value;
    Coordinates.RoundedSign(d);
    var m: nat := q.coeff;
    Coordinates.RoundedIsNearest(d, m);
    HundredthsPlaced(m);
    ZeroSays(negative, d);
    assert Typed(v, RoundCoordinate(v, policy).value, negative, m, Text.Body(q), policy);
    assert Coordinates.IsNearestHundredth(d, m) && Text.PlacedAt(Text.Body(q), m, 2);
  }

  lemma HundredthsPlaced(m: nat)
    ensures Text.PlacedAt(Text.Body(Decimals.Dec(m, -2)), m, 2)
  {
    hide Text.NatText, Text.Body, Text.PlacedAt;
    Text.PointPlaced(Decimals.Dec(m, -2));
  }

  /** A shown number counts as false exactly when it shows no hundredths. */
  lemma ZeroSays(negative: bool, d: Decimals.Dec)
    requires d.coeff >= 0 && Coordinates.Rounded(d).Some?
    ensures var q := Coordinates.Rounded(d).value;
      SaysZero(Coordinates.Sign(negative) + Text.Body(q)) <==> q.coeff == 0
  {
    hide Coordinates.Read, Coordinates.Rounded, Text.Body;
    Coordinates.FiniteTwice(negative, d);
  }

  // ---- The whole payload ---------------------------------------------------------------------------

  /** Is the i-th step of a path into the record of a staff decision? */
  predicate EntersStaffRecord(j: Json, path: seq<MaskPayload.Step>, i: nat)
    requires i < |path|
  {
    && path[i].Key? && path[i].key in {"maker", "checker", "created_by"}
    && var v := Lookup(j, path[..i + 1]); v.Some? && v.value.Dict?
  }

  predicate InStaffRecord(j: Json, path: seq<MaskPayload.Step>) {
    exists i :: 0 <= i < |path| && EntersStaffRecord(j, path, i)
  }

  lemma {:induction false} StaffRecordIs(j: Json, path: seq<MaskPayload.Step>)
    ensures UnderOperator(j, path) <==> InStaffRecord(j, path)
    decreases |path|
  {
    if path != [] {
      FirstStep(j, path);
      hide Lookup;
      if Lookup(j, path[..1]).Some? {
        FurtherOn(j, path, Lookup(j, path[..1]).value);
        assert InStaffRecord(j, path) <==>
          EntersStaffRecord(j, path, 0) || exists i :: 0 < i < |path| && EntersStaffRecord(j, path, i);
      } else {
        assert forall i :: 0 <= i < |path| ==> !EntersStaffRecord(j, path, i);
      }
    }
  }

  lemma FirstStep(j: Json, path: seq<MaskPayload.Step>)
    requires path != []
    ensures Lookup(j, path[..1]) ==
      if path[0].Key? && j.Dict? && path[0].key in j.fields then Text.Some(j.fields[path[0].key])
      else if path[0].At? && j.List? && path[0].index < |j.items| then Text.Some(j.items[path[0].index])
      else Text.None
    ensures Lookup(j, path[..1]).None? ==> forall n :: 0 < n <= |path| ==> Lookup(j, path[..n]).None?
    ensures Lookup(j, path[..1]).Some? ==>
      forall i :: 0 < i < |path| ==> Lookup(j, path[..i + 1]) == Lookup(Lookup(j, path[..1]).value, path[1..][..i])
  {
    assert path[..1][1..] == [];
    forall n | 0 < n <= |path| ensures path[..n][0] == path[0] {
    }
    forall i | 0 < i < |path| ensures path[..i + 1][1..] == path[1..][..i] && path[..i + 1][0] == path[0] {
    }
  }

  /** A record entered further on is entered on the rest of the path. */
  lemma FurtherOn(j: Json, path: seq<MaskPayload.Step>, v: Json)
    requires path != [] && forall i :: 0 < i < |path| ==> Lookup(j, path[..i + 1]) == Lookup(v, path[1..][..i])
    ensures UnderOperator(v, path[1..]) <==> exists i :: 0 < i < |path| && EntersStaffRecord(j, path, i)
    decreases |path|, 0
  {
    hide Lookup, UnderOperator;
    StaffRecordIs(v, path[1..]);
    forall i | 0 < i < |path| ensures EntersStaffRecord(j, path, i) <==> EntersStaffRecord(v, path[1..], i - 1) {
    }
    hide EntersStaffRecord;
    if InStaffRecord(v, path[1..]) {
      var k :| 0 <= k < |path[1..]| && EntersStaffRecord(v, path[1..], k);
      assert EntersStaffRecord(j, path, k + 1);
    }
    if i :| 0 < i < |path| && EntersStaffRecord(j, path, i) {
      assert EntersStaffRecord(v, path[1..], i - 1);
    }
  }

  /** What is shown at a path: the value as it is if it lies in the record of a staff decision, and otherwise what
      the kind of its own field shows of it. A value in a list has no field of its own. */
  ghost predicate ShownAt(j: Json, path: seq<MaskPayload.Step>, v: Json, w: Json, policy: Policy) {
    if InStaffRecord(j, path) then w == v
    else if path == [] || path[|path| - 1].At? then w == v
    else exists kind: Kind :: IsField(path[|path| - 1].key, kind) && FieldShown(kind, v, w, policy)
  }

  /** Every scalar of the payload, wherever it lies, is shown so. */
  lemma EveryPathShows(j: Json, path: seq<MaskPayload.Step>, policy: Policy)
    requires Mask(j, policy).Some? && Lookup(j, path).Some? && !Lookup(j, path).value.Container()
    ensures Lookup(Mask(j, policy).value, path).Some?
    ensures ShownAt(j, path, Lookup(j, path).value, Lookup(Mask(j, policy).value, path).value, policy)
  {
    hide Apply, KindOf, Mask, UnderOperator, IsField, InStaffRecord;
    EveryPath(j, path, policy);
    StaffRecordIs(j, path);
    if !UnderOperator(j, path) {
      var v, w := Lookup(j, path).value, Lookup(Mask(j, policy).value, path).value;
      ApplyShows(KindAt(path), v, policy);
      hide FieldShown;
      if path != [] && path[|path| - 1].Key? {
        var key := path[|path| - 1].key;
        KindIs(key);
        assert IsField(key, KindOf(key)) && FieldShown(KindOf(key), v, w, policy);
      }
    }
  }
}
