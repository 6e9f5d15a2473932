/** Masking a JSON tree by field name: which masker reaches which value, and what stays. */
module MaskPayload {
  import opened Strings
  import opened Masking
  import opened MaskingAddress
  import Text = DecimalText
  import Decimals
  import Coordinates

  /** Which rounded coordinate comes back: a float, a decimal, or text for anything else. */
  datatype Number = Floating | Exact | Discrete

  /** Other is a number or a boolean: its text, and whether it counts as false. */
  datatype Json =
    | Null
    | Str(s: string)
    | Other(number: Number, text: string, falsy: bool)
    | List(items: seq<Json>)
    | Dict(fields: map<string, Json>)
  {
    predicate Container() {
      List? || Dict?
    }

    predicate Falsy() {
      Null? || (Str? && s == "") || (Other? && (falsy || text == ""))
    }
  }

  /** What a viewer gets beyond the baseline; and, of the platform, how it prints floats. */
  datatype Policy = Policy(fullNames: bool, exactCoordinates: bool, documents: bool, floatText: Coordinates.FloatText)

  // ---- The table of field names ----------------------------------------------------------------------

  const PHONE_FIELDS: set<string> := {
    "phone_number", "phone", "mobile", "driver_phone", "rider_phone", "user_phone", "requester_phone",
    "payer_phone", "customer_phone", "emergency_contact" }

  const EMAIL_FIELDS: set<string> := {
    "email", "driver_email", "rider_email", "user_email", "requester_email", "payer_email", "customer_email",
    "sent_to_email" }

  const CONTACT_LABEL_FIELDS: set<string> := { "user_label", "driver_label" }

  const NAME_FIELDS: set<string> := {
    "full_name", "driver_name", "rider_name", "user", "user_name", "author_name", "rater_name",
    "requester_name", "payer_name", "customer_name" }

  const ADDRESS_FIELDS: set<string> := {
    "pickup_address", "destination_address", "drop_address", "address", "address_text" }

  const BLANKED_FIELDS: set<string> := {
    "dob", "date_of_birth", "house_no", "street", "zip_code", "postcode", "aadhaar", "aadhaar_number",
    "pan", "pan_number", "ssn" }

  const LAST4_FIELDS: set<string> := {
    "account_number", "bank_account_number", "ifsc", "ifsc_code", "license_number", "licence_number" }

  const UPI_FIELDS: set<string> := { "upi_id", "driver_upi_id", "vpa" }

  const COORDINATE_FIELDS: set<string> := {
    "lat", "lng", "lon", "latitude", "longitude", "pickup_lat", "pickup_long", "pickup_lng",
    "destination_lat", "destination_long", "destination_lng" }

  const DOCUMENT_FIELDS: set<string> := {
    "license_doc", "license_doc_back", "license_doc_url", "license_doc_back_url", "rc_doc", "rc_doc_url",
    "permit_doc", "permit_doc_url", "insurance_doc", "insurance_doc_url", "fitness_doc", "fitness_doc_url",
    "puc_doc", "puc_doc_url", "inspection_doc", "inspection_doc_url", "vehicle_pic", "vehicle_pic_url",
    "avatar", "avatar_url", "pdf_url" }

  /** A dictionary under one of these is the record of a staff decision, and is left alone. */
  const OPERATOR_IDENTITY_KEYS: set<string> := { "maker", "checker", "created_by" }

  datatype Kind =
    | Phone | Email | Identifier | Label | Address | Blanked | Last4 | Upi | Name | Coordinate | Document | Plain

  function KindOf(key: string): Kind {
    if key in PHONE_FIELDS then Phone
    else if key in EMAIL_FIELDS then Email
    else if key == "username" then Identifier
    else if key in CONTACT_LABEL_FIELDS then Label
    else if key in ADDRESS_FIELDS then Address
    else if key in BLANKED_FIELDS then Blanked
    else if key in LAST4_FIELDS then Last4
    else if key in UPI_FIELDS then Upi
    else if key in NAME_FIELDS then Name
    else if key in COORDINATE_FIELDS then Coordinate
    else if key in DOCUMENT_FIELDS then Document
    else Plain
  }

  // ---- One value ---------------------------------------------------------------------------------------

  function TextOf(v: Json): string {
    match v
    case Str(s) => s
    case Other(_, text, _) => text
    case _ => ""
  }

  function AsStr(r: Option<string>): Option<Json> {
    if r.Some? then Text.Some(Str(r.value)) else Text.None
  }

  /** A coordinate rounded, in the type it arrived in; text that is no number stays. None is an exception. */
  function RoundCoordinate(v: Json, policy: Policy): Option<Json> {
    var read := Coordinates.Read(TextOf(v));
    if v == Null || v == Str("") || read.None? then Text.Some(v)
    else
      var shown := Coordinates.Shown(read.value);
      if shown.None? then Text.None
      else if v.Other? && v.number == Floating then
        var text := Coordinates.FloatShown(read.value, policy.floatText);
        Text.Some(Other(Floating, text, SaysZero(text)))
      else if v.Other? && v.number == Exact then Text.Some(Other(Exact, shown.value, SaysZero(shown.value)))
      else Text.Some(Str(shown.value))
  }

  predicate SaysZero(text: string) {
    var read := Coordinates.Read(text);
    read.Some? && read.value.Finite? && read.value.magnitude.coeff == 0
  }

  /** The value under a field of a kind; None is an exception. */
  function Apply(kind: Kind, v: Json, policy: Policy): Option<Json> {
    match kind
    case Plain => Text.Some(v)
    case Blanked => Text.Some(if v == Null || v == Str("") then v else Str(MASK))
    case Coordinate => if policy.exactCoordinates then Text.Some(v) else RoundCoordinate(v, policy)
    case Document => Text.Some(if policy.documents || v.Falsy() then v else Null)
    case Name =>
      if !v.Str? then Text.Some(v)
      else if !policy.fullNames then (if v.s == "" then Text.Some(v) else AsStr(MaskName(v.s)))
      else if ContactShaped(Strip(v.s)) then AsStr(MaskContact(v.s))
      else Text.Some(v)
    case _ => if v.Falsy() then Text.Some(v) else AsStr(MaskText(kind, TextOf(v)))
  }

  function MaskText(kind: Kind, t: string): Option<string> {
    match kind
    case Phone => Text.Some(MaskPhone(t))
    case Email => Text.Some(MaskEmail(t))
    case Identifier => Text.Some(MaskIdentifier(t))
    case Label => MaskContact(t)
    case Address => Text.Some(MaskAddress(t))
    case Last4 => Text.Some(MaskLast4(t))
    case Upi => Text.Some(MaskUpi(t))
    case _ => Text.None
  }

  // ---- The tree ------------------------------------------------------------------------------------------

  /** Is a value under this key skipped with all it holds? */
  predicate Sheltered(key: string, v: Json) {
    key in OPERATOR_IDENTITY_KEYS && v.Dict?
  }

  /** The value under a key, masked. */
  function MaskField(key: string, v: Json, policy: Policy): Option<Json>
    decreases v, 1
  {
    if Sheltered(key, v) then Text.Some(v)
    else if v.Container() then Mask(v, policy)
    else Apply(KindOf(key), v, policy)
  }

  /** mask_payload. A scalar at the top, or in a list, is returned as it is. */
  function Mask(j: Json, policy: Policy): Option<Json>
    decreases j, 0
  {
    match j
    case List(items) =>
      if exists i | 0 <= i < |items| :: Mask(items[i], policy).None? then Text.None
      else Text.Some(List(seq(|items|, i requires 0 <= i < |items| => Mask(items[i], policy).value)))
    case Dict(fields) =>
      if exists k | k in fields :: MaskField(k, fields[k], policy).None? then Text.None
      else Text.Some(Dict(map k | k in fields :: MaskField(k, fields[k], policy).value))
    case _ => Text.Some(j)
  }

  // ---- Paths -----------------------------------------------------------------------------------------------

  datatype Step = Key(key: string) | At(index: nat)

  function Lookup(j: Json, path: seq<Step>): Option<Json>
    decreases |path|
  {
    if path == [] then Text.Some(j)
    else
      match path[0]
      case Key(key) => if j.Dict? && key in j.fields then Lookup(j.fields[key], path[1..]) else Text.None
      case At(index) => if j.List? && index < |j.items| then Lookup(j.items[index], path[1..]) else Text.None
  }

  /** Does a path pass through, or end at, a dictionary that is left alone? */
  predicate UnderOperator(j: Json, path: seq<Step>)
    decreases |path|
  {
    if path == [] then false
    else
      match path[0]
      case Key(key) => j.Dict? && key in j.fields
          && (Sheltered(key, j.fields[key]) || UnderOperator(j.fields[key], path[1..]))
      case At(index) => j.List? && index < |j.items| && UnderOperator(j.items[index], path[1..])
  }

  /** The masker a path leads to: that of its last key, unless it ends in a list or at the top. */
  function KindAt(path: seq<Step>): Kind {
    if path != [] && path[|path| - 1].Key? then KindOf(path[|path| - 1].key) else Plain
  }

  /** Same kind of node, same keys, same length. */
  predicate SameShape(a: Json, b: Json) {
    && a.Container() == b.Container() && a.Dict? == b.Dict?
    && (a.Dict? ==> a.fields.Keys == b.fields.Keys)
    && (a.List? ==> |a.items| == |b.items|)
  }

  /** What the value at a path becomes: left alone under an operator snapshot, masked by its own key's
      masker if it is a scalar, and of the same shape if it is not. */
  predicate MaskedAt(v: Json, w: Json, kind: Kind, sheltered: bool, policy: Policy) {
    if sheltered then w == v
    else if v.Container() then SameShape(v, w)
    else Text.Some(w) == Apply(kind, v, policy)
  }

  /** A masked value of a scalar is a scalar. */
  lemma ApplyGivesScalars(kind: Kind, v: Json, policy: Policy)
    requires !v.Container()
    ensures Apply(kind, v, policy).Some? ==> !Apply(kind, v, policy).value.Container()
  {
    hide MaskName, MaskContact, MaskText, Strip, ContactShaped, SaysZero, Coordinates.Read, Coordinates.Shown,
        Coordinates.FloatShown;
  }

  /** The whole tree: every path of the payload is a path of the result and the other way round, and the
      value there is exactly what the rule makes of it. */
  lemma {:induction false} EveryPath(j: Json, path: seq<Step>, policy: Policy)
    requires Mask(j, policy).Some?
    ensures var r := Mask(j, policy).value;
      && (Lookup(j, path).Some? <==> Lookup(r, path).Some?)
      && (Lookup(j, path).Some? ==>
        MaskedAt(Lookup(j, path).value, Lookup(r, path).value, KindAt(path), UnderOperator(j, path), policy))
    decreases |path|
  {
    hide Apply, KindOf, Sheltered;
    var r := Mask(j, policy).value;
    if path != [] {
      var rest := path[1..];
      if j.Dict? && path[0].Key? && path[0].key in j.fields {
        FieldPath(j, path, policy);
      } else if j.List? && path[0].At? && path[0].index < |j.items| {
        var item := j.items[path[0].index];
        assert Mask(item, policy).Some? && r.items[path[0].index] == Mask(item, policy).value;
        EveryPath(item, rest, policy);
        LastStep(path);
        if rest == [] {
          PlainIsKept(item, policy);
        }
      }
    } else {
      PlainIsKept(j, policy);
    }
  }

  lemma LastStep(path: seq<Step>)
    requires |path| > 0
    ensures |path| > 1 ==> KindAt(path[1..]) == KindAt(path)
    ensures |path| == 1 ==> KindAt(path) == if path[0].Key? then KindOf(path[0].key) else Plain
    ensures |path| == 1 ==> path[1..] == []
  {
  }

  lemma PlainIsKept(j: Json, policy: Policy)
    requires Mask(j, policy).Some?
    ensures MaskedAt(j, Mask(j, policy).value, Plain, false, policy)
  {
  }

  lemma FieldPath(j: Json, path: seq<Step>, policy: Policy)
    requires Mask(j, policy).Some?
    requires path != [] && j.Dict? && path[0].Key? && path[0].key in j.fields
    ensures var r := Mask(j, policy).value;
      && (Lookup(j, path).Some? <==> Lookup(r, path).Some?)
      && (Lookup(j, path).Some? ==>
        MaskedAt(Lookup(j, path).value, Lookup(r, path).value, KindAt(path), UnderOperator(j, path), policy))
    decreases |path|, 0
  {
    hide Apply, KindOf, Sheltered;
    var key, rest := path[0].key, path[1..];
    var v, r := j.fields[key], Mask(j, policy).value;
    assert MaskField(key, v, policy).Some?;
    var w := MaskField(key, v, policy).value;
    assert r.fields[key] == w;
    LastStep(path);
    if !Sheltered(key, v) {
      if v.Container() {
        EveryPath(v, rest, policy);
        if rest == [] {
          PlainIsKept(v, policy);
        }
      } else {
        ApplyGivesScalars(KindOf(key), v, policy);
      }
    }
  }

  // ---- When it raises, and when a second pass changes nothing ----------------------------------------------

  /** The values that raise for a strict viewer: a name of nothing but white space, and a coordinate that
      is infinite, a signaling NaN, or at least 10^26 less half a hundredth. */
  predicate Raises(kind: Kind, v: Json, policy: Policy) {
    match kind
    case Name => v.Str? && v.s != "" && Strip(v.s) == "" && !policy.fullNames
    case Coordinate => !policy.exactCoordinates && NotRoundable(Coordinates.Read(TextOf(v)))
    case _ => false
  }

  predicate NotRoundable(read: Option<Coordinates.Reading>) {
    && read.Some?
    && (read.value.Infinite? || read.value.Signaling?
        || (read.value.Finite? && Coordinates.TooLarge(read.value.magnitude)))
  }

  lemma CoordinateRaises(v: Json, policy: Policy)
    ensures RoundCoordinate(v, policy).None? <==> NotRoundable(Coordinates.Read(TextOf(v)))
  {
    hide Coordinates.Read, Coordinates.Rounded, Coordinates.TooLarge, Coordinates.Capped;
    var read := Coordinates.Read(TextOf(v));
    Coordinates.NothingIsNoNumber();
    Coordinates.ReadIsNonNegative(TextOf(v));
    if read.Some? && read.value.Finite? {
      Coordinates.RaisesExactly(read.value.magnitude);
    }
  }

  lemma ApplyRaises(kind: Kind, v: Json, policy: Policy)
    ensures Apply(kind, v, policy).None? <==> Raises(kind, v, policy)
  {
    hide MaskName, MaskContact, MaskAddress, MaskEmail, MaskPhone, MaskIdentifier, MaskUpi, MaskLast4,
        ContactShaped, Strip,
      PhoneShaped, PhoneSettles, RoundCoordinate, NotRoundable;
    CoordinateRaises(v, policy);
    if kind == Name && v.Str? {
      MaskNameTwice(v.s);
      MaskContactTwice(v.s);
    }
    if kind == Label {
      MaskContactTwice(TextOf(v));
    }
  }

  /** Is there a value the masking raises on? */
  predicate SomeRaises(j: Json, policy: Policy)
    decreases j, 0
  {
    match j
    case List(items) => exists i | 0 <= i < |items| :: SomeRaises(items[i], policy)
    case Dict(fields) =>
      exists k | k in fields :: FieldRaises(k, fields[k], policy)
    case _ => false
  }

  predicate FieldRaises(key: string, v: Json, policy: Policy)
    decreases v, 1
  {
    !Sheltered(key, v) && if v.Container() then SomeRaises(v, policy) else Raises(KindOf(key), v, policy)
  }

  /** The payload is masked exactly when it holds no such value. */
  lemma {:induction false} MaskReturns(j: Json, policy: Policy)
    ensures Mask(j, policy).None? <==> SomeRaises(j, policy)
    decreases j
  {
    hide Apply, KindOf, Sheltered, Raises;
    match j {
      case List(items) =>
        forall i | 0 <= i < |items| ensures Mask(items[i], policy).None? <==> SomeRaises(items[i], policy) {
          MaskReturns(items[i], policy);
        }
      case Dict(fields) =>
        forall k | k in fields
          ensures MaskField(k, fields[k], policy).None? <==> FieldRaises(k, fields[k], policy)
        {
          MaskReturns(fields[k], policy);
          ApplyRaises(KindOf(k), fields[k], policy);
        }
      case _ =>
    }
  }

  /** The exact condition, value by value, for a second pass to change nothing. */
  predicate Settles(kind: Kind, v: Json, policy: Policy) {
    var t := TextOf(v);
    match kind
    case Phone => v.Falsy() || !(StartsWith(t, "+") && |t| < 4)
    case Identifier => v.Falsy() || !('@' !in t && StartsWith(t, "+") && |t| < 4)
    case Label => v.Falsy() || ('@' !in Strip(t) && PhoneShaped(Strip(t)) ==> PhoneSettles(Strip(t)))
    case Address => v.Falsy() || !OnlyPostcodes(t)
    case Name => policy.fullNames || !v.Str? || v.s == ""
        || ('@' !in Strip(t) && PhoneShaped(Strip(t)) ==> PhoneSettles(Strip(t)))
    case Coordinate => policy.exactCoordinates || !(v.Other? && v.number == Floating)
        || Coordinates.FloatFits(t, policy.floatText)
    case _ => true
  }

  lemma PhoneKeepsSomething(t: string)
    ensures t != "" ==> MaskPhone(t) != ""
  {
  }

  lemma EmailKeepsSomething(t: string)
    ensures MaskEmail(t) != ""
  {
  }

  /** Rounding a rounded coordinate changes nothing, whatever it says and in whatever type; a float only
      needs room for the float nearest to its hundredths. */
  lemma CoordinateTwice(v: Json, policy: Policy)
    requires !v.Container() && RoundCoordinate(v, policy).Some? && Coordinates.PrintsNearest(policy.floatText)
    ensures RoundCoordinate(RoundCoordinate(v, policy).value, policy) == RoundCoordinate(v, policy)
      <==> !(v.Other? && v.number == Floating) || Coordinates.FloatFits(TextOf(v), policy.floatText)
  {
    hide Coordinates.Read, Coordinates.Shown, Coordinates.FloatShown, Coordinates.FloatFits,
        Coordinates.PrintsNearest, SaysZero;
    var t := TextOf(v);
    Coordinates.NothingIsNoNumber();
    if Coordinates.Read(t).Some? {
      Coordinates.ShownTwice(t);
      Coordinates.FloatTwice(t, policy.floatText);
    } else {
      Coordinates.NoNumberFits(t, policy.floatText);
    }
  }

  /** Every float a payload can hold has that room. */
  lemma FloatsSettle(negative: bool, d: Decimals.Dec, policy: Policy)
    requires Coordinates.PrintsNearest(policy.floatText) && Coordinates.PrintsShort(policy.floatText)
    ensures var text := Coordinates.Sign(negative) + policy.floatText(d);
      Settles(Coordinate, Other(Floating, text, SaysZero(text)), policy)
  {
    hide Coordinates.FloatFits, SaysZero, PhoneShaped, PhoneSettles, OnlyPostcodes, Strip, StartsWith,
        Coordinates.PrintsNearest, Coordinates.PrintsShort;
    Coordinates.FloatsFit(negative, d, policy.floatText);
  }

  /** Masking a masked value changes nothing, exactly where the value settles. */
  lemma ApplyTwice(kind: Kind, v: Json, policy: Policy)
    requires !v.Container() && Apply(kind, v, policy).Some? && Coordinates.PrintsNearest(policy.floatText)
    ensures Apply(kind, Apply(kind, v, policy).value, policy) == Apply(kind, v, policy) <==> Settles(kind, v, policy)
  {
    hide MaskPhone, MaskEmail, MaskIdentifier, MaskContact, MaskName, MaskAddress, MaskLast4, MaskUpi,
        PhoneShaped, Strip,
      OnlyPostcodes, PhoneSettles, StartsWith, RoundCoordinate, Coordinates.FloatFits;
    var t := TextOf(v);
    match kind {
      case Phone => MaskPhoneTwice(t); PhoneKeepsSomething(t);
      case Email => MaskEmailTwice(t); EmailKeepsSomething(t);
      case Identifier => MaskIdentifierTwice(t); IdentifierKeepsSomething(t);
      case Label => MaskContactTwice(t); ContactOfNothing();
      case Address => MaskAddressTwice(t); AddressKeepsSomething(t);
      case Last4 => MaskLast4Twice(t); Last4KeepsSomething(t);
      case Upi => MaskUpiTwice(t); UpiKeepsSomething(t);
      case Coordinate =>
        if !policy.exactCoordinates {
          CoordinateTwice(v, policy);
        }
      case Name =>
        if v.Str? {
          MaskNameTwice(v.s);
          if policy.fullNames && ContactShaped(Strip(v.s)) {
            ContactTwice(v.s);
          }
        }
      case _ =>
    }
  }

  /** It does happen: the text of any magnitude too large, under a coordinate's name, raises out of the whole
      payload. */
  lemma LargeCoordinateRaises(d: Decimals.Dec, policy: Policy)
    requires !policy.exactCoordinates && d.coeff >= 0 && Coordinates.TooLarge(d)
    ensures Mask(Dict(map["lat" := Str(Text.Body(d))]), policy).None?
  {
    hide Text.Body, Coordinates.Read, Coordinates.TooLarge, Text.ReadUnsigned;
    Text.BodyRoundTrip(d);
    Text.BodyEndsWithDigit(d);
    Coordinates.ReadSigned(false, Text.Body(d));
    assert "" + Text.Body(d) == Text.Body(d);
    assert Coordinates.Read(Text.Body(d)) == Text.Some(Coordinates.Finite(false, d));
    var fields := map["lat" := Str(Text.Body(d))];
    LatIsCoordinate();
    assert "lat" in fields && FieldRaises("lat", fields["lat"], policy);
    MaskReturns(Dict(fields), policy);
  }

  lemma LatIsCoordinate()
    ensures KindOf("lat") == Coordinate && "lat" !in OPERATOR_IDENTITY_KEYS
  {
  }

  /** A latitude of "1E+30" is one. */
  lemma ThirtyZerosRaise(policy: Policy)
    requires !policy.exactCoordinates
    ensures Mask(Dict(map["lat" := Str("1E+30")]), policy).None?
  {
    hide Mask;
    ThirtyZeros();
    LargeCoordinateRaises(Decimals.Dec(1, 30), policy);
  }

  lemma ThirtyZeros()
    ensures Text.Body(Decimals.Dec(1, 30)) == "1E+30" && Coordinates.TooLarge(Decimals.Dec(1, 30))
  {
    hide Text.Body, Coordinates.TooLarge;
    PowerIsTooLarge(30);
    PowerText(30);
    ThirtyText();
  }

  lemma PowerIsTooLarge(n: nat)
    requires n >= 26
    ensures Coordinates.TooLarge(Decimals.Dec(1, n))
  {
    hide Decimals.Pow10;
    Decimals.Pow10Monotone(Decimals.PRECISION, n + 2);
  }

  lemma PowerText(n: nat)
    requires n > 0
    ensures Text.Body(Decimals.Dec(1, n)) == "1E+" + Text.NatText(n)
  {
    hide Text.NatText, Text.Body, Text.ExponentPart;
    OneText();
    var d := Decimals.Dec(1, n);
    assert Text.Dot(d) == 1;
    WholeBody(d);
    PowerExponent(d);
    Glue(Text.NatText(n));
  }

  lemma WholeBody(d: Decimals.Dec)
    requires Text.Dot(d) == |Text.NatText(Decimals.Abs(d.coeff))|
    ensures Text.Body(d) == Text.NatText(Decimals.Abs(d.coeff)) + Text.ExponentPart(d)
  {
    hide Text.NatText, Text.ExponentPart, Text.Dot;
  }

  lemma PowerExponent(d: Decimals.Dec)
    requires d.exp > 0 && Text.Dot(d) == 1 && |Text.NatText(Decimals.Abs(d.coeff))| == 1
    ensures Text.ExponentPart(d) == "E" + ("+" + Text.NatText(d.exp))
  {
    hide Text.NatText, Text.Dot;
  }

  lemma Glue(digits: string)
    ensures "1" + ("E" + ("+" + digits)) == "1E+" + digits
  {
  }

  lemma OneText()
    ensures Text.NatText(1) == "1" && Text.Zeros(0) == ""
  {
  }

  lemma ThirtyText()
    ensures Text.NatText(30) == "30"
  {
    assert Text.NatText(3) == "3";
  }

  lemma ContactOfNothing()
    ensures MaskContact("") == Text.Some("")
  {
    PhoneShapedIs("");
  }

  lemma AddressKeepsSomething(t: string)
    ensures MaskAddress(t) != ""
  {
    hide IsCoordinates, Parts, Survivors, Strip, Join;
  }

  lemma IdentifierKeepsSomething(t: string)
    ensures t != "" ==> MaskIdentifier(t) != ""
  {
  }

  lemma Last4KeepsSomething(t: string)
    ensures MaskLast4(t) != ""
  {
  }

  lemma UpiKeepsSomething(t: string)
    ensures MaskUpi(t) != ""
  {
  }

  /** Every value a masker reaches settles. */
  predicate AllSettle(j: Json, policy: Policy)
    decreases j, 0
  {
    match j
    case List(items) => forall i | 0 <= i < |items| :: AllSettle(items[i], policy)
    case Dict(fields) => forall k | k in fields :: FieldSettles(k, fields[k], policy)
    case _ => true
  }

  predicate FieldSettles(key: string, v: Json, policy: Policy)
    decreases v, 1
  {
    !Sheltered(key, v) ==> if v.Container() then AllSettle(v, policy) else Settles(KindOf(key), v, policy)
  }

  /** Masking a masked payload changes nothing exactly where every value a masker reaches settles. */
  lemma {:induction false} MaskTwice(j: Json, policy: Policy)
    requires Mask(j, policy).Some? && Coordinates.PrintsNearest(policy.floatText)
    ensures Mask(Mask(j, policy).value, policy) == Mask(j, policy) <==> AllSettle(j, policy)
    decreases j, 0
  {
    hide Apply, KindOf, Sheltered, Settles, Coordinates.PrintsNearest;
    match j {
      case List(items) =>
        var r := Mask(j, policy).value;
        forall i | 0 <= i < |items|
          ensures Mask(r.items[i], policy) == Text.Some(r.items[i]) <==> AllSettle(items[i], policy)
        {
          MaskTwice(items[i], policy);
        }
        ListFixed(r, policy);
      case Dict(fields) =>
        var r := Mask(j, policy).value;
        forall k | k in fields
          ensures MaskField(k, r.fields[k], policy) == Text.Some(r.fields[k]) <==> FieldSettles(k, fields[k], policy)
        {
          FieldTwice(k, fields[k], policy);
        }
        DictFixed(r, policy);
      case _ =>
    }
  }

  lemma ListFixed(r: Json, policy: Policy)
    requires r.List?
    ensures Mask(r, policy) == Text.Some(r) <==>
      forall i :: 0 <= i < |r.items| ==> Mask(r.items[i], policy) == Text.Some(r.items[i])
  {
    if forall i :: 0 <= i < |r.items| ==> Mask(r.items[i], policy) == Text.Some(r.items[i]) {
      assert Mask(r, policy).value.items == r.items;
    }
    if Mask(r, policy) == Text.Some(r) {
      forall i | 0 <= i < |r.items| ensures Mask(r.items[i], policy) == Text.Some(r.items[i]) {
        assert Mask(r, policy).value.items[i] == r.items[i];
      }
    }
  }

  lemma DictFixed(r: Json, policy: Policy)
    requires r.Dict?
    ensures Mask(r, policy) == Text.Some(r) <==>
      forall k :: k in r.fields ==> MaskField(k, r.fields[k], policy) == Text.Some(r.fields[k])
  {
    if forall k :: k in r.fields ==> MaskField(k, r.fields[k], policy) == Text.Some(r.fields[k]) {
      assert Mask(r, policy).value.fields == r.fields;
    }
    if Mask(r, policy) == Text.Some(r) {
      forall k | k in r.fields ensures MaskField(k, r.fields[k], policy) == Text.Some(r.fields[k]) {
        assert Mask(r, policy).value.fields[k] == r.fields[k];
      }
    }
  }

  lemma FieldTwice(key: string, v: Json, policy: Policy)
    requires MaskField(key, v, policy).Some? && Coordinates.PrintsNearest(policy.floatText)
    ensures var w := MaskField(key, v, policy).value;
      MaskField(key, w, policy) == Text.Some(w) <==> FieldSettles(key, v, policy)
    decreases v, 1
  {
    hide Apply, KindOf, Settles, SomeRaises, Coordinates.PrintsNearest;
    if !Sheltered(key, v) {
      if v.Container() {
        MaskTwice(v, policy);
        PlainIsKept(v, policy);
      } else {
        ApplyTwice(KindOf(key), v, policy);
        ApplyGivesScalars(KindOf(key), v, policy);
      }
    }
  }

  // ---- The walk itself -------------------------------------------------------------------------------------

  /** What a walk that raised may have left of a tree: every part masked whole, untouched, or in between in
      the same way. */
  predicate Partly(j: Json, left: Json, policy: Policy)
    decreases j, 0
  {
    || left == j || Mask(j, policy) == Text.Some(left)
    || (j.List? && left.List? && |left.items| == |j.items|
        && forall i | 0 <= i < |j.items| :: Partly(j.items[i], left.items[i], policy))
    || (j.Dict? && left.Dict? && left.fields.Keys == j.fields.Keys
        && forall k | k in j.fields :: PartlyField(k, j.fields[k], left.fields[k], policy))
  }

  predicate PartlyField(key: string, v: Json, w: Json, policy: Policy)
    decreases v, 1
  {
    w == v || MaskField(key, v, policy) == Text.Some(w) || (!Sheltered(key, v) && v.Container() && Partly(v, w, policy))
  }

  /** The walk over items and keys, replacing values as it goes; keys may come in any order. `left` is the
      payload as the walk leaves it, whether it ends or raises. */
  method MaskPayload(payload: Json, policy: Policy) returns (r: Option<Json>, left: Json)
    ensures r == Mask(payload, policy)
    ensures r.Some? ==> left == r.value
    ensures r.None? ==> Partly(payload, left, policy)
    decreases payload, 0
  {
    hide Partly, PartlyField, MaskField;
    match payload {
      case List(items) =>
        var current := items;
        for i := 0 to |items|
          invariant |current| == |items| && current[i..] == items[i..]
          invariant forall j :: 0 <= j < i ==> Mask(items[j], policy) == Text.Some(current[j])
        {
          if items[i].Container() {
            var masked, rest := MaskPayload(items[i], policy);
            current := current[i := rest];
            if masked.None? {
              ListLeft(items, current, i, policy);
              return Text.None, List(current);
            }
          }
        }
        AllItems(items, current, policy);
        r, left := Text.Some(List(current)), List(current);
      case Dict(fields) =>
        var current := fields;
        var todo := fields.Keys;
        while todo != {}
          invariant todo <= fields.Keys == current.Keys
          invariant forall k :: k in todo ==> current[k] == fields[k]
          invariant forall k :: k in fields && k !in todo ==> MaskField(k, fields[k], policy) == Text.Some(current[k])
          decreases |todo|
        {
          var key :| key in todo;
          var masked, rest := MaskValue(key, fields[key], policy);
          current := current[key := rest];
          if masked.None? {
            DictLeft(fields, current, todo, key, policy);
            return Text.None, Dict(current);
          }
          todo := todo - {key};
        }
        AllFields(fields, current, policy);
        r, left := Text.Some(Dict(current)), Dict(current);
      case _ => r, left := Text.Some(payload), payload;
    }
  }

  lemma ListLeft(items: seq<Json>, current: seq<Json>, i: nat, policy: Policy)
    requires |current| == |items| && i < |items| && current[i + 1..] == items[i + 1..]
    requires forall j :: 0 <= j < i ==> Mask(items[j], policy) == Text.Some(current[j])
    requires Partly(items[i], current[i], policy)
    ensures Partly(List(items), List(current), policy)
  {
    hide Mask;
    forall j | 0 <= j < |items| ensures Partly(items[j], current[j], policy) {
      if j > i {
        assert current[j] == current[i + 1..][j - i - 1] == items[i + 1..][j - i - 1];
      }
    }
  }

  lemma DictLeft(fields: map<string, Json>, current: map<string, Json>, todo: set<string>, key: string, policy: Policy)
    requires current.Keys == fields.Keys && todo <= fields.Keys && key in todo
    requires forall k :: k in todo && k != key ==> current[k] == fields[k]
    requires forall k :: k in fields && k !in todo ==> MaskField(k, fields[k], policy) == Text.Some(current[k])
    requires PartlyField(key, fields[key], current[key], policy)
    ensures Partly(Dict(fields), Dict(current), policy)
  {
    hide Mask;
    assert forall k :: k in fields ==> PartlyField(k, fields[k], current[k], policy);
  }

  method MaskValue(key: string, value: Json, policy: Policy) returns (r: Option<Json>, left: Json)
    ensures r == MaskField(key, value, policy)
    ensures r.Some? ==> left == r.value
    ensures r.None? ==> PartlyField(key, value, left, policy)
    decreases value, 1
  {
    if key in OPERATOR_IDENTITY_KEYS && value.Dict? {
      return Text.Some(value), value;
    }
    if value.Container() {
      r, left := MaskPayload(value, policy);
    } else {
      r := Apply(KindOf(key), value, policy);
      left := if r.Some? then r.value else value;
    }
  }

  /** A scalar of a tree left by a walk that raised: as it was, or exactly what its masker makes of it. */
  predicate LeftAt(v: Json, w: Json, kind: Kind, sheltered: bool, policy: Policy) {
    if v.Container() then SameShape(v, w) && (sheltered ==> w == v)
    else w == v || (!sheltered && Text.Some(w) == Apply(kind, v, policy))
  }

  /** So a payload half masked by an exception still has every path it had, and nothing in it is half masked
      itself. */
  lemma {:induction false} EveryPathLeft(j: Json, left: Json, path: seq<Step>, policy: Policy)
    requires Partly(j, left, policy)
    ensures Lookup(j, path).Some? <==> Lookup(left, path).Some?
    ensures Lookup(j, path).Some? ==>
      LeftAt(Lookup(j, path).value, Lookup(left, path).value, KindAt(path), UnderOperator(j, path), policy)
    decreases |path|, 2
  {
    hide Apply, KindOf, Sheltered, Partly;
    if left == j {
    } else if Mask(j, policy) == Text.Some(left) {
      EveryPath(j, path, policy);
    } else if path == [] {
      PartlyShape(j, left, policy);
    } else {
      PartlyShape(j, left, policy);
      LastStep(path);
      if j.Dict? && path[0].Key? && path[0].key in j.fields {
        FieldLeft(j.fields[path[0].key], left.fields[path[0].key], path, policy);
      } else if j.List? && path[0].At? && path[0].index < |j.items| {
        EveryPathLeft(j.items[path[0].index], left.items[path[0].index], path[1..], policy);
      }
    }
  }

  lemma PartlyShape(j: Json, left: Json, policy: Policy)
    requires Partly(j, left, policy) && left != j && Mask(j, policy) != Text.Some(left)
    ensures j.Container() && SameShape(j, left)
    ensures j.List? ==> forall i :: 0 <= i < |j.items| ==> Partly(j.items[i], left.items[i], policy)
    ensures j.Dict? ==> forall k :: k in j.fields ==> PartlyField(k, j.fields[k], left.fields[k], policy)
  {
    hide Mask;
  }

  lemma FieldLeft(v: Json, w: Json, path: seq<Step>, policy: Policy)
    requires path != [] && path[0].Key? && PartlyField(path[0].key, v, w, policy)
    ensures var rest, sheltered := path[1..], Sheltered(path[0].key, v) || UnderOperator(v, path[1..]);
      && (Lookup(v, rest).Some? <==> Lookup(w, rest).Some?)
      && (Lookup(v, rest).Some? ==>
          LeftAt(Lookup(v, rest).value, Lookup(w, rest).value, KindAt(path), sheltered, policy))
    decreases |path|, 1
  {
    hide Apply, KindOf, Sheltered, Partly;
    var key, rest := path[0].key, path[1..];
    LastStep(path);
    if w == v {
    } else if MaskField(key, v, policy) == Text.Some(w) {
      MaskedFieldPath(key, v, w, path, policy);
    } else {
      EveryPathLeft(v, w, rest, policy);
    }
  }

  lemma MaskedFieldPath(key: string, v: Json, w: Json, path: seq<Step>, policy: Policy)
    requires path != [] && path[0] == Key(key) && MaskField(key, v, policy) == Text.Some(w)
    ensures var rest, sheltered := path[1..], Sheltered(key, v) || UnderOperator(v, path[1..]);
      && (Lookup(v, rest).Some? <==> Lookup(w, rest).Some?)
      && (Lookup(v, rest).Some? ==>
          LeftAt(Lookup(v, rest).value, Lookup(w, rest).value, KindAt(path), sheltered, policy))
  {
    hide Apply, KindOf, Sheltered;
    var j := Dict(map[key := v]);
    AllFields(j.fields, map[key := w], policy);
    EveryPath(j, path, policy);
    assert Lookup(j, path) == Lookup(v, path[1..]);
    assert Lookup(Mask(j, policy).value, path) == Lookup(w, path[1..]);
  }

  lemma AllItems(items: seq<Json>, current: seq<Json>, policy: Policy)
    requires |current| == |items| && forall j :: 0 <= j < |items| ==> Mask(items[j], policy) == Text.Some(current[j])
    ensures Mask(List(items), policy) == Text.Some(List(current))
  {
    assert Mask(List(items), policy).value.items == current;
  }

  lemma AllFields(fields: map<string, Json>, current: map<string, Json>, policy: Policy)
    requires fields.Keys == current.Keys && forall k :: k in fields ==>
      MaskField(k, fields[k], policy) == Text.Some(current[k])
    ensures Mask(Dict(fields), policy) == Text.Some(Dict(current))
  {
    assert Mask(Dict(fields), policy).value.fields == current;
  }
}
