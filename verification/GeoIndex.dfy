/** The driver geo index: one sorted set of members per vehicle type, a heartbeat per driver, and the
    active-trip keys that keep a busy driver out of the index.

    Every Redis command is one atomic step; the scan order of the index keys is the order of
    `indexes`. A sorted set that loses its last member is gone. */
module GeoIndex {
  import opened GeoSearch
  import Strings
  import Text = DecimalText

  type Option<+T> = Text.Option<T>

  datatype Entry = Entry(member: string, lng: real, lat: real)

  datatype Index = Index(key: string, entries: seq<Entry>)

  const GEO_KEY_PREFIX: string := "drivers:geo:"

  // ---- Members and keys --------------------------------------------------------------------------

  function MemberPrefix(id: string): string {
    "driver:" + id + ":"
  }

  function MemberOf(id: string, vehicleType: string): string {
    MemberPrefix(id) + vehicleType
  }

  function KeyFor(vehicleType: string): string {
    GEO_KEY_PREFIX + vehicleType
  }

  /** The text before the first colon. */
  function BeforeColon(s: string): (t: string)
    ensures t <= s && ':' !in t
    ensures |t| < |s| ==> s[|t|] == ':'
  {
    if s == "" || s[0] == ':' then "" else [s[0]] + BeforeColon(s[1..])
  }

  /** The second of the parts between colons; a member without a colon stands for itself. */
  function IdOf(member: string): string {
    var first := BeforeColon(member);
    if |first| == |member| then member else BeforeColon(member[|first| + 1..])
  }

  lemma {:induction false} BeforeColonOf(id: string, rest: string)
    requires ':' !in id
    ensures BeforeColon(id + ":" + rest) == id
  {
    if id == "" {
      assert (id + ":" + rest)[0] == ':';
    } else {
      BeforeColonOf(id[1..], rest);
      assert (id + ":" + rest)[1..] == id[1..] + ":" + rest;
      assert (id + ":" + rest)[0] == id[0] && id[0] in id;
    }
  }

  /** Of any member, the id is what stands between its first two colons, or after its only one, or all of it. */
  lemma IdIs(kind: string, id: string, rest: string)
    requires ':' !in kind && ':' !in id
    ensures IdOf(kind + ":" + id + ":" + rest) == IdOf(kind + ":" + id) == id && IdOf(kind) == kind
  {
    hide IdOf;
    AfterFirstColon(kind, id);
    AfterFirstColon(kind, id + ":" + rest);
    WithoutColon(kind);
    WithoutColon(id);
    BeforeColonOf(id, rest);
    assert kind + ":" + id + ":" + rest == kind + ":" + (id + ":" + rest);
  }

  lemma AfterFirstColon(kind: string, tail: string)
    requires ':' !in kind
    ensures IdOf(kind + ":" + tail) == BeforeColon(tail)
  {
    hide BeforeColon;
    BeforeColonOf(kind, tail);
    assert (kind + ":" + tail)[|kind| + 1..] == tail;
  }

  lemma WithoutColon(s: string)
    requires ':' !in s
    ensures BeforeColon(s) == s && IdOf(s) == s
  {
  }

  /** A member gives its driver's id back. */
  lemma MemberRoundTrip(id: string, vehicleType: string)
    requires ':' !in id
    ensures IdOf(MemberOf(id, vehicleType)) == id
  {
    var member := MemberOf(id, vehicleType);
    assert member == "driver" + ":" + (id + ":" + vehicleType);
    BeforeColonOf("driver", id + ":" + vehicleType);
    assert member[7..] == id + ":" + vehicleType;
    BeforeColonOf(id, vehicleType);
  }

  /** The removal prefix of one driver never matches another's member, whichever id is a prefix of
      the other. */
  lemma PrefixNamesOneDriver(id: string, other: string, vehicleType: string)
    requires ':' !in id && ':' !in other
    ensures Strings.StartsWith(MemberOf(other, vehicleType), MemberPrefix(id)) <==> other == id
  {
    var member := MemberOf(other, vehicleType);
    MemberRoundTrip(other, vehicleType);
    if Strings.StartsWith(member, MemberPrefix(id)) {
      var rest := member[|MemberPrefix(id)|..];
      assert member == MemberOf(id, rest);
      MemberRoundTrip(id, rest);
    }
  }

  /** Ids as the database has them: decimal numbers, so without a colon. */
  lemma NumericIdsHaveNoColon(n: nat)
    ensures ':' !in Text.NatText(n)
  {
  }

  // ---- What a command does to the indexes ------------------------------------------------------------

  predicate UniqueMembers(entries: seq<Entry>) {
    forall i, j :: 0 <= i < j < |entries| ==> entries[i].member != entries[j].member
  }

  predicate UniqueKeys(ixs: seq<Index>) {
    forall i, j :: 0 <= i < j < |ixs| ==> ixs[i].key != ixs[j].key
  }

  predicate ValidIndexes(ixs: seq<Index>) {
    && UniqueKeys(ixs)
    && forall i :: 0 <= i < |ixs| ==> UniqueMembers(ixs[i].entries) && ixs[i].entries != []
  }

  predicate InIndex(ixs: seq<Index>, key: string, e: Entry) {
    exists i :: 0 <= i < |ixs| && ixs[i].key == key && e in ixs[i].entries
  }

  /** Why a member is removed: its heartbeat has lapsed, or its driver is being removed. */
  datatype Rule = Lapsed(alive: set<string>) | OfDriver(id: string)

  predicate Doomed(rule: Rule, member: string) {
    match rule
    case Lapsed(alive) => IdOf(member) !in alive
    case OfDriver(id) => Strings.StartsWith(member, MemberPrefix(id))
  }

  function Without(entries: seq<Entry>, gone: set<string>): (r: seq<Entry>)
    ensures forall e :: e in r <==> e in entries && e.member !in gone
  {
    if entries == [] then []
    else if entries[0].member in gone then Without(entries[1..], gone)
    else [entries[0]] + Without(entries[1..], gone)
  }

  function Survivors(entries: seq<Entry>, rule: Rule): (r: seq<Entry>)
    ensures forall e :: e in r <==> e in entries && !Doomed(rule, e.member)
  {
    if entries == [] then []
    else if Doomed(rule, entries[0].member) then Survivors(entries[1..], rule)
    else [entries[0]] + Survivors(entries[1..], rule)
  }

  function IfAny(key: string, entries: seq<Entry>): seq<Index> {
    if entries == [] then [] else [Index(key, entries)]
  }

  function ZRem(ixs: seq<Index>, key: string, gone: set<string>): seq<Index> {
    if ixs == [] then []
    else if ixs[0].key == key then IfAny(key, Without(ixs[0].entries, gone)) + ixs[1..]
    else [ixs[0]] + ZRem(ixs[1..], key, gone)
  }

  /** The doomed members leave every index. */
  function Purge(ixs: seq<Index>, rule: Rule): seq<Index> {
    if ixs == [] then [] else IfAny(ixs[0].key, Survivors(ixs[0].entries, rule)) + Purge(ixs[1..], rule)
  }

  function DoomedMembers(entries: seq<Entry>, rule: Rule): set<string> {
    set e | e in entries && Doomed(rule, e.member) :: e.member
  }

  lemma {:induction false} WithoutDoomed(entries: seq<Entry>, rule: Rule, gone: set<string>)
    requires forall e :: e in entries ==> (e.member in gone <==> Doomed(rule, e.member))
    ensures Without(entries, gone) == Survivors(entries, rule)
  {
    if entries != [] {
      WithoutDoomed(entries[1..], rule, gone);
    }
  }

  lemma {:induction false} WithoutTwice(entries: seq<Entry>, a: set<string>, b: set<string>)
    ensures Without(Without(entries, a), b) == Without(entries, a + b)
  {
    if entries != [] {
      WithoutTwice(entries[1..], a, b);
      if entries[0].member !in a {
        assert ([entries[0]] + Without(entries[1..], a))[1..] == Without(entries[1..], a);
      }
    }
  }

  lemma {:induction false} WithoutNone(entries: seq<Entry>)
    ensures Without(entries, {}) == entries
  {
    if entries != [] {
      WithoutNone(entries[1..]);
    }
  }

  lemma {:induction false} WithoutUnique(entries: seq<Entry>, gone: set<string>)
    requires UniqueMembers(entries)
    ensures UniqueMembers(Without(entries, gone))
  {
    if entries != [] {
      WithoutUnique(entries[1..], gone);
      var rest := Without(entries[1..], gone);
      forall j | 0 <= j < |rest| ensures rest[j].member != entries[0].member {
        assert rest[j] in entries[1..];
      }
    }
  }

  /** Removing from a key touches that key's set only. */
  lemma {:induction false} ZRemAt(before: seq<Index>, ix: Index, after: seq<Index>, gone: set<string>)
    requires forall i :: 0 <= i < |before| ==> before[i].key != ix.key
    ensures ZRem(before + [ix] + after, ix.key, gone) == before + IfAny(ix.key, Without(ix.entries, gone)) + after
  {
    if before == [] {
      assert [] + [ix] + after == [ix] + after;
      assert [] + IfAny(ix.key, Without(ix.entries, gone)) == IfAny(ix.key, Without(ix.entries, gone));
      assert ([ix] + after)[1..] == after;
    } else {
      ZRemAt(before[1..], ix, after, gone);
      assert (before + [ix] + after)[1..] == before[1..] + [ix] + after;
      assert before == [before[0]] + before[1..];
      assert [before[0]] + (before[1..] + IfAny(ix.key, Without(ix.entries, gone)) + after)
        == before + IfAny(ix.key, Without(ix.entries, gone)) + after;
    }
  }

  lemma {:induction false} ZRemAbsent(ixs: seq<Index>, key: string, gone: set<string>)
    requires forall i :: 0 <= i < |ixs| ==> ixs[i].key != key
    ensures ZRem(ixs, key, gone) == ixs
  {
    if ixs != [] {
      ZRemAbsent(ixs[1..], key, gone);
    }
  }

  lemma {:induction false} PurgeSnoc(ixs: seq<Index>, ix: Index, rule: Rule)
    ensures Purge(ixs + [ix], rule) == Purge(ixs, rule) + IfAny(ix.key, Survivors(ix.entries, rule))
  {
    if ixs == [] {
      assert [] + [ix] == [ix];
      assert [ix][1..] == [];
      assert Purge([ix], rule) == IfAny(ix.key, Survivors(ix.entries, rule)) + Purge([], rule);
    } else {
      PurgeSnoc(ixs[1..], ix, rule);
      assert (ixs + [ix])[1..] == ixs[1..] + [ix];
      var head := IfAny(ixs[0].key, Survivors(ixs[0].entries, rule));
      assert head + (Purge(ixs[1..], rule) + IfAny(ix.key, Survivors(ix.entries, rule)))
        == head + Purge(ixs[1..], rule) + IfAny(ix.key, Survivors(ix.entries, rule));
    }
  }

  lemma {:induction false} PurgeKeys(ixs: seq<Index>, rule: Rule, key: string)
    requires forall i :: 0 <= i < |ixs| ==> ixs[i].key != key
    ensures forall i :: 0 <= i < |Purge(ixs, rule)| ==> Purge(ixs, rule)[i].key != key
  {
    if ixs != [] {
      PurgeKeys(ixs[1..], rule, key);
    }
  }

  lemma {:induction false} PurgeValid(ixs: seq<Index>, rule: Rule)
    requires ValidIndexes(ixs)
    ensures ValidIndexes(Purge(ixs, rule))
  {
    if ixs != [] {
      PurgeValid(ixs[1..], rule);
      PurgeKeys(ixs[1..], rule, ixs[0].key);
      var entries := ixs[0].entries;
      var gone := DoomedMembers(entries, rule);
      WithoutDoomed(entries, rule, gone);
      WithoutUnique(entries, gone);
    }
  }

  /** All and only the doomed members are gone, from every index. */
  lemma {:induction false} PurgeIsExact(ixs: seq<Index>, rule: Rule, key: string, e: Entry)
    ensures InIndex(Purge(ixs, rule), key, e) <==> InIndex(ixs, key, e) && !Doomed(rule, e.member)
  {
    if ixs != [] {
      PurgeIsExact(ixs[1..], rule, key, e);
      var head := IfAny(ixs[0].key, Survivors(ixs[0].entries, rule));
      InConcat(head, Purge(ixs[1..], rule), key, e);
      InConcat([ixs[0]], ixs[1..], key, e);
      assert ixs == [ixs[0]] + ixs[1..];
      InOne(ixs[0], key, e);
      if head != [] {
        InOne(head[0], key, e);
      }
    }
  }

  /** Removing a driver takes exactly that driver's members out of every index, under whatever vehicle
      type, and leaves every other driver's. */
  lemma RemovesOneDriver(ixs: seq<Index>, id: string, key: string, other: string, vehicleType: string, lng: real,
      lat: real)
    requires ':' !in id && ':' !in other
    ensures var e := Entry(MemberOf(other, vehicleType), lng, lat);
      InIndex(Purge(ixs, OfDriver(id)), key, e) <==> InIndex(ixs, key, e) && other != id
  {
    PurgeIsExact(ixs, OfDriver(id), key, Entry(MemberOf(other, vehicleType), lng, lat));
    PrefixNamesOneDriver(id, other, vehicleType);
  }

  /** A sweep takes out exactly the members whose driver has no heartbeat. */
  lemma SweepsTheLapsed(ixs: seq<Index>, alive: set<string>, key: string, id: string, vehicleType: string,
      lng: real, lat: real)
    requires ':' !in id
    ensures var e := Entry(MemberOf(id, vehicleType), lng, lat);
      InIndex(Purge(ixs, Lapsed(alive)), key, e) <==> InIndex(ixs, key, e) && id in alive
  {
    PurgeIsExact(ixs, Lapsed(alive), key, Entry(MemberOf(id, vehicleType), lng, lat));
    MemberRoundTrip(id, vehicleType);
  }

  lemma InOne(ix: Index, key: string, e: Entry)
    ensures InIndex([ix], key, e) <==> ix.key == key && e in ix.entries
  {
    if ix.key == key && e in ix.entries {
      assert [ix][0].key == key;
    }
  }

  lemma InConcat(a: seq<Index>, b: seq<Index>, key: string, e: Entry)
    ensures InIndex(a + b, key, e) <==> InIndex(a, key, e) || InIndex(b, key, e)
  {
    if InIndex(a, key, e) {
      var i :| 0 <= i < |a| && a[i].key == key && e in a[i].entries;
      assert (a + b)[i] == a[i];
    }
    if InIndex(b, key, e) {
      var i :| 0 <= i < |b| && b[i].key == key && e in b[i].entries;
      assert (a + b)[|a| + i] == b[i];
    }
  }

  /** ZREM on one key, read as a set of (key, member) pairs. */
  lemma {:induction false} ZRemIsExact(ixs: seq<Index>, key: string, gone: set<string>, k: string, e: Entry)
    requires UniqueKeys(ixs)
    ensures InIndex(ZRem(ixs, key, gone), k, e) <==> InIndex(ixs, k, e) && !(k == key && e.member in gone)
  {
    if ixs != [] {
      assert ixs == [ixs[0]] + ixs[1..];
      InConcat([ixs[0]], ixs[1..], k, e);
      InOne(ixs[0], k, e);
      if ixs[0].key == key {
        var head := IfAny(key, Without(ixs[0].entries, gone));
        InConcat(head, ixs[1..], k, e);
        if head != [] {
          InOne(head[0], k, e);
        }
      } else {
        ZRemIsExact(ixs[1..], key, gone, k, e);
        InConcat([ixs[0]], ZRem(ixs[1..], key, gone), k, e);
      }
    }
  }

  // ---- Adding --------------------------------------------------------------------------------------

  function Put(entries: seq<Entry>, e: Entry): seq<Entry> {
    if entries == [] then [e]
    else if entries[0].member == e.member then [e] + entries[1..]
    else [entries[0]] + Put(entries[1..], e)
  }

  function GeoAdd(ixs: seq<Index>, key: string, e: Entry): seq<Index> {
    if ixs == [] then [Index(key, [e])]
    else if ixs[0].key == key then [Index(key, Put(ixs[0].entries, e))] + ixs[1..]
    else [ixs[0]] + GeoAdd(ixs[1..], key, e)
  }

  lemma {:induction false} PutIsExact(entries: seq<Entry>, e: Entry)
    requires UniqueMembers(entries)
    ensures UniqueMembers(Put(entries, e)) && Put(entries, e) != []
    ensures forall x :: x in Put(entries, e) <==> x == e || (x in entries && x.member != e.member)
  {
    if entries != [] {
      assert entries == [entries[0]] + entries[1..];
      if entries[0].member != e.member {
        PutIsExact(entries[1..], e);
        var rest := Put(entries[1..], e);
        forall j | 0 <= j < |rest| ensures rest[j].member != entries[0].member {
          assert rest[j] in rest;
        }
      } else {
        forall x | x in entries[1..] ensures x.member != e.member {
        }
      }
    }
  }

  lemma {:induction false} GeoAddKeys(ixs: seq<Index>, key: string, e: Entry, k: string)
    requires k != key && forall i :: 0 <= i < |ixs| ==> ixs[i].key != k
    ensures forall i :: 0 <= i < |GeoAdd(ixs, key, e)| ==> GeoAdd(ixs, key, e)[i].key != k
  {
    if ixs != [] && ixs[0].key != key {
      GeoAddKeys(ixs[1..], key, e, k);
    }
  }

  lemma {:induction false} GeoAddValid(ixs: seq<Index>, key: string, e: Entry)
    requires ValidIndexes(ixs)
    ensures ValidIndexes(GeoAdd(ixs, key, e))
  {
    if ixs != [] {
      PutIsExact(ixs[0].entries, e);
      if ixs[0].key != key {
        GeoAddValid(ixs[1..], key, e);
        GeoAddKeys(ixs[1..], key, e, ixs[0].key);
      }
    }
  }

  /** GEOADD, read as a map from (key, member) to a position: the new position and no other. */
  lemma {:induction false} GeoAddIsExact(ixs: seq<Index>, key: string, e: Entry, k: string, x: Entry)
    requires ValidIndexes(ixs)
    ensures InIndex(GeoAdd(ixs, key, e), k, x) <==>
      (k == key && x == e) || (InIndex(ixs, k, x) && !(k == key && x.member == e.member))
  {
    if ixs == [] {
      InOne(Index(key, [e]), k, x);
    } else {
      assert ixs == [ixs[0]] + ixs[1..];
      InConcat([ixs[0]], ixs[1..], k, x);
      InOne(ixs[0], k, x);
      if ixs[0].key == key {
        var head := Index(key, Put(ixs[0].entries, e));
        PutIsExact(ixs[0].entries, e);
        InConcat([head], ixs[1..], k, x);
        InOne(head, k, x);
      } else {
        GeoAddIsExact(ixs[1..], key, e, k, x);
        InConcat([ixs[0]], GeoAdd(ixs[1..], key, e), k, x);
      }
    }
  }

  lemma {:induction false} ZRemKeys(ixs: seq<Index>, key: string, gone: set<string>, k: string)
    requires forall i :: 0 <= i < |ixs| ==> ixs[i].key != k
    ensures forall i :: 0 <= i < |ZRem(ixs, key, gone)| ==> ZRem(ixs, key, gone)[i].key != k
  {
    if ixs != [] && ixs[0].key != key {
      ZRemKeys(ixs[1..], key, gone, k);
    }
  }

  lemma {:induction false} ZRemValid(ixs: seq<Index>, key: string, gone: set<string>)
    requires ValidIndexes(ixs)
    ensures ValidIndexes(ZRem(ixs, key, gone))
  {
    if ixs != [] {
      if ixs[0].key == key {
        WithoutUnique(ixs[0].entries, gone);
      } else {
        ZRemValid(ixs[1..], key, gone);
        ZRemKeys(ixs[1..], key, gone, ixs[0].key);
      }
    }
  }

  // ---- Pings ---------------------------------------------------------------------------------------

  /** No index holds an entry of the driver. */
  ghost predicate Absent(ixs: seq<Index>, id: string) {
    forall k, e :: InIndex(ixs, k, e) ==> IdOf(e.member) != id
  }

  /** All the driver's entries are under one key and one member name. */
  ghost predicate OnlyAt(ixs: seq<Index>, id: string, key: string, member: string) {
    forall k, e :: InIndex(ixs, k, e) && IdOf(e.member) == id ==> k == key && e.member == member
  }

  /** A ping of a driver who is on a trip takes the driver out of the index of the current vehicle
      type only. So the driver is in no index afterwards exactly when no entry from an earlier
      vehicle type was left behind. */
  lemma BusyPingHides(ixs: seq<Index>, id: string, vehicleType: string)
    requires UniqueKeys(ixs) && ':' !in id
    ensures var key, member := KeyFor(vehicleType), MemberOf(id, vehicleType);
      Absent(ZRem(ixs, key, {member}), id) <==> OnlyAt(ixs, id, key, member)
  {
    hide ZRem, MemberOf, KeyFor, IdOf, InIndex, UniqueKeys, Absent, OnlyAt;
    var key, member := KeyFor(vehicleType), MemberOf(id, vehicleType);
    MemberRoundTrip(id, vehicleType);
    if Absent(ZRem(ixs, key, {member}), id) {
      AbsentMeansOnlyAt(ixs, id, key, member);
    }
    if OnlyAt(ixs, id, key, member) {
      OnlyAtMeansAbsent(ixs, id, key, member);
    }
  }

  lemma AbsentMeansOnlyAt(ixs: seq<Index>, id: string, key: string, member: string)
    requires UniqueKeys(ixs) && Absent(ZRem(ixs, key, {member}), id)
    ensures OnlyAt(ixs, id, key, member)
  {
    hide ZRem, IdOf, InIndex, UniqueKeys;
    forall k, e | InIndex(ixs, k, e) && IdOf(e.member) == id ensures k == key && e.member == member {
      ZRemIsExact(ixs, key, {member}, k, e);
    }
  }

  lemma OnlyAtMeansAbsent(ixs: seq<Index>, id: string, key: string, member: string)
    requires UniqueKeys(ixs) && OnlyAt(ixs, id, key, member)
    ensures Absent(ZRem(ixs, key, {member}), id)
  {
    hide ZRem, IdOf, InIndex, UniqueKeys;
    forall k, e | InIndex(ZRem(ixs, key, {member}), k, e) ensures IdOf(e.member) != id {
      ZRemIsExact(ixs, key, {member}, k, e);
    }
  }

  // ---- Searching -------------------------------------------------------------------------------------

  datatype Query = Query(distance: Entry -> real, radius: real)

  /** What GEOSEARCH finds in one set, before sorting and truncation. */
  function FoundIn(entries: seq<Entry>, q: Query): seq<Found> {
    if entries == [] then []
    else
      var e, d := entries[0], q.distance(entries[0]);
      (if d <= q.radius then [Found(e.member, IdOf(e.member), d)] else []) + FoundIn(entries[1..], q)
  }

  function Lists(ixs: seq<Index>, q: Query): (lists: seq<seq<Found>>)
    ensures |lists| == |ixs|
  {
    if ixs == [] then [] else [FoundIn(ixs[0].entries, q)] + Lists(ixs[1..], q)
  }

  /** A swept set answers with its live members. */
  lemma {:induction false} SurvivorsFound(entries: seq<Entry>, alive: set<string>, q: Query)
    ensures FoundIn(Survivors(entries, Lapsed(alive)), q) == Live(FoundIn(entries, q), alive)
  {
    if entries != [] {
      SurvivorsFound(entries[1..], alive, q);
      var e, d := entries[0], q.distance(entries[0]);
      var head := if d <= q.radius then [Found(e.member, IdOf(e.member), d)] else [];
      LiveConcat(head, FoundIn(entries[1..], q), alive);
      if !Doomed(Lapsed(alive), e.member) {
        assert ([e] + Survivors(entries[1..], Lapsed(alive)))[1..] == Survivors(entries[1..], Lapsed(alive));
      }
    }
  }

  lemma {:induction false} SweptJoined(ixs: seq<Index>, alive: set<string>, q: Query, count: nat)
    requires forall i :: 0 <= i < |ixs| ==> |FoundIn(ixs[i].entries, q)| <= count
    ensures Joined(Lists(Purge(ixs, Lapsed(alive)), q), count) == Live(Joined(Lists(ixs, q), count), alive)
  {
    if ixs != [] {
      var rule := Lapsed(alive);
      var list, rest := FoundIn(ixs[0].entries, q), ixs[1..];
      SweptJoined(rest, alive, q, count);
      SurvivorsFound(ixs[0].entries, alive, q);
      SweptList(list, alive, count);
      LiveConcat(Take(Sort(list), count), Joined(Lists(rest, q), count), alive);
      JoinedHead(ixs[0].key, Survivors(ixs[0].entries, rule), Purge(rest, rule), q, count);
      assert Lists(ixs, q)[1..] == Lists(rest, q);
    }
  }

  lemma JoinedHead(key: string, entries: seq<Entry>, rest: seq<Index>, q: Query, count: nat)
    ensures Joined(Lists(IfAny(key, entries) + rest, q), count)
      == Take(Sort(FoundIn(entries, q)), count) + Joined(Lists(rest, q), count)
  {
    if entries == [] {
      assert IfAny(key, entries) + rest == rest;
      assert Take(Sort([]), count) == [];
    } else {
      assert ([Index(key, entries)] + rest)[1..] == rest;
      var lists := Lists([Index(key, entries)] + rest, q);
      assert lists[1..] == Lists(rest, q);
    }
  }

  /** With heartbeats fixed and no set truncated, a sweep does not change what a search over all the
      indexes returns. */
  lemma SweepKeepsNearby(ixs: seq<Index>, alive: set<string>, q: Query, count: nat)
    requires forall i :: 0 <= i < |ixs| ==> |FoundIn(ixs[i].entries, q)| <= count
    ensures Nearest(Lists(Purge(ixs, Lapsed(alive)), q), alive, count) == Nearest(Lists(ixs, q), alive, count)
  {
    SweptJoined(ixs, alive, q, count);
    SameWhenJoinedLive(Lists(ixs, q), Lists(Purge(ixs, Lapsed(alive)), q), alive, count);
  }

  predicate Matches(q: Query, e: Entry, x: Found) {
    q.distance(e) <= q.radius && x == Found(e.member, IdOf(e.member), q.distance(e))
  }

  lemma {:induction false} InFound(entries: seq<Entry>, q: Query, x: Found)
    ensures x in FoundIn(entries, q) <==> exists e :: e in entries && Matches(q, e, x)
  {
    if entries != [] {
      InFound(entries[1..], q, x);
      var e0, d := entries[0], q.distance(entries[0]);
      var head := if d <= q.radius then [Found(e0.member, IdOf(e0.member), d)] else [];
      assert FoundIn(entries, q) == head + FoundIn(entries[1..], q);
      assert x in head <==> Matches(q, e0, x);
      assert forall e :: e in entries <==> e == e0 || e in entries[1..];
    }
  }

  lemma {:induction false} InLists(ixs: seq<Index>, q: Query, x: Found)
    ensures x in Union(Lists(ixs, q)) <==> exists k, e :: InIndex(ixs, k, e) && Matches(q, e, x)
  {
    if ixs != [] {
      InLists(ixs[1..], q, x);
      InFound(ixs[0].entries, q, x);
      assert ixs == [ixs[0]] + ixs[1..];
      assert Lists(ixs, q)[1..] == Lists(ixs[1..], q);
      forall k, e ensures InIndex(ixs, k, e) <==> (ixs[0].key == k && e in ixs[0].entries) || InIndex(ixs[1..], k, e) {
        InConcat([ixs[0]], ixs[1..], k, e);
        InOne(ixs[0], k, e);
      }
      if e :| e in ixs[0].entries && Matches(q, e, x) {
        assert InIndex(ixs, ixs[0].key, e);
      }
    }
  }

  /** What a search can offer: the live members within the radius, of every index. */
  lemma OfferedMembers(ixs: seq<Index>, alive: set<string>, q: Query, x: Found)
    ensures x in Live(Union(Lists(ixs, q)), alive) <==>
      x.id in alive && exists k, e :: InIndex(ixs, k, e) && Matches(q, e, x)
  {
    InLists(ixs, q, x);
  }
}
