/** The commands the platform issues against the geo index, one Redis command at a time. */
module GeoStore {
  import opened GeoSearch
  import opened GeoIndex
  import Strings
  import Text = DecimalText

  /** What the active-trip key says about a driver. */
  datatype TripState = Free | OnTrip(trip: int) | Unknown

  datatype PingResult = Added | Busy | NoVehicle | Invalid

  /** An active-trip key is the decimal text of a trip id; an empty one reads as free, and anything
      else is not trusted. */
  function ReadTrip(value: Option<string>): TripState {
    if value.None? || value.value == "" then Free else ReadId(Strings.Strip(value.value))
  }

  function Unsigned(text: string): string {
    if text != "" && (text[0] == '-' || text[0] == '+') then text[1..] else text
  }

  function ReadId(text: string): TripState {
    var digits := Unsigned(text);
    if digits == "" || !Text.AllDigits(digits) then Unknown
    else if text[0] == '-' then OnTrip(0 - Text.NatValue(digits)) else OnTrip(Text.NatValue(digits))
  }

  function TripOf(trips: map<string, string>, id: string): TripState {
    ReadTrip(if id in trips then Text.Some(trips[id]) else Text.None)
  }

  /** An unknown state keeps a driver out of the index; trip 0 reads as no trip. */
  predicate CountsAsBusy(state: TripState) {
    state == Unknown || (state.OnTrip? && state.trip != 0)
  }

  /** What was set for a driver is what is read back. */
  lemma SetTripReadsBack(trip: nat)
    ensures ReadTrip(Text.Some(Text.NatText(trip))) == OnTrip(trip)
  {
    var text := Text.NatText(trip);
    assert Text.IsDigit(text[0]) && Text.IsDigit(text[|text| - 1]);
    assert Strings.Trimmed(text);
    Text.NatRoundTrip(trip);
  }

  /** A driver marked as on a trip counts as busy until the key is cleared, and no other driver does. */
  lemma SetTripKeepsBusy(trips: map<string, string>, id: string, trip: nat, other: string)
    requires trip > 0
    ensures CountsAsBusy(TripOf(trips[id := Text.NatText(trip)], id))
    ensures !CountsAsBusy(TripOf(trips[id := Text.NatText(trip)] - {id}, id))
    ensures other != id ==> TripOf(trips[id := Text.NatText(trip)], other) == TripOf(trips, other)
  {
    SetTripReadsBack(trip);
    hide ReadTrip;
    assert ReadTrip(Text.None) == Free by {
      NoKeyIsFree();
    }
  }

  lemma NoKeyIsFree()
    ensures ReadTrip(Text.None) == Free
  {
  }

  /** A key that says the driver is free: none, an empty one, or a zero with white space or a sign about it. */
  predicate SaysFree(value: Option<string>) {
    value.None? || value.value == "" || IsZero(Strings.Strip(value.value))
  }

  /** Zeros, perhaps after a sign. */
  predicate IsZero(text: string) {
    Unsigned(text) != "" && AllZeros(Unsigned(text))
  }

  predicate AllZeros(digits: string) {
    forall i :: 0 <= i < |digits| ==> digits[i] == '0'
  }

  /** Whatever else a key holds, a trip id or anything unreadable, keeps the driver out of the index. */
  lemma OnlyFreeIsFree(value: Option<string>)
    ensures !CountsAsBusy(ReadTrip(value)) <==> SaysFree(value)
  {
    if value.Some? && value.value != "" {
      ZeroIsFree(Strings.Strip(value.value));
    }
  }

  lemma ZeroIsFree(text: string)
    ensures !CountsAsBusy(ReadId(text)) <==> IsZero(text)
  {
    var digits := Unsigned(text);
    if Text.AllDigits(digits) {
      ZeroIsZeros(digits);
    } else {
      var i :| 0 <= i < |digits| && !Text.IsDigit(digits[i]);
      assert digits[i] != '0';
    }
  }

  lemma {:induction false} ZeroIsZeros(digits: string)
    requires Text.AllDigits(digits)
    ensures Text.NatValue(digits) == 0 <==> AllZeros(digits)
  {
    if digits != "" {
      var init := digits[..|digits| - 1];
      ZeroIsZeros(init);
      assert forall i :: 0 <= i < |init| ==> init[i] == digits[i];
    }
  }

  /** After: the entry is in the index of the key, replacing only an older position of the same
      member there. */
  ghost predicate PutAt(before: seq<Index>, after: seq<Index>, key: string, e: Entry) {
    forall k, x :: InIndex(after, k, x) <==>
        (k == key && x == e) || (InIndex(before, k, x) && !(k == key && x.member == e.member))
  }

  /** After: the member is out of the index of the key, and nothing else has changed. */
  ghost predicate TakenOut(before: seq<Index>, after: seq<Index>, key: string, member: string) {
    forall k, x :: InIndex(after, k, x) <==> InIndex(before, k, x) && !(k == key && x.member == member)
  }

  lemma ZRemTakesOut(ixs: seq<Index>, key: string, member: string)
    requires ValidIndexes(ixs)
    ensures TakenOut(ixs, ZRem(ixs, key, {member}), key, member)
  {
    forall k, x ensures InIndex(ZRem(ixs, key, {member}), k, x) <==>
        InIndex(ixs, k, x) && !(k == key && x.member == member) {
      ZRemIsExact(ixs, key, {member}, k, x);
    }
  }

  lemma GeoAddPuts(ixs: seq<Index>, key: string, e: Entry)
    requires ValidIndexes(ixs)
    ensures PutAt(ixs, GeoAdd(ixs, key, e), key, e) && ValidIndexes(GeoAdd(ixs, key, e))
  {
    GeoAddValid(ixs, key, e);
    forall k, x ensures InIndex(GeoAdd(ixs, key, e), k, x)
        <==> (k == key && x == e) || (InIndex(ixs, k, x) && !(k == key && x.member == e.member))
    {
      GeoAddIsExact(ixs, key, e, k, x);
    }
  }

  class Store {
    var indexes: seq<Index>
    var legacy: seq<Entry>
    var heartbeats: set<string>
    var trips: map<string, string>

    ghost predicate Valid()
      reads this
    {
      ValidIndexes(indexes) && UniqueMembers(legacy)
    }

    constructor ()
      ensures Valid() && indexes == [] && legacy == [] && heartbeats == {} && trips == map[]
    {
      indexes, legacy, heartbeats, trips := [], [], {}, map[];
    }

    method SetDriverActiveTrip(id: string, trip: nat)
      modifies this`trips
      ensures trips == old(trips)[id := Text.NatText(trip)]
      ensures ReadTrip(Text.Some(trips[id])) == OnTrip(trip)
    {
      trips := trips[id := Text.NatText(trip)];
      SetTripReadsBack(trip);
    }

    method ClearDriverActiveTrip(id: string)
      modifies this`trips
      ensures trips == old(trips) - {id}
    {
      trips := trips - {id};
    }

    /** Unknown when Redis cannot answer, never Free. */
    method GetDriverActiveTrip(id: string, answers: bool) returns (state: TripState)
      ensures !answers ==> state == Unknown
      ensures answers ==> state == TripOf(trips, id)
    {
      if !answers {
        return Unknown;
      }
      state := ReadTrip(if id in trips then Text.Some(trips[id]) else Text.None);
    }

    /** ZREM of one or more members of one key; says whether any was there. */
    method ZRemove(key: string, gone: set<string>) returns (removed: bool)
      requires Valid()
      modifies this`indexes
      ensures Valid() && indexes == ZRem(old(indexes), key, gone)
      ensures removed <==> exists e :: InIndex(old(indexes), key, e) && e.member in gone
    {
      ZRemValid(indexes, key, gone);
      removed := exists i | 0 <= i < |indexes| ::
        indexes[i].key == key && exists e | e in indexes[i].entries :: e.member in gone;
      indexes := ZRem(indexes, key, gone);
    }

    /** A location ping. A driver on a trip, or one whose state is unknown, leaves the index of the
        current vehicle type; a free driver is put at the new position. */
    method AddDriverLocation(id: string, lng: real, lat: real, vehicleType: Option<string>, answers: bool)
      returns (r: PingResult)
      requires Valid()
      modifies this
      ensures Valid() && legacy == old(legacy) && trips == old(trips)
      ensures r == Invalid <==> id == "" || !(-180.0 <= lng <= 180.0) || !(-90.0 <= lat <= 90.0)
      ensures r == NoVehicle <==> r != Invalid && (vehicleType.None? || vehicleType.value == "")
      ensures r == Invalid || r == NoVehicle ==> indexes == old(indexes) && heartbeats == old(heartbeats)
      ensures r == Added || r == Busy ==> heartbeats == old(heartbeats) + {id} && vehicleType.Some?
      ensures r == Added ==>
        PutAt(old(indexes), indexes, KeyFor(vehicleType.value), Entry(MemberOf(id, vehicleType.value), lng, lat))
      ensures r == Busy ==> TakenOut(old(indexes), indexes, KeyFor(vehicleType.value), MemberOf(id, vehicleType.value))
      ensures r == Busy ==> !answers || CountsAsBusy(TripOf(trips, id))
      ensures r == Added ==> answers && !CountsAsBusy(TripOf(trips, id))
    {
      hide ValidIndexes, UniqueMembers, PutAt, TakenOut, MemberOf, KeyFor, ZRem, GeoAdd, InIndex, TripOf, ReadTrip;
      if id == "" || !(-180.0 <= lng <= 180.0) || !(-90.0 <= lat <= 90.0) {
        return Invalid;
      }
      if vehicleType.None? || vehicleType.value == "" {
        return NoVehicle;
      }
      var member, key := MemberOf(id, vehicleType.value), KeyFor(vehicleType.value);
      heartbeats := heartbeats + {id};
      var state := GetDriverActiveTrip(id, answers);
      if CountsAsBusy(state) {
        ZRemTakesOut(indexes, key, member);
        var _ := ZRemove(key, {member});
        return Busy;
      }
      GeoAddPuts(indexes, key, Entry(member, lng, lat));
      indexes := GeoAdd(indexes, key, Entry(member, lng, lat));
      r := Added;
    }

    /** Evict from every index the members whose heartbeat has lapsed; all and only those. */
    method SweepStaleDrivers() returns (evicted: nat)
      requires Valid()
      modifies this`indexes
      ensures Valid() && indexes == Purge(old(indexes), Lapsed(heartbeats))
      ensures evicted == Lapses(old(indexes), heartbeats) == Size(old(indexes)) - Size(indexes)
    {
      hide ValidIndexes, UniqueMembers, InIndex, Purge, ZRem, Survivors, IdOf;
      var scan := indexes;
      ghost var rule := Lapsed(heartbeats);
      PurgeNothing(scan, rule);
      evicted := 0;
      var i := 0;
      while i < |scan|
        invariant 0 <= i <= |scan| && Valid()
        invariant indexes == Purge(scan[..i], rule) + scan[i..]
        invariant evicted + Lapses(scan[i..], heartbeats) == Lapses(scan, heartbeats)
      {
        var members := scan[i].entries;
        var stale, n := StaleMembers(members);
        PurgeOne(scan, i, rule, stale);
        if stale != {} {
          var _ := ZRemove(scan[i].key, stale);
        }
        evicted := evicted + n;
        assert scan[i..][1..] == scan[i + 1..];
        i := i + 1;
      }
      assert scan[..i] == scan;
      LapsesAreLost(scan, heartbeats);
    }

    /** The members of one set whose heartbeat has lapsed. */
    method StaleMembers(members: seq<Entry>) returns (stale: set<string>, n: nat)
      ensures stale == DoomedMembers(members, Lapsed(heartbeats))
      ensures n == CountLapsed(members, heartbeats)
    {
      hide IdOf, CountLapsed;
      stale, n := {}, 0;
      assert CountLapsed(members[..0], heartbeats) == 0 by {
        NoneLapsed(heartbeats);
      }
      var j := 0;
      while j < |members|
        invariant 0 <= j <= |members|
        invariant stale == DoomedMembers(members[..j], Lapsed(heartbeats))
        invariant n == CountLapsed(members[..j], heartbeats)
      {
        DoomedSnoc(members, j, Lapsed(heartbeats));
        assert members[..j + 1] == members[..j] + [members[j]];
        LapsedSnoc(members[..j], members[j], heartbeats);
        if IdOf(members[j].member) !in heartbeats {
          stale := stale + {members[j].member};
          n := n + 1;
        }
        j := j + 1;
      }
      assert members[..j] == members;
    }

    /** Remove the members of one key that are the driver's, one ZREM each. */
    method RemoveFromKey(key: string, members: seq<Entry>, id: string) returns (found: bool)
      requires Valid() && UniqueMembers(members) && forall e :: e in members ==> InIndex(indexes, key, e)
      modifies this`indexes
      ensures Valid() && indexes == ZRem(old(indexes), key, DoomedMembers(members, OfDriver(id)))
      ensures found <==> DoomedMembers(members, OfDriver(id)) != {}
    {
      ghost var rule := OfDriver(id);
      ghost var before := indexes;
      found := false;
      ZRemNone(indexes, key);
      assert DoomedMembers(members[..0], rule) == {};
      var j := 0;
      while j < |members|
        invariant 0 <= j <= |members| && Valid()
        invariant indexes == ZRem(before, key, DoomedMembers(members[..j], rule))
        invariant found <==> DoomedMembers(members[..j], rule) != {}
      {
        ghost var gone := DoomedMembers(members[..j], rule);
        var member := members[j].member;
        DoomedSnoc(members, j, rule);
        if Strings.StartsWith(member, "driver:" + id + ":") {
          ZRemIsExact(before, key, gone, key, members[j]);
          ZRemTwice(before, key, gone, {member});
          var removed := ZRemove(key, {member});
          assert InIndex(ZRem(before, key, gone), key, members[j]) && members[j].member in {member};
          found := found || removed;
        } else {
          assert DoomedMembers(members[..j + 1], rule) == gone;
        }
        j := j + 1;
      }
      assert members[..j] == members;
    }

    /** Remove a driver from every index, whatever vehicle type it was written under, and from the
        legacy one; all and only that driver's members. */
    method RemoveDriver(id: string) returns (found: bool)
      requires Valid()
      modifies this
      ensures Valid() && trips == old(trips)
      ensures id == "" ==> !found && indexes == old(indexes) && legacy == old(legacy) && heartbeats == old(heartbeats)
      ensures id != "" ==>
        indexes == Purge(old(indexes), OfDriver(id)) && legacy == Survivors(old(legacy), OfDriver(id))
      ensures id != "" ==> heartbeats == old(heartbeats) - {id}
      ensures id != "" ==> (found <==> Holds(old(indexes), old(legacy), OfDriver(id)))
    {
      hide ValidIndexes, UniqueMembers, InIndex, DoomedMembers, Purge, ZRem, Survivors, HoldsMember, Doomed;
      if id == "" {
        return false;
      }
      var scan := indexes;
      ghost var rule := OfDriver(id);
      found := false;
      PurgeNothing(scan, rule);
      var i := 0;
      while i < |scan|
        invariant 0 <= i <= |scan| && Valid() && legacy == old(legacy) && heartbeats == old(heartbeats)
          && trips == old(trips)
        invariant indexes == Purge(scan[..i], rule) + scan[i..]
        invariant found <==> exists k :: 0 <= k < i && DoomedMembers(scan[k].entries, rule) != {}
      {
        PurgeOne(scan, i, rule, DoomedMembers(scan[i].entries, rule));
        var here := RemoveFromKey(scan[i].key, scan[i].entries, id);
        found := found || here;
        i := i + 1;
      }
      assert scan[..i] == scan;
      HoldsInIndexes(scan, rule);
      var there := RemoveLegacy(id);
      found := found || there;
      heartbeats := heartbeats - {id};
    }

    /** The same for the single-key index of an older build. */
    method RemoveLegacy(id: string) returns (found: bool)
      requires Valid()
      modifies this`legacy
      ensures Valid() && legacy == Survivors(old(legacy), OfDriver(id))
      ensures found <==> exists k :: 0 <= k < |old(legacy)| && Doomed(OfDriver(id), old(legacy)[k].member)
    {
      hide UniqueMembers, Survivors, ValidIndexes, IdOf;
      ghost var rule := OfDriver(id);
      var kept: seq<Entry> := [];
      assert Survivors(legacy[..0], rule) == [] by {
        SurvivorsOfNone(rule);
      }
      var i := 0;
      found := false;
      while i < |legacy|
        invariant 0 <= i <= |legacy| && legacy == old(legacy)
        invariant kept == Survivors(legacy[..i], rule)
        invariant found <==> exists k :: 0 <= k < i && Doomed(rule, legacy[k].member)
      {
        SurvivorsSnoc(legacy, i, rule);
        if Strings.StartsWith(legacy[i].member, "driver:" + id + ":") {
          found := true;
        } else {
          kept := kept + [legacy[i]];
        }
        i := i + 1;
      }
      assert legacy[..i] == legacy;
      SurvivorsUnique(legacy, rule);
      legacy := kept;
    }

    /** The nearest live drivers of one vehicle type, or of all: None on a query the source refuses. The
        scan is the list of index keys the key scan reported, in its order, repeats and all. */
    method NearbyDrivers(lng: real, lat: real, distance: Entry -> real, radius: real, count: int,
                         vehicleType: Option<string>, scan: seq<string>)
      returns (r: Option<seq<Found>>)
      ensures r.None? <==> !(-180.0 <= lng <= 180.0) || !(-90.0 <= lat <= 90.0) || radius <= 0.0 || count <= 0
      ensures r.Some? ==>
        r.value == Nearest(Lists(Scope(indexes, vehicleType, scan), Query(distance, radius)), heartbeats, Wanted(count))
      ensures r.Some? && UniqueKeys(indexes) ==>
        forall x :: x in r.value ==> IsOffered(indexes, heartbeats, vehicleType, scan, Query(distance, radius), x)
      ensures r.Some? && UniqueKeys(indexes) ==>
        Unspoilt(indexes, heartbeats, vehicleType, scan, Query(distance, radius), Wanted(count)) ==>
          exists pool :: IsPool(pool, indexes, heartbeats, vehicleType, scan, Query(distance, radius))
            && IsTopK(r.value, pool, Wanted(count))
    {
      if !(-180.0 <= lng <= 180.0) || !(-90.0 <= lat <= 90.0) || radius <= 0.0 || count <= 0 {
        return Text.None;
      }
      var q := Query(distance, radius);
      var keys := Scope(indexes, vehicleType, scan);
      ghost var lists := Lists(keys, q);
      var drivers: seq<Found> := [];
      var i := 0;
      while i < |keys|
        invariant 0 <= i <= |keys|
        invariant drivers == Joined(lists[..i], count)
      {
        ListsAt(keys, q, i);
        JoinedSnoc(lists, i, count);
        drivers := drivers + Take(Sort(FoundIn(keys[i].entries, q)), count);
        i := i + 1;
      }
      assert lists[..i] == lists;
      var live: seq<Found> := [];
      i := 0;
      while i < |drivers|
        invariant 0 <= i <= |drivers|
        invariant live == Live(drivers[..i], heartbeats)
      {
        LiveSnoc(drivers, i, heartbeats);
        if drivers[i].id in heartbeats {
          live := live + [drivers[i]];
        }
        i := i + 1;
      }
      assert drivers[..i] == drivers;
      if |keys| > 1 {
        live := Sort(live);
      }
      r := Text.Some(Take(live, count));
      if UniqueKeys(indexes) {
        NearbyIsOffered(indexes, heartbeats, vehicleType, scan, q, count);
      }
    }
  }

  function Wanted(count: int): nat {
    if count > 0 then count else 0
  }

  /** Is the set of this key looked at? The one of the vehicle type asked for, if one is, and otherwise every
      one the scan reported. */
  predicate Searched(vehicleType: Option<string>, scan: seq<string>, key: string) {
    match vehicleType
    case Some(wanted) => if wanted == "" then key in scan else key == KeyFor(wanted)
    case None => key in scan
  }

  /** What a search may offer: a member of a set looked at, within the radius, with a live heartbeat, at its
      distance. */
  ghost predicate IsOffered(ixs: seq<Index>, alive: set<string>, vehicleType: Option<string>, scan: seq<string>,
      q: Query, x: Found) {
    x.id in alive && exists k, e :: InIndex(ixs, k, e) && Searched(vehicleType, scan, k) && Matches(q, e, x)
  }

  /** No set looked at holds a lapsed member within the radius, unless it has no more than `count` members. */
  ghost predicate Unspoilt(ixs: seq<Index>, alive: set<string>, vehicleType: Option<string>, scan: seq<string>,
      q: Query, count: nat) {
    forall i :: 0 <= i < |ixs| && Searched(vehicleType, scan, ixs[i].key) ==>
      || |ixs[i].entries| <= count
      || forall e :: e in ixs[i].entries && q.distance(e) <= q.radius ==> IdOf(e.member) in alive
  }

  lemma {:induction false} AtIsExact(ixs: seq<Index>, key: string, e: Entry)
    requires UniqueKeys(ixs)
    ensures e in At(ixs, key) <==> InIndex(ixs, key, e)
  {
    if ixs != [] {
      assert ixs == [ixs[0]] + ixs[1..];
      InConcat([ixs[0]], ixs[1..], key, e);
      InOne(ixs[0], key, e);
      AtIsExact(ixs[1..], key, e);
    }
  }

  lemma {:induction false} ScannedIsExact(ixs: seq<Index>, scan: seq<string>, key: string, e: Entry)
    requires UniqueKeys(ixs)
    ensures InIndex(Scanned(ixs, scan), key, e) <==> key in scan && InIndex(ixs, key, e)
  {
    if scan != [] {
      ScannedIsExact(ixs, scan[1..], key, e);
      var head := Index(scan[0], At(ixs, scan[0]));
      InConcat([head], Scanned(ixs, scan[1..]), key, e);
      InOne(head, key, e);
      AtIsExact(ixs, scan[0], e);
      assert scan == [scan[0]] + scan[1..];
    }
  }

  lemma ScopeIsExact(ixs: seq<Index>, vehicleType: Option<string>, scan: seq<string>, key: string, e: Entry)
    requires UniqueKeys(ixs)
    ensures InIndex(Scope(ixs, vehicleType, scan), key, e) <==> Searched(vehicleType, scan, key) && InIndex(ixs, key, e)
  {
    hide InIndex, UniqueKeys, KeyFor;
    ScannedIsExact(ixs, scan, key, e);
    if vehicleType.Some? && vehicleType.value != "" {
      var wanted := KeyFor(vehicleType.value);
      InOne(Index(wanted, At(ixs, wanted)), key, e);
      AtIsExact(ixs, wanted, e);
    }
  }

  /** The set at a position of the scope is one of the sets looked at, or empty. */
  lemma ScopeAt(ixs: seq<Index>, vehicleType: Option<string>, scan: seq<string>, i: nat)
    requires i < |Scope(ixs, vehicleType, scan)|
    ensures var ix := Scope(ixs, vehicleType, scan)[i];
      Searched(vehicleType, scan, ix.key)
      && (ix.entries == [] || exists j :: 0 <= j < |ixs| && ixs[j].key == ix.key && ixs[j].entries == ix.entries)
  {
    hide KeyFor;
    if vehicleType.Some? && vehicleType.value != "" {
      AtSome(ixs, KeyFor(vehicleType.value));
    } else {
      ScannedAt(ixs, scan, i);
    }
  }

  lemma {:induction false} ScannedAt(ixs: seq<Index>, scan: seq<string>, i: nat)
    requires i < |Scanned(ixs, scan)|
    ensures var ix := Scanned(ixs, scan)[i];
      ix.key in scan
      && (ix.entries == [] || exists j :: 0 <= j < |ixs| && ixs[j].key == ix.key && ixs[j].entries == ix.entries)
  {
    if i == 0 {
      AtSome(ixs, scan[0]);
    } else {
      ScannedAt(ixs, scan[1..], i - 1);
    }
  }

  lemma {:induction false} AtSome(ixs: seq<Index>, key: string)
    ensures At(ixs, key) == [] || exists j :: 0 <= j < |ixs| && ixs[j].key == key && ixs[j].entries == At(ixs, key)
  {
    if ixs != [] {
      if ixs[0].key == key {
        assert ixs[0].entries == At(ixs, key);
      } else {
        AtSome(ixs[1..], key);
        if At(ixs[1..], key) != [] {
          var j :| 0 <= j < |ixs[1..]| && ixs[1..][j].key == key && ixs[1..][j].entries == At(ixs[1..], key);
          assert ixs[j + 1] == ixs[1..][j];
        }
      }
    }
  }

  lemma {:induction false} FoundFits(entries: seq<Entry>, q: Query)
    ensures |FoundIn(entries, q)| <= |entries|
    ensures forall x :: x in FoundIn(entries, q) ==> exists e :: e in entries && Matches(q, e, x)
  {
    if entries != [] {
      FoundFits(entries[1..], q);
      forall x | x in FoundIn(entries, q) ensures exists e :: e in entries && Matches(q, e, x) {
        InFound(entries, q, x);
      }
    }
  }

  lemma UnspoiltHidesNothing(ixs: seq<Index>, alive: set<string>, vehicleType: Option<string>, scan: seq<string>,
      q: Query, count: nat, i: nat)
    requires Unspoilt(ixs, alive, vehicleType, scan, q, count) && i < |Scope(ixs, vehicleType, scan)|
    ensures !HidesBehindGhost(Lists(Scope(ixs, vehicleType, scan), q)[i], alive, count)
  {
    hide Scope, IdOf, Sort;
    var scope := Scope(ixs, vehicleType, scan);
    ListsAt(scope, q, i);
    ScopeAt(ixs, vehicleType, scan, i);
    var entries := scope[i].entries;
    FoundFits(entries, q);
    if |entries| > count {
      var j :| 0 <= j < |ixs| && ixs[j].key == scope[i].key && ixs[j].entries == entries;
      var list := FoundIn(entries, q);
      forall x | x in Take(Sort(list), count) ensures x.id in alive {
        assert x in multiset(Sort(list));
        assert x in list;
        var e :| e in entries && Matches(q, e, x);
      }
    }
  }

  /** A pool of exactly what the search may offer. */
  ghost predicate IsPool(pool: seq<Found>, ixs: seq<Index>, alive: set<string>, vehicleType: Option<string>,
      scan: seq<string>, q: Query) {
    forall x :: x in pool <==> IsOffered(ixs, alive, vehicleType, scan, q, x)
  }

  lemma PoolIsOffered(ixs: seq<Index>, alive: set<string>, vehicleType: Option<string>, scan: seq<string>, q: Query)
    requires UniqueKeys(ixs)
    ensures IsPool(Live(Union(Lists(Scope(ixs, vehicleType, scan), q)), alive), ixs, alive, vehicleType, scan, q)
  {
    hide Scope, Lists, Live, Union, InIndex, Searched, UniqueKeys, Matches;
    var scope := Scope(ixs, vehicleType, scan);
    forall x ensures x in Live(Union(Lists(scope, q)), alive) <==> IsOffered(ixs, alive, vehicleType, scan, q, x) {
      OfferedMembers(scope, alive, q, x);
      forall k, e ensures InIndex(scope, k, e) <==> Searched(vehicleType, scan, k) && InIndex(ixs, k, e) {
        ScopeIsExact(ixs, vehicleType, scan, k, e);
      }
    }
  }

  /** Every answer of a search is offered by a set looked at; and unless a lapsed member spoils one that had to be
      cut off, the answers are the nearest `count` of all that is offered. */
  lemma NearbyIsOffered(ixs: seq<Index>, alive: set<string>, vehicleType: Option<string>, scan: seq<string>, q: Query,
                        count: nat)
    requires UniqueKeys(ixs)
    ensures forall x :: x in Nearest(Lists(Scope(ixs, vehicleType, scan), q), alive, count) ==>
      IsOffered(ixs, alive, vehicleType, scan, q, x)
    ensures Unspoilt(ixs, alive, vehicleType, scan, q, count) ==>
      exists pool :: IsPool(pool, ixs, alive, vehicleType, scan, q)
        && IsTopK(Nearest(Lists(Scope(ixs, vehicleType, scan), q), alive, count), pool, count)
  {
    hide Scope, Nearest, IsTopK, Lists, Live, Union, HidesBehindGhost, InIndex, UniqueKeys, Unspoilt, IsOffered;
    var lists := Lists(Scope(ixs, vehicleType, scan), q);
    var pool, r := Live(Union(lists), alive), Nearest(lists, alive, count);
    PoolIsOffered(ixs, alive, vehicleType, scan, q);
    NearestIsLiveAndSorted(lists, alive, count);
    forall x | x in r ensures IsOffered(ixs, alive, vehicleType, scan, q, x) {
      assert x in multiset(r) && x in multiset(pool);
    }
    hide IsPool;
    if Unspoilt(ixs, alive, vehicleType, scan, q, count) {
      forall i | 0 <= i < |lists| ensures !HidesBehindGhost(lists[i], alive, count) {
        UnspoiltHidesNothing(ixs, alive, vehicleType, scan, q, count, i);
      }
      NearestIsTopK(lists, alive, count);
      assert IsPool(pool, ixs, alive, vehicleType, scan, q) && IsTopK(r, pool, count);
    }
  }

  /** The sets a search looks at: the one of the vehicle type asked for, there or not, or all that were
      scanned. */
  function Scope(ixs: seq<Index>, vehicleType: Option<string>, scan: seq<string>): seq<Index> {
    if vehicleType.None? || vehicleType.value == "" then Scanned(ixs, scan)
    else [Index(KeyFor(vehicleType.value), At(ixs, KeyFor(vehicleType.value)))]
  }

  function Scanned(ixs: seq<Index>, scan: seq<string>): seq<Index> {
    if scan == [] then [] else [Index(scan[0], At(ixs, scan[0]))] + Scanned(ixs, scan[1..])
  }

  function At(ixs: seq<Index>, key: string): seq<Entry> {
    if ixs == [] then [] else if ixs[0].key == key then ixs[0].entries else At(ixs[1..], key)
  }

  function KeysOf(ixs: seq<Index>): (keys: seq<string>)
    ensures |keys| == |ixs| && forall i :: 0 <= i < |ixs| ==> keys[i] == ixs[i].key
  {
    if ixs == [] then [] else [ixs[0].key] + KeysOf(ixs[1..])
  }

  /** A scan that reports every key once, in whatever order the indexes have, sees the indexes. */
  lemma {:induction false} ScanSeesAll(ixs: seq<Index>)
    requires UniqueKeys(ixs)
    ensures Scanned(ixs, KeysOf(ixs)) == ixs
  {
    ScanSeesRest([], ixs);
    assert [] + ixs == ixs;
  }

  lemma {:induction false} ScanSeesRest(before: seq<Index>, rest: seq<Index>)
    requires UniqueKeys(before + rest)
    ensures Scanned(before + rest, KeysOf(rest)) == rest
    decreases |rest|
  {
    if rest != [] {
      assert before + rest == (before + [rest[0]]) + rest[1..];
      ScanSeesRest(before + [rest[0]], rest[1..]);
      AtPosition(before, rest);
      assert KeysOf(rest)[1..] == KeysOf(rest[1..]);
    }
  }

  lemma {:induction false} AtPosition(before: seq<Index>, rest: seq<Index>)
    requires UniqueKeys(before + rest) && rest != []
    ensures At(before + rest, rest[0].key) == rest[0].entries
  {
    if before == [] {
      assert before + rest == rest;
    } else {
      var all := before + rest;
      assert all[0] == before[0] && all[|before|] == rest[0];
      assert all[1..] == before[1..] + rest;
      assert UniqueKeys(all[1..]);
      AtPosition(before[1..], rest);
    }
  }

  function CountLapsed(members: seq<Entry>, alive: set<string>): nat {
    if members == [] then 0 else (if IdOf(members[0].member) in alive then 0 else 1) + CountLapsed(members[1..], alive)
  }

  /** How many members of all the indexes have no heartbeat. */
  function Lapses(ixs: seq<Index>, alive: set<string>): nat {
    if ixs == [] then 0 else CountLapsed(ixs[0].entries, alive) + Lapses(ixs[1..], alive)
  }

  /** How many members all the indexes have. */
  function Size(ixs: seq<Index>): nat {
    if ixs == [] then 0 else |ixs[0].entries| + Size(ixs[1..])
  }

  /** The members a sweep counts are the ones the indexes have lost. */
  lemma {:induction false} LapsesAreLost(ixs: seq<Index>, alive: set<string>)
    ensures Lapses(ixs, alive) == Size(ixs) - Size(Purge(ixs, Lapsed(alive)))
  {
    if ixs != [] {
      LapsesAreLost(ixs[1..], alive);
      LapsedAreLost(ixs[0].entries, alive);
      SizeInFront(ixs[0].key, Survivors(ixs[0].entries, Lapsed(alive)), Purge(ixs[1..], Lapsed(alive)));
    }
  }

  lemma SizeInFront(key: string, entries: seq<Entry>, rest: seq<Index>)
    ensures Size(IfAny(key, entries) + rest) == |entries| + Size(rest)
  {
    if entries == [] {
      assert IfAny(key, entries) + rest == rest;
    } else {
      assert (IfAny(key, entries) + rest)[1..] == rest;
    }
  }

  lemma {:induction false} LapsedAreLost(members: seq<Entry>, alive: set<string>)
    ensures CountLapsed(members, alive) == |members| - |Survivors(members, Lapsed(alive))|
  {
    if members != [] {
      LapsedAreLost(members[1..], alive);
    }
  }

  lemma NoneLapsed(alive: set<string>)
    ensures CountLapsed([], alive) == 0
  {
  }

  lemma {:induction false} LapsedSnoc(members: seq<Entry>, e: Entry, alive: set<string>)
    ensures CountLapsed(members + [e], alive) == CountLapsed(members, alive) + if IdOf(e.member) in alive then 0 else 1
  {
    hide IdOf;
    if members == [] {
      assert [] + [e] == [e] && [e][1..] == [];
    } else {
      LapsedSnoc(members[1..], e, alive);
      assert (members + [e])[1..] == members[1..] + [e];
    }
  }

  predicate HoldsMember(ixs: seq<Index>, rule: Rule) {
    exists k :: 0 <= k < |ixs| && exists e :: e in ixs[k].entries && Doomed(rule, e.member)
  }

  predicate Holds(ixs: seq<Index>, legacy: seq<Entry>, rule: Rule) {
    HoldsMember(ixs, rule) || exists k :: 0 <= k < |legacy| && Doomed(rule, legacy[k].member)
  }

  lemma HoldsInIndexes(ixs: seq<Index>, rule: Rule)
    ensures HoldsMember(ixs, rule) <==> exists k :: 0 <= k < |ixs| && DoomedMembers(ixs[k].entries, rule) != {}
  {
    forall k | 0 <= k < |ixs|
      ensures DoomedMembers(ixs[k].entries, rule) != {} <==> exists e :: e in ixs[k].entries && Doomed(rule, e.member)
    {
      if e :| e in ixs[k].entries && Doomed(rule, e.member) {
        assert e.member in DoomedMembers(ixs[k].entries, rule);
      }
    }
  }

  /** One step of a scan: the set at position i loses its doomed members. */
  lemma PurgeOne(scan: seq<Index>, i: nat, rule: Rule, gone: set<string>)
    requires ValidIndexes(scan) && i < |scan| && gone == DoomedMembers(scan[i].entries, rule)
    ensures ZRem(Purge(scan[..i], rule) + scan[i..], scan[i].key, gone) == Purge(scan[..i + 1], rule) + scan[i + 1..]
    ensures gone == {} ==> Purge(scan[..i], rule) + scan[i..] == Purge(scan[..i + 1], rule) + scan[i + 1..]
    ensures UniqueMembers(scan[i].entries)
    ensures forall e :: e in scan[i].entries ==> InIndex(Purge(scan[..i], rule) + scan[i..], scan[i].key, e)
  {
    hide Purge, ZRem, Survivors, Without, IfAny, DoomedMembers, Doomed, InIndex;
    UniqueAt(scan, i, rule);
    var ix, before := scan[i], Purge(scan[..i], rule);
    PurgeKeys(scan[..i], rule, ix.key);
    assert scan[i..] == [ix] + scan[i + 1..];
    assert before + scan[i..] == before + [ix] + scan[i + 1..];
    ZRemAt(before, ix, scan[i + 1..], gone);
    MembersGone(ix.entries, rule);
    assert scan[..i + 1] == scan[..i] + [ix];
    PurgeSnoc(scan[..i], ix, rule);
    forall e | e in ix.entries ensures InIndex(before + scan[i..], ix.key, e) {
      InOne(ix, ix.key, e);
      InConcat([ix], scan[i + 1..], ix.key, e);
      InConcat(before, scan[i..], ix.key, e);
    }
  }

  lemma UniqueAt(scan: seq<Index>, i: nat, rule: Rule)
    requires ValidIndexes(scan) && i < |scan|
    ensures UniqueMembers(scan[i].entries)
    ensures DoomedMembers(scan[i].entries, rule) == {} ==>
      IfAny(scan[i].key, Survivors(scan[i].entries, rule)) == [scan[i]]
  {
    MembersGone(scan[i].entries, rule);
    if DoomedMembers(scan[i].entries, rule) == {} {
      WithoutNone(scan[i].entries);
    }
  }

  /** Taking out the doomed members leaves the survivors. */
  lemma MembersGone(entries: seq<Entry>, rule: Rule)
    ensures Without(entries, DoomedMembers(entries, rule)) == Survivors(entries, rule)
  {
    hide Doomed;
    var gone := DoomedMembers(entries, rule);
    forall e | e in entries ensures e.member in gone <==> Doomed(rule, e.member) {
    }
    WithoutDoomed(entries, rule, gone);
  }

  lemma PurgeNothing(scan: seq<Index>, rule: Rule)
    ensures Purge(scan[..0], rule) + scan[0..] == scan
  {
  }

  lemma DoomedSnoc(members: seq<Entry>, j: nat, rule: Rule)
    requires j < |members|
    ensures DoomedMembers(members[..j + 1], rule)
      == DoomedMembers(members[..j], rule) + if Doomed(rule, members[j].member) then {members[j].member} else {}
    ensures UniqueMembers(members) ==> members[j].member !in DoomedMembers(members[..j], rule)
  {
    assert members[..j + 1] == members[..j] + [members[j]];
  }

  lemma {:induction false} ZRemNone(ixs: seq<Index>, key: string)
    requires ValidIndexes(ixs)
    ensures ZRem(ixs, key, {}) == ixs
  {
    if ixs != [] {
      if ixs[0].key == key {
        WithoutNone(ixs[0].entries);
      } else {
        ZRemNone(ixs[1..], key);
      }
    }
  }

  lemma {:induction false} ZRemTwice(ixs: seq<Index>, key: string, a: set<string>, b: set<string>)
    requires UniqueKeys(ixs)
    ensures ZRem(ZRem(ixs, key, a), key, b) == ZRem(ixs, key, a + b)
  {
    if ixs != [] {
      if ixs[0].key == key {
        WithoutTwice(ixs[0].entries, a, b);
        var head := IfAny(key, Without(ixs[0].entries, a));
        if head == [] {
          assert [] + ixs[1..] == ixs[1..];
          ZRemAbsent(ixs[1..], key, b);
        } else {
          assert (head + ixs[1..])[1..] == ixs[1..];
        }
      } else {
        ZRemTwice(ixs[1..], key, a, b);
        assert ([ixs[0]] + ZRem(ixs[1..], key, a))[1..] == ZRem(ixs[1..], key, a);
      }
    }
  }

  lemma {:induction false} SurvivorsConcat(entries: seq<Entry>, e: Entry, rule: Rule)
    ensures Survivors(entries + [e], rule) == Survivors(entries, rule) + if Doomed(rule, e.member) then [] else [e]
  {
    hide Doomed;
    if entries == [] {
      assert [] + [e] == [e] && [e][1..] == [];
    } else {
      SurvivorsConcat(entries[1..], e, rule);
      assert (entries + [e])[1..] == entries[1..] + [e];
    }
  }

  lemma SurvivorsSnoc(entries: seq<Entry>, i: nat, rule: Rule)
    requires i < |entries|
    ensures Survivors(entries[..i + 1], rule)
      == Survivors(entries[..i], rule) + if Doomed(rule, entries[i].member) then [] else [entries[i]]
  {
    hide Doomed;
    assert entries[..i + 1] == entries[..i] + [entries[i]];
    SurvivorsConcat(entries[..i], entries[i], rule);
  }

  lemma SurvivorsOfNone(rule: Rule)
    ensures Survivors([], rule) == []
  {
  }

  lemma SurvivorsUnique(entries: seq<Entry>, rule: Rule)
    requires UniqueMembers(entries)
    ensures UniqueMembers(Survivors(entries, rule))
  {
    WithoutDoomed(entries, rule, DoomedMembers(entries, rule));
    WithoutUnique(entries, DoomedMembers(entries, rule));
  }

  lemma {:induction false} LiveSnoc(s: seq<Found>, i: nat, alive: set<string>)
    requires i < |s|
    ensures Live(s[..i + 1], alive) == Live(s[..i], alive) + if s[i].id in alive then [s[i]] else []
  {
    assert s[..i + 1] == s[..i] + [s[i]];
    LiveConcat(s[..i], [s[i]], alive);
    assert [s[i]][1..] == [];
  }

  lemma {:induction false} ListsAt(ixs: seq<Index>, q: Query, i: nat)
    requires i < |ixs|
    ensures Lists(ixs, q)[i] == FoundIn(ixs[i].entries, q)
  {
    if i > 0 {
      ListsAt(ixs[1..], q, i - 1);
    }
  }

  lemma {:induction false} JoinedSnoc(lists: seq<seq<Found>>, i: nat, count: nat)
    requires i < |lists|
    ensures Joined(lists[..i + 1], count) == Joined(lists[..i], count) + Take(Sort(lists[i]), count)
  {
    hide Sort, Take;
    if i == 0 {
      assert lists[..1] == [lists[0]] && [lists[0]][1..] == [];
      assert lists[..0] == [];
    } else {
      JoinedSnoc(lists[1..], i - 1, count);
      assert lists[..i + 1][1..] == lists[1..][..i] && lists[..i][1..] == lists[1..][..i - 1];
    }
  }
}
