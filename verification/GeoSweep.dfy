/** A sweep as it runs: it reads the members of a set, looks up their heartbeats one after the other, and
    removes in one command those it found lapsed. Pings may come in between. */
module GeoSweep {
  import opened GeoIndex
  import opened GeoMap

  /** The visit of one key. A time is a number of commands done: when the members were read, and when
      each of them was looked up. */
  datatype Visit = Visit(key: string, read: nat, looks: seq<nat>)

  function MembersAt(ixs: seq<Index>, key: string): seq<Entry> {
    if ixs == [] then [] else if ixs[0].key == key then ixs[0].entries else MembersAt(ixs[1..], key)
  }

  function Members(commands: seq<Command>, v: Visit): seq<Entry>
    requires v.read <= |commands|
  {
    MembersAt(Run(commands[..v.read]).indexes, v.key)
  }

  /** Read first, then one look per member, in order. */
  predicate Possible(commands: seq<Command>, v: Visit) {
    && v.read <= |commands| && |v.looks| == |Members(commands, v)|
    && (forall j :: 0 <= j < |v.looks| ==> v.read <= v.looks[j] <= |commands|)
    && forall i, j :: 0 <= i < j < |v.looks| ==> v.looks[i] <= v.looks[j]
  }

  predicate SeenLapsed(commands: seq<Command>, v: Visit, j: nat)
    requires Possible(commands, v) && j < |v.looks|
  {
    IdOf(Members(commands, v)[j].member) !in Run(commands[..v.looks[j]]).alive
  }

  function Stale(commands: seq<Command>, v: Visit): set<string>
    requires Possible(commands, v)
  {
    set j | 0 <= j < |v.looks| && SeenLapsed(commands, v, j) :: Members(commands, v)[j].member
  }

  /** All commands so far, and the removal. */
  function Swept(commands: seq<Command>, v: Visit): seq<Command>
    requires Possible(commands, v)
  {
    commands + [Evict(v.key, Stale(commands, v))]
  }

  // ---- When a driver is live -----------------------------------------------------------------------

  predicate About(c: Command, driver: nat) {
    (c.Ping? || c.Remove? || c.Lapse?) && c.driver == driver
  }

  /** Of the commands about the driver, is the last one a ping? */
  predicate LastPinged(commands: seq<Command>, driver: nat) {
    commands != [] &&
    var last := commands[|commands| - 1];
    if About(last, driver) then last.Ping? else LastPinged(commands[..|commands| - 1], driver)
  }

  lemma {:induction false} LiveIfLastPinged(commands: seq<Command>, driver: nat)
    ensures Id(driver) in Run(commands).alive <==> LastPinged(commands, driver)
  {
    hide Id, GeoIndex.Purge, GeoIndex.ZRem, GeoIndex.GeoAdd, KeyFor, MemberOf;
    if commands != [] {
      var before, last := commands[..|commands| - 1], commands[|commands| - 1];
      LiveIfLastPinged(before, driver);
      if last.Ping? || last.Remove? || last.Lapse? {
        IdsDiffer(driver, last.driver);
      }
    }
  }

  lemma {:induction false} PingedSince(commands: seq<Command>, t: nat, driver: nat)
    requires t <= |commands| && !LastPinged(commands[..t], driver) && LastPinged(commands, driver)
    ensures exists i :: t <= i < |commands| && commands[i].Ping? && commands[i].driver == driver
  {
    assert commands[..|commands|] == commands;
    var before, last := commands[..|commands| - 1], commands[|commands| - 1];
    if About(last, driver) {
      assert commands[|commands| - 1].Ping?;
    } else {
      assert before[..t] == commands[..t];
      PingedSince(before, t, driver);
      var i :| t <= i < |before| && before[i].Ping? && before[i].driver == driver;
      assert commands[i] == before[i];
    }
  }

  // ---- What a visit loses --------------------------------------------------------------------------

  /** The entry is in the index when the sweep removes, its driver is live then, and it is gone after. */
  ghost predicate LosesLive(commands: seq<Command>, v: Visit, driver: nat, e: Entry)
    requires Possible(commands, v)
  {
    && InIndex(Run(commands).indexes, v.key, e) && LastPinged(commands, driver)
    && !InIndex(Run(Swept(commands, v)).indexes, v.key, e)
  }

  /** Was the member read, and found lapsed? */
  ghost predicate Condemned(commands: seq<Command>, v: Visit, driver: nat, member: string)
    requires Possible(commands, v)
  {
    exists j :: 0 <= j < |v.looks| && Members(commands, v)[j].member == member
        && !LastPinged(commands[..v.looks[j]], driver)
  }

  /** After any commands, and for any visit: the removal takes an entry out exactly when its member was read
      and, as it was looked up, the last its driver had done was not to ping; whatever the driver has done
      since. */
  lemma EvictsTheCondemned(commands: seq<Command>, v: Visit, driver: nat, vehicleType: string, lng: real, lat: real)
    requires Possible(commands, v)
    ensures var e := EntryOf(driver, vehicleType, lng, lat);
      InIndex(Run(Swept(commands, v)).indexes, v.key, e) <==>
        InIndex(Run(commands).indexes, v.key, e) && !Condemned(commands, v, driver, e.member)
  {
    hide MemberOf, Id, InIndex, ZRem, LastPinged, UniqueKeys, Members;
    var e := EntryOf(driver, vehicleType, lng, lat);
    var gone := Stale(commands, v);
    SweptIs(commands, v);
    ReachedIsUnique(commands);
    ZRemIsExact(Run(commands).indexes, v.key, gone, v.key, e);
    NamesDiffer(driver, vehicleType, driver, vehicleType);
    forall j | 0 <= j < |v.looks| && Members(commands, v)[j].member == e.member
      ensures SeenLapsed(commands, v, j) <==> !LastPinged(commands[..v.looks[j]], driver)
    {
      LiveIfLastPinged(commands[..v.looks[j]], driver);
    }
  }

  lemma SweptIs(commands: seq<Command>, v: Visit)
    requires Possible(commands, v)
    ensures Run(Swept(commands, v)).indexes == ZRem(Run(commands).indexes, v.key, Stale(commands, v))
    ensures Run(Swept(commands, v)).alive == Run(commands).alive
  {
    assert Swept(commands, v)[..|commands|] == commands;
  }

  lemma ReachedIsUnique(commands: seq<Command>)
    ensures UniqueKeys(Run(commands).indexes)
  {
    hide Run, UniqueKeys;
    IndexIsTheMap(commands);
    KeysAreUnique(Run(commands).indexes);
  }

  /** So a live driver's entry is lost exactly when it was condemned, and then the driver has pinged since:
      between the look and the removal. */
  lemma LosesLiveExactly(commands: seq<Command>, v: Visit, driver: nat, vehicleType: string, lng: real, lat: real)
    requires Possible(commands, v)
    requires InIndex(Run(commands).indexes, v.key, EntryOf(driver, vehicleType, lng, lat))
      && LastPinged(commands, driver)
    ensures var e := EntryOf(driver, vehicleType, lng, lat);
      LosesLive(commands, v, driver, e) <==> Condemned(commands, v, driver, e.member)
    ensures var e := EntryOf(driver, vehicleType, lng, lat);
      LosesLive(commands, v, driver, e) ==>
        exists j, i :: 0 <= j < |v.looks| && Members(commands, v)[j].member == e.member
          && v.looks[j] <= i < |commands| && commands[i].Ping? && commands[i].driver == driver
  {
    hide MemberOf, Id, InIndex, LastPinged, Run, Stale;
    var e := EntryOf(driver, vehicleType, lng, lat);
    EvictsTheCondemned(commands, v, driver, vehicleType, lng, lat);
    if Condemned(commands, v, driver, e.member) {
      var j :| 0 <= j < |v.looks| && Members(commands, v)[j].member == e.member
          && !LastPinged(commands[..v.looks[j]], driver);
      PingedSince(commands, v.looks[j], driver);
    }
  }

  /** A visit that nothing comes between finds the members a sweep in one step would. */
  lemma UninterruptedVisit(commands: seq<Command>, v: Visit)
    requires Possible(commands, v) && v.read == |commands|
    ensures Stale(commands, v) == DoomedMembers(MembersAt(Run(commands).indexes, v.key), Lapsed(Run(commands).alive))
  {
    hide Run, IdOf;
    assert commands[..|commands|] == commands;
    var members := Members(commands, v);
    assert forall j :: 0 <= j < |v.looks| ==> v.looks[j] == |commands|;
    forall m ensures m in Stale(commands, v) <==> m in DoomedMembers(members, Lapsed(Run(commands).alive)) {
      if m in DoomedMembers(members, Lapsed(Run(commands).alive)) {
        var e :| e in members && Doomed(Lapsed(Run(commands).alive), e.member) && e.member == m;
        var j :| 0 <= j < |members| && members[j] == e;
        assert SeenLapsed(commands, v, j);
      }
    }
  }

  /** It happens: a driver whose heartbeat had lapsed as it was looked up pings, and is then taken out. */
  lemma PingInBetweenIsLost(driver: nat, vehicleType: string, lng: real, lat: real)
    ensures var ping := Ping(driver, vehicleType, lng, lat, false);
      var commands, v := [ping, Lapse(driver), ping], Visit(KeyFor(vehicleType), 2, [2]);
      Possible(commands, v) && LosesLive(commands, v, driver, EntryOf(driver, vehicleType, lng, lat))
  {
    hide MemberOf, Id, KeyFor;
    var ping := Ping(driver, vehicleType, lng, lat, false);
    var commands, v := [ping, Lapse(driver), ping], Visit(KeyFor(vehicleType), 2, [2]);
    var e := EntryOf(driver, vehicleType, lng, lat);
    assert commands[..2] == [ping, Lapse(driver)] && [ping, Lapse(driver)][..1] == [ping] && [ping][..0] == [];
    assert Run([ping]).indexes == [Index(KeyFor(vehicleType), [e])];
    assert Run(commands[..2]).indexes == [Index(KeyFor(vehicleType), [e])];
    assert Members(commands, v) == [e];
    AddedAgain(KeyFor(vehicleType), e);
    assert Run(commands) == Apply(Run(commands[..2]), ping);
    assert Run(commands).indexes[0].key == KeyFor(vehicleType) && e in Run(commands).indexes[0].entries;
    assert Members(commands, v)[0].member == e.member && !LastPinged(commands[..v.looks[0]], driver);
    LosesLiveExactly(commands, v, driver, vehicleType, lng, lat);
  }

  lemma AddedAgain(key: string, e: Entry)
    ensures GeoAdd([Index(key, [e])], key, e) == [Index(key, [e])]
  {
    assert [Index(key, [e])][1..] == [] && [e][1..] == [];
    assert Put([e], e) == [e];
  }
}
