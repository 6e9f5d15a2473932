/** The geo index against a simple map of drivers, over any run of pings, removals, sweeps and lapsing
    heartbeats. */
module GeoMap {
  import opened GeoSearch
  import opened GeoIndex
  import Text = DecimalText

  /** Driver ids are database numbers; `busy` is what the active-trip key said at the ping. Sweep is a sweep
      nothing comes between, Evict the one removal of a sweep that something may. */
  datatype Command =
    | Ping(driver: nat, vehicleType: string, lng: real, lat: real, busy: bool)
    | Remove(driver: nat)
    | Sweep
    | Evict(key: string, members: set<string>)
    | Lapse(driver: nat)

  // ---- The index -----------------------------------------------------------------------------------

  datatype Geo = Geo(indexes: seq<Index>, alive: set<string>)

  function Id(driver: nat): string {
    Text.NatText(driver)
  }

  function EntryOf(driver: nat, vehicleType: string, lng: real, lat: real): Entry {
    Entry(MemberOf(Id(driver), vehicleType), lng, lat)
  }

  function Apply(g: Geo, c: Command): Geo {
    match c
    case Ping(driver, vehicleType, lng, lat, busy) =>
      Geo(if busy then ZRem(g.indexes, KeyFor(vehicleType), {MemberOf(Id(driver), vehicleType)})
          else GeoAdd(g.indexes, KeyFor(vehicleType), EntryOf(driver, vehicleType, lng, lat)),
          g.alive + {Id(driver)})
    case Remove(driver) => Geo(Purge(g.indexes, OfDriver(Id(driver))), g.alive - {Id(driver)})
    case Sweep => Geo(Purge(g.indexes, Lapsed(g.alive)), g.alive)
    case Evict(key, members) => Geo(ZRem(g.indexes, key, members), g.alive)
    case Lapse(driver) => Geo(g.indexes, g.alive - {Id(driver)})
  }

  function Run(commands: seq<Command>): Geo {
    if commands == [] then Geo([], {}) else Apply(Run(commands[..|commands| - 1]), commands[|commands| - 1])
  }

  // ---- The simple map ------------------------------------------------------------------------------

  /** Where each driver was last seen free, per vehicle type, and which drivers are alive. */
  datatype Drivers = Drivers(at: map<(nat, string), (real, real)>, alive: set<nat>)

  function ApplySimply(d: Drivers, c: Command): Drivers {
    match c
    case Ping(driver, vehicleType, lng, lat, busy) =>
      var at := if busy then d.at - {(driver, vehicleType)} else d.at[(driver, vehicleType) := (lng, lat)];
      Drivers(at, d.alive + {driver})
    case Remove(driver) => Drivers(map k | k in d.at && k.0 != driver :: d.at[k], d.alive - {driver})
    case Sweep => Drivers(map k | k in d.at && k.0 in d.alive :: d.at[k], d.alive)
    case Evict(key, members) =>
      Drivers(map k | k in d.at && !(KeyFor(k.1) == key && MemberOf(Id(k.0), k.1) in members) :: d.at[k], d.alive)
    case Lapse(driver) => Drivers(d.at, d.alive - {driver})
  }

  function RunSimply(commands: seq<Command>): Drivers {
    if commands == [] then Drivers(map[], {})
    else ApplySimply(RunSimply(commands[..|commands| - 1]), commands[|commands| - 1])
  }

  // ---- They agree ------------------------------------------------------------------------------------

  /** The map holds an entry: under the key of its vehicle type, for its driver, at its position. */
  ghost predicate Holds(d: Drivers, key: string, e: Entry) {
    exists driver: nat, vehicleType: string ::
      (driver, vehicleType) in d.at && key == KeyFor(vehicleType)
      && e == EntryOf(driver, vehicleType, d.at[(driver, vehicleType)].0, d.at[(driver, vehicleType)].1)
  }

  ghost predicate Agrees(g: Geo, d: Drivers) {
    && ValidIndexes(g.indexes)
    && (forall key, e :: InIndex(g.indexes, key, e) <==> Holds(d, key, e))
    && (forall driver: nat :: Id(driver) in g.alive <==> driver in d.alive)
  }

  lemma IdsDiffer(a: nat, b: nat)
    ensures Id(a) == Id(b) ==> a == b
    ensures ':' !in Id(a)
  {
    Text.NatRoundTrip(a);
    Text.NatRoundTrip(b);
    NumericIdsHaveNoColon(a);
  }

  /** A key and a member name one vehicle type and one driver. */
  lemma NamesDiffer(a: nat, s: string, b: nat, t: string)
    ensures KeyFor(s) == KeyFor(t) <==> s == t
    ensures MemberOf(Id(a), s) == MemberOf(Id(b), t) ==> a == b
    ensures IdOf(MemberOf(Id(a), s)) == Id(a)
  {
    IdsDiffer(a, b);
    IdsDiffer(b, a);
    MemberRoundTrip(Id(a), s);
    MemberRoundTrip(Id(b), t);
    hide MemberOf, Id, IdOf;
    assert KeyFor(s)[|GEO_KEY_PREFIX|..] == s && KeyFor(t)[|GEO_KEY_PREFIX|..] == t;
  }

  lemma PingAgrees(g: Geo, d: Drivers, c: Command)
    requires Agrees(g, d) && c.Ping?
    ensures Agrees(Apply(g, c), ApplySimply(d, c))
  {
    hide MemberOf, KeyFor, Id, IdOf, InIndex, ValidIndexes, UniqueKeys, GeoAdd, ZRem;
    var g', d' := Apply(g, c), ApplySimply(d, c);
    var key, member := KeyFor(c.vehicleType), MemberOf(Id(c.driver), c.vehicleType);
    var entry := EntryOf(c.driver, c.vehicleType, c.lng, c.lat);
    KeysAreUnique(g.indexes);
    forall k, e ensures InIndex(g'.indexes, k, e) <==> Holds(d', k, e) {
      PutOrTaken(d, c, k, e);
      if c.busy {
        ZRemIsExact(g.indexes, key, {member}, k, e);
      } else {
        GeoAddIsExact(g.indexes, key, entry, k, e);
      }
    }
    if c.busy {
      ZRemValid(g.indexes, key, {member});
    } else {
      GeoAddValid(g.indexes, key, entry);
    }
    forall driver: nat ensures Id(driver) in g'.alive <==> driver in d'.alive {
      IdsDiffer(driver, c.driver);
    }
  }

  lemma KeysAreUnique(ixs: seq<Index>)
    requires ValidIndexes(ixs)
    ensures UniqueKeys(ixs)
  {
  }

  /** What a ping does to the map, read entry by entry. */
  lemma PutOrTaken(d: Drivers, c: Command, k: string, e: Entry)
    requires c.Ping?
    ensures var here := k == KeyFor(c.vehicleType) && e.member == MemberOf(Id(c.driver), c.vehicleType);
      Holds(ApplySimply(d, c), k, e) <==>
        (!c.busy && k == KeyFor(c.vehicleType) && e == EntryOf(c.driver, c.vehicleType, c.lng, c.lat))
            || (Holds(d, k, e) && !here)
  {
    hide MemberOf, KeyFor, Id, IdOf;
    var d' := ApplySimply(d, c);
    forall driver: nat, vehicleType: string
      ensures (k == KeyFor(vehicleType) && k == KeyFor(c.vehicleType)) ==> vehicleType == c.vehicleType
      ensures MemberOf(Id(driver), vehicleType) == MemberOf(Id(c.driver), c.vehicleType) ==> driver == c.driver
    {
      NamesDiffer(driver, vehicleType, c.driver, c.vehicleType);
    }
    if Holds(d', k, e) {
      var driver: nat, vehicleType: string :| (driver, vehicleType) in d'.at && k == KeyFor(vehicleType)
        && e == EntryOf(driver, vehicleType, d'.at[(driver, vehicleType)].0, d'.at[(driver, vehicleType)].1);
      if (driver, vehicleType) != (c.driver, c.vehicleType) {
        assert (driver, vehicleType) in d.at && d.at[(driver, vehicleType)] == d'.at[(driver, vehicleType)];
      }
    }
    if Holds(d, k, e) {
      var driver: nat, vehicleType: string :| (driver, vehicleType) in d.at && k == KeyFor(vehicleType)
        && e == EntryOf(driver, vehicleType, d.at[(driver, vehicleType)].0, d.at[(driver, vehicleType)].1);
      if (driver, vehicleType) != (c.driver, c.vehicleType) {
        assert (driver, vehicleType) in d'.at && d.at[(driver, vehicleType)] == d'.at[(driver, vehicleType)];
      }
    }
    if !c.busy && k == KeyFor(c.vehicleType) && e == EntryOf(c.driver, c.vehicleType, c.lng, c.lat) {
      assert (c.driver, c.vehicleType) in d'.at && d'.at[(c.driver, c.vehicleType)] == (c.lng, c.lat);
    }
  }

  /** A removal or a sweep keeps of the map what it keeps of the index. */
  lemma PurgeAgrees(g: Geo, d: Drivers, c: Command)
    requires Agrees(g, d) && (c.Remove? || c.Sweep?)
    ensures Agrees(Apply(g, c), ApplySimply(d, c))
  {
    hide MemberOf, KeyFor, Id, IdOf, InIndex, ValidIndexes, Purge, Doomed;
    var rule := if c.Remove? then OfDriver(Id(c.driver)) else Lapsed(g.alive);
    var g', d' := Apply(g, c), ApplySimply(d, c);
    PurgeValid(g.indexes, rule);
    forall k, e ensures InIndex(g'.indexes, k, e) <==> Holds(d', k, e) {
      PurgeIsExact(g.indexes, rule, k, e);
      KeptSimply(g, d, c, k, e);
    }
    if c.Remove? {
      forall driver: nat ensures Id(driver) in g'.alive <==> driver in d'.alive {
        IdsDiffer(driver, c.driver);
      }
    }
  }

  lemma KeptSimply(g: Geo, d: Drivers, c: Command, k: string, e: Entry)
    requires (c.Remove? || c.Sweep?) && forall driver: nat :: Id(driver) in g.alive <==> driver in d.alive
    ensures Holds(ApplySimply(d, c), k, e) <==>
      Holds(d, k, e) && !Doomed(if c.Remove? then OfDriver(Id(c.driver)) else Lapsed(g.alive), e.member)
  {
    hide MemberOf, KeyFor, Id, IdOf, Doomed;
    var d' := ApplySimply(d, c);
    var rule := if c.Remove? then OfDriver(Id(c.driver)) else Lapsed(g.alive);
    forall driver: nat, vehicleType: string
      ensures Doomed(rule, MemberOf(Id(driver), vehicleType)) <==>
        if c.Remove? then driver == c.driver else driver !in d.alive
    {
      DoomedDriver(g, d, c, driver, vehicleType);
    }
    if Holds(d', k, e) {
      var driver: nat, vehicleType: string :| (driver, vehicleType) in d'.at && k == KeyFor(vehicleType)
        && e == EntryOf(driver, vehicleType, d'.at[(driver, vehicleType)].0, d'.at[(driver, vehicleType)].1);
      assert (driver, vehicleType) in d.at && d.at[(driver, vehicleType)] == d'.at[(driver, vehicleType)];
    }
    if Holds(d, k, e) && !Doomed(rule, e.member) {
      var driver: nat, vehicleType: string :| (driver, vehicleType) in d.at && k == KeyFor(vehicleType)
        && e == EntryOf(driver, vehicleType, d.at[(driver, vehicleType)].0, d.at[(driver, vehicleType)].1);
      assert (driver, vehicleType) in d'.at && d.at[(driver, vehicleType)] == d'.at[(driver, vehicleType)];
    }
  }

  lemma EvictAgrees(g: Geo, d: Drivers, c: Command)
    requires Agrees(g, d) && c.Evict?
    ensures Agrees(Apply(g, c), ApplySimply(d, c))
  {
    hide MemberOf, KeyFor, Id, IdOf, InIndex, ValidIndexes, UniqueKeys, ZRem;
    var g', d' := Apply(g, c), ApplySimply(d, c);
    KeysAreUnique(g.indexes);
    ZRemValid(g.indexes, c.key, c.members);
    forall k, e ensures InIndex(g'.indexes, k, e) <==> Holds(d', k, e) {
      ZRemIsExact(g.indexes, c.key, c.members, k, e);
      SparedSimply(d, c, k, e);
    }
  }

  lemma SparedSimply(d: Drivers, c: Command, k: string, e: Entry)
    requires c.Evict?
    ensures Holds(ApplySimply(d, c), k, e) <==> Holds(d, k, e) && !(k == c.key && e.member in c.members)
  {
    hide MemberOf, KeyFor, Id, IdOf;
    var d' := ApplySimply(d, c);
    if Holds(d', k, e) {
      var driver: nat, vehicleType: string :| (driver, vehicleType) in d'.at && k == KeyFor(vehicleType)
        && e == EntryOf(driver, vehicleType, d'.at[(driver, vehicleType)].0, d'.at[(driver, vehicleType)].1);
      assert (driver, vehicleType) in d.at && d.at[(driver, vehicleType)] == d'.at[(driver, vehicleType)];
    }
    if Holds(d, k, e) && !(k == c.key && e.member in c.members) {
      var driver: nat, vehicleType: string :| (driver, vehicleType) in d.at && k == KeyFor(vehicleType)
        && e == EntryOf(driver, vehicleType, d.at[(driver, vehicleType)].0, d.at[(driver, vehicleType)].1);
      assert (driver, vehicleType) in d'.at && d.at[(driver, vehicleType)] == d'.at[(driver, vehicleType)];
    }
  }

  lemma DoomedDriver(g: Geo, d: Drivers, c: Command, driver: nat, vehicleType: string)
    requires (c.Remove? || c.Sweep?) && forall driver: nat :: Id(driver) in g.alive <==> driver in d.alive
    ensures var rule := if c.Remove? then OfDriver(Id(c.driver)) else Lapsed(g.alive);
      Doomed(rule, MemberOf(Id(driver), vehicleType)) <==> if c.Remove? then driver == c.driver else driver !in d.alive
  {
    NamesDiffer(driver, vehicleType, driver, vehicleType);
    if c.Remove? {
      IdsDiffer(driver, c.driver);
      IdsDiffer(c.driver, driver);
      PrefixNamesOneDriver(Id(c.driver), Id(driver), vehicleType);
    }
  }

  /** After any run the index holds exactly the entries of the simple map, and the heartbeats are
      exactly its live drivers. */
  lemma {:induction false} IndexIsTheMap(commands: seq<Command>)
    ensures Agrees(Run(commands), RunSimply(commands))
  {
    if commands != [] {
      hide Agrees, Apply, ApplySimply;
      var before, last := commands[..|commands| - 1], commands[|commands| - 1];
      IndexIsTheMap(before);
      match last {
        case Ping(_, _, _, _, _) => PingAgrees(Run(before), RunSimply(before), last);
        case Remove(_) => PurgeAgrees(Run(before), RunSimply(before), last);
        case Sweep => PurgeAgrees(Run(before), RunSimply(before), last);
        case Evict(_, _) => EvictAgrees(Run(before), RunSimply(before), last);
        case Lapse(driver) => LapseAgrees(Run(before), RunSimply(before), driver);
      }
    } else {
      assert forall key, e :: !InIndex([], key, e);
    }
  }

  lemma LapseAgrees(g: Geo, d: Drivers, driver: nat)
    requires Agrees(g, d)
    ensures Agrees(Apply(g, Lapse(driver)), ApplySimply(d, Lapse(driver)))
  {
    hide InIndex, ValidIndexes, Id;
    var g', d' := Apply(g, Lapse(driver)), ApplySimply(d, Lapse(driver));
    assert g'.indexes == g.indexes && d'.at == d.at;
    forall k, e ensures Holds(d', k, e) <==> Holds(d, k, e) {
    }
    forall other: nat ensures Id(other) in g'.alive <==> other in d'.alive {
      IdsDiffer(other, driver);
    }
  }

  /** So a search over everything, when no truncated list holds a lapsed heartbeat, returns the nearest
      of the live drivers the map has within the radius, one entry per driver and vehicle type. */
  lemma NearestOfTheMap(commands: seq<Command>, q: Query, count: nat)
    requires var lists := Lists(Run(commands).indexes, q);
      forall i :: 0 <= i < |lists| ==> !HidesBehindGhost(lists[i], Run(commands).alive, count)
    ensures var g := Run(commands); var pool := Live(Union(Lists(g.indexes, q)), g.alive);
      && IsTopK(Nearest(Lists(g.indexes, q), g.alive, count), pool, count)
      && forall x :: x in pool <==> OffersIt(RunSimply(commands), q, x)
  {
    hide Run, RunSimply, Nearest, IsTopK, Live, Union, InIndex;
    IndexIsTheMap(commands);
    SearchedMap(Run(commands), RunSimply(commands), q, count);
  }

  lemma SearchedMap(g: Geo, d: Drivers, q: Query, count: nat)
    requires Agrees(g, d)
    requires forall i :: 0 <= i < |Lists(g.indexes, q)| ==> !HidesBehindGhost(Lists(g.indexes, q)[i], g.alive, count)
    ensures var pool := Live(Union(Lists(g.indexes, q)), g.alive);
      && IsTopK(Nearest(Lists(g.indexes, q), g.alive, count), pool, count)
      && forall x :: x in pool <==> OffersIt(d, q, x)
  {
    hide Nearest, IsTopK, Live, Union, InIndex, Agrees, OffersIt;
    NearestIsTopK(Lists(g.indexes, q), g.alive, count);
    forall x ensures x in Live(Union(Lists(g.indexes, q)), g.alive) <==> OffersIt(d, q, x) {
      OfferedMembers(g.indexes, g.alive, q, x);
      OfferedByMap(g, d, q, x);
    }
  }

  /** The map offers what a search found: a live driver within the radius. */
  ghost predicate OffersIt(d: Drivers, q: Query, x: Found) {
    exists driver: nat, vehicleType: string ::
      (driver, vehicleType) in d.at && driver in d.alive
      && Matches(q, EntryOf(driver, vehicleType, d.at[(driver, vehicleType)].0, d.at[(driver, vehicleType)].1), x)
  }

  lemma OfferedByMap(g: Geo, d: Drivers, q: Query, x: Found)
    requires Agrees(g, d)
    ensures (x.id in g.alive && exists k, e :: InIndex(g.indexes, k, e) && Matches(q, e, x)) <==> OffersIt(d, q, x)
  {
    hide InIndex, ValidIndexes, Id, MemberOf, IdOf, KeyFor;
    forall driver: nat, vehicleType: string ensures IdOf(MemberOf(Id(driver), vehicleType)) == Id(driver) {
      NamesDiffer(driver, vehicleType, driver, vehicleType);
    }
    if x.id in g.alive && exists k, e :: InIndex(g.indexes, k, e) && Matches(q, e, x) {
      var k, e :| InIndex(g.indexes, k, e) && Matches(q, e, x);
      assert Holds(d, k, e);
      var driver: nat, vehicleType: string :| (driver, vehicleType) in d.at && k == KeyFor(vehicleType)
        && e == EntryOf(driver, vehicleType, d.at[(driver, vehicleType)].0, d.at[(driver, vehicleType)].1);
      assert x.id == Id(driver);
      assert OffersIt(d, q, x);
    }
    if OffersIt(d, q, x) {
      var driver: nat, vehicleType: string :| (driver, vehicleType) in d.at && driver in d.alive
        && Matches(q, EntryOf(driver, vehicleType, d.at[(driver, vehicleType)].0, d.at[(driver, vehicleType)].1), x);
      var e := EntryOf(driver, vehicleType, d.at[(driver, vehicleType)].0, d.at[(driver, vehicleType)].1);
      assert Holds(d, KeyFor(vehicleType), e);
      assert InIndex(g.indexes, KeyFor(vehicleType), e);
    }
  }

  /** A driver who pings free under one vehicle type and then busy under another stays where the first ping
      put it, live, and is offered there. */
  lemma BusyUnderAnotherType(driver: nat, first: string, second: string, lng: real, lat: real, lng': real, lat': real)
    requires first != second
    ensures var g := Run([Ping(driver, first, lng, lat, false), Ping(driver, second, lng', lat', true)]);
      InIndex(g.indexes, KeyFor(first), EntryOf(driver, first, lng, lat)) && Id(driver) in g.alive
  {
    hide KeyFor, MemberOf, Id, InIndex, ZRem, GeoAdd;
    var one, two := Ping(driver, first, lng, lat, false), Ping(driver, second, lng', lat', true);
    RunTwo(one, two);
    NamesDiffer(driver, first, driver, second);
    var e := EntryOf(driver, first, lng, lat);
    var ixs := GeoAdd([], KeyFor(first), e);
    GeoAddIsExact([], KeyFor(first), e, KeyFor(first), e);
    GeoAddValid([], KeyFor(first), e);
    ZRemIsExact(ixs, KeyFor(second), {MemberOf(Id(driver), second)}, KeyFor(first), e);
  }

  lemma RunTwo(one: Command, two: Command)
    ensures Run([one, two]) == Apply(Apply(Geo([], {}), one), two)
  {
    assert [one, two][..1] == [one] && [one][..0] == [];
    assert Run([one]) == Apply(Run([]), one);
  }
}
