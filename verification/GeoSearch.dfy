/** Searching several sorted sets at once: what one search returns, and what joining, filtering and
    re-sorting the answers gives. */
module GeoSearch {

  /** A member found by a search, with its distance from the query point. */
  datatype Found = Found(member: string, id: string, distance: real)

  /** Equal distances keep their order: the new element goes in front of those not nearer. */
  function Insert(x: Found, s: seq<Found>): (r: seq<Found>)
    ensures multiset(r) == multiset(s) + multiset{x}
  {
    if s == [] || x.distance <= s[0].distance then [x] + s
    else
      assert s == [s[0]] + s[1..];
      [s[0]] + Insert(x, s[1..])
  }

  /** Stable sort by distance. */
  function Sort(s: seq<Found>): (r: seq<Found>)
    ensures multiset(r) == multiset(s)
  {
    if s == [] then []
    else
      assert s == [s[0]] + s[1..];
      Insert(s[0], Sort(s[1..]))
  }

  predicate Ascending(s: seq<Found>) {
    forall i, j :: 0 <= i < j < |s| ==> s[i].distance <= s[j].distance
  }

  function Take(s: seq<Found>, k: nat): seq<Found> {
    if |s| <= k then s else s[..k]
  }

  function Drop(s: seq<Found>, k: nat): seq<Found> {
    if |s| <= k then [] else s[k..]
  }

  function Live(s: seq<Found>, alive: set<string>): (r: seq<Found>)
    ensures forall x :: x in r <==> x in s && x.id in alive
  {
    if s == [] then []
    else if s[0].id in alive then [s[0]] + Live(s[1..], alive)
    else Live(s[1..], alive)
  }

  // ---- One list ----------------------------------------------------------------------------------

  lemma {:induction false} InsertAscending(x: Found, s: seq<Found>)
    requires Ascending(s)
    ensures Ascending(Insert(x, s))
  {
    if s != [] && !(x.distance <= s[0].distance) {
      InsertAscending(x, s[1..]);
      var rest := Insert(x, s[1..]);
      forall j | 0 <= j < |rest| ensures s[0].distance <= rest[j].distance {
        assert rest[j] in multiset(rest);
        assert rest[j] == x || rest[j] in s[1..];
      }
    }
  }

  lemma {:induction false} SortAscending(s: seq<Found>)
    ensures Ascending(Sort(s))
  {
    if s != [] {
      SortAscending(s[1..]);
      InsertAscending(s[0], Sort(s[1..]));
    }
  }

  /** Sorting a sorted list changes nothing, ties included. */
  lemma {:induction false} SortedIsSort(s: seq<Found>)
    requires Ascending(s)
    ensures Sort(s) == s
  {
    if s != [] {
      SortedIsSort(s[1..]);
      assert s == [s[0]] + s[1..];
      if |s| > 1 {
        assert s[1..][0] == s[1];
      }
    }
  }

  lemma {:induction false} LiveConcat(s: seq<Found>, t: seq<Found>, alive: set<string>)
    ensures Live(s + t, alive) == Live(s, alive) + Live(t, alive)
  {
    if s == [] {
      assert s + t == t;
    } else {
      LiveConcat(s[1..], t, alive);
      assert (s + t)[1..] == s[1..] + t;
    }
  }

  lemma {:induction false} LiveAscending(s: seq<Found>, alive: set<string>)
    requires Ascending(s)
    ensures Ascending(Live(s, alive))
  {
    if s != [] {
      LiveAscending(s[1..], alive);
      forall j | 0 <= j < |Live(s[1..], alive)| ensures s[0].distance <= Live(s[1..], alive)[j].distance {
        assert Live(s[1..], alive)[j] in s[1..];
      }
    }
  }

  lemma {:induction false} LiveInsert(x: Found, s: seq<Found>, alive: set<string>)
    requires Ascending(s)
    ensures Live(Insert(x, s), alive) == if x.id in alive then Insert(x, Live(s, alive)) else Live(s, alive)
  {
    hide Insert, Live, Ascending;
    if s == [] || x.distance <= s[0].distance {
      InsertAhead(x, s);
      LiveFront(x, s, alive);
      InsertFirst(x, s, alive);
    } else {
      var first, rest := s[0], s[1..];
      assert s == [first] + rest;
      AscendingRest(s);
      LiveInsert(x, rest, alive);
      InsertBehind(x, first, rest);
      InsertBehind(x, first, Live(rest, alive));
      LiveFront(first, Insert(x, rest), alive);
      LiveFront(first, rest, alive);
    }
  }

  lemma AscendingRest(s: seq<Found>)
    requires Ascending(s) && s != []
    ensures Ascending(s[1..])
  {
  }

  lemma InsertAhead(x: Found, s: seq<Found>)
    requires s == [] || x.distance <= s[0].distance
    ensures Insert(x, s) == [x] + s
  {
  }

  lemma InsertBehind(x: Found, first: Found, rest: seq<Found>)
    requires !(x.distance <= first.distance)
    ensures Insert(x, [first] + rest) == [first] + Insert(x, rest)
  {
    assert ([first] + rest)[1..] == rest;
  }

  lemma LiveFront(x: Found, s: seq<Found>, alive: set<string>)
    ensures Live([x] + s, alive) == if x.id in alive then [x] + Live(s, alive) else Live(s, alive)
  {
    assert ([x] + s)[1..] == s;
  }

  /** Nothing live is nearer than an entry nearer than all. */
  lemma InsertFirst(x: Found, s: seq<Found>, alive: set<string>)
    requires Ascending(s) && (s == [] || x.distance <= s[0].distance)
    ensures Insert(x, Live(s, alive)) == [x] + Live(s, alive)
  {
    if Live(s, alive) != [] {
      assert Live(s, alive)[0] in s;
    }
  }

  /** Dropping the lapsed before sorting or after it is the same, ties included. */
  lemma {:induction false} LiveSort(s: seq<Found>, alive: set<string>)
    ensures Live(Sort(s), alive) == Sort(Live(s, alive))
  {
    if s != [] {
      LiveSort(s[1..], alive);
      SortAscending(s[1..]);
      LiveInsert(s[0], Sort(s[1..]), alive);
      if s[0].id in alive {
        assert Live(s, alive)[1..] == Live(s[1..], alive);
      }
    }
  }

  lemma {:induction false} LiveAll(s: seq<Found>, alive: set<string>)
    requires forall x :: x in s ==> x.id in alive
    ensures Live(s, alive) == s
  {
    if s != [] {
      LiveAll(s[1..], alive);
    }
  }

  lemma {:induction false} LiveMultiset(s: seq<Found>, t: seq<Found>, alive: set<string>)
    requires multiset(s) == multiset(t)
    ensures multiset(Live(s, alive)) == multiset(Live(t, alive))
  {
    forall x: Found ensures multiset(Live(s, alive))[x] == multiset(Live(t, alive))[x] {
      LiveCount(s, alive, x);
      LiveCount(t, alive, x);
    }
  }

  lemma {:induction false} LiveCount(s: seq<Found>, alive: set<string>, x: Found)
    ensures multiset(Live(s, alive))[x] == if x.id in alive then multiset(s)[x] else 0
  {
    if s != [] {
      LiveCount(s[1..], alive, x);
      assert s == [s[0]] + s[1..];
    }
  }

  // ---- Several lists -------------------------------------------------------------------------------

  /** One search per list: the nearest `count` of each, joined. */
  function Joined(lists: seq<seq<Found>>, count: nat): seq<Found> {
    if lists == [] then [] else Take(Sort(lists[0]), count) + Joined(lists[1..], count)
  }

  /** Everything the lists hold. */
  function Union(lists: seq<seq<Found>>): seq<Found> {
    if lists == [] then [] else lists[0] + Union(lists[1..])
  }

  /** What the searches cut off. */
  function CutOff(lists: seq<seq<Found>>, count: nat): seq<Found> {
    if lists == [] then [] else Drop(Sort(lists[0]), count) + CutOff(lists[1..], count)
  }

  /** Join, drop the lapsed, re-sort when there is more than one list, and cut to `count`. */
  function Nearest(lists: seq<seq<Found>>, alive: set<string>, count: nat): seq<Found> {
    var live := Live(Joined(lists, count), alive);
    Take(if |lists| > 1 then Sort(live) else live, count)
  }

  /** r holds the k nearest of the pool: as many as there are up to k, in order, and nothing left out
      is nearer than anything in it. */
  predicate IsTopK(r: seq<Found>, pool: seq<Found>, k: nat) {
    && |r| <= k && Ascending(r) && multiset(r) <= multiset(pool)
    && forall x | x in multiset(pool) - multiset(r) :: |r| == k && (forall y | y in r :: y.distance <= x.distance)
  }

  /** A list the search truncates, with a lapsed heartbeat among those it keeps. */
  predicate HidesBehindGhost(list: seq<Found>, alive: set<string>, count: nat) {
    |list| > count && exists x :: x in Take(Sort(list), count) && x.id !in alive
  }

  /** Re-sorting is only skipped where it would change nothing. */
  lemma NearestSorts(lists: seq<seq<Found>>, alive: set<string>, count: nat)
    ensures Nearest(lists, alive, count) == Take(Sort(Live(Joined(lists, count), alive)), count)
  {
    hide Sort, Live, Ascending, Joined;
    if |lists| == 1 {
      OneListIsSorted(lists, count);
      LiveAscending(Joined(lists, count), alive);
      SortedIsSort(Live(Joined(lists, count), alive));
    } else if |lists| == 0 {
      NothingJoined(count, alive);
    }
  }

  lemma OneListIsSorted(lists: seq<seq<Found>>, count: nat)
    requires |lists| == 1
    ensures Ascending(Joined(lists, count))
  {
    hide Sort;
    assert lists[1..] == [];
    assert Joined(lists, count) == Take(Sort(lists[0]), count);
    SortAscending(lists[0]);
  }

  lemma NothingJoined(count: nat, alive: set<string>)
    ensures Live(Joined([], count), alive) == Sort(Live(Joined([], count), alive)) == []
  {
  }

  lemma TakeDrop(s: seq<Found>, k: nat)
    ensures Take(s, k) + Drop(s, k) == s
  {
  }

  /** What is live is live in what was kept or in what was cut off. */
  lemma {:induction false} LivePool(lists: seq<seq<Found>>, alive: set<string>, count: nat)
    ensures multiset(Live(Union(lists), alive))
      == multiset(Live(Joined(lists, count), alive)) + multiset(Live(CutOff(lists, count), alive))
  {
    if lists != [] {
      LivePool(lists[1..], alive, count);
      var kept, cut := Take(Sort(lists[0]), count), Drop(Sort(lists[0]), count);
      LiveConcat(lists[0], Union(lists[1..]), alive);
      LiveConcat(kept, Joined(lists[1..], count), alive);
      LiveConcat(cut, CutOff(lists[1..], count), alive);
      TakeDrop(Sort(lists[0]), count);
      LiveConcat(kept, cut, alive);
      LiveMultiset(lists[0], kept + cut, alive);
    }
  }

  /** How many of a list are within a distance. */
  function Within(s: seq<Found>, distance: real): nat {
    if s == [] then 0 else (if s[0].distance <= distance then 1 else 0) + Within(s[1..], distance)
  }

  lemma {:induction false} WithinConcat(s: seq<Found>, t: seq<Found>, distance: real)
    ensures Within(s + t, distance) == Within(s, distance) + Within(t, distance)
  {
    if s == [] {
      assert s + t == t;
    } else {
      WithinConcat(s[1..], t, distance);
      assert (s + t)[1..] == s[1..] + t;
    }
  }

  lemma {:induction false} WithinAll(s: seq<Found>, distance: real)
    requires forall x :: x in s ==> x.distance <= distance
    ensures Within(s, distance) == |s|
  {
    if s != [] {
      WithinAll(s[1..], distance);
    }
  }

  lemma {:induction false} WithinInsert(x: Found, s: seq<Found>, distance: real)
    ensures Within(Insert(x, s), distance) == Within(s, distance) + (if x.distance <= distance then 1 else 0)
  {
    if s == [] || x.distance <= s[0].distance {
      assert ([x] + s)[1..] == s;
    } else {
      WithinInsert(x, s[1..], distance);
      assert Insert(x, s)[1..] == Insert(x, s[1..]);
    }
  }

  lemma {:induction false} WithinSort(s: seq<Found>, distance: real)
    ensures Within(Sort(s), distance) == Within(s, distance)
  {
    if s != [] {
      WithinSort(s[1..], distance);
      WithinInsert(s[0], Sort(s[1..]), distance);
    }
  }

  lemma {:induction false} WithinBound(s: seq<Found>, distance: real)
    ensures Within(s, distance) <= |s|
  {
    if s != [] {
      WithinBound(s[1..], distance);
    }
  }

  /** If k elements of a sorted list are within a distance, the first k are. */
  lemma {:induction false} FirstAreWithin(s: seq<Found>, distance: real, k: nat)
    requires Ascending(s) && Within(s, distance) >= k
    ensures k <= |s| && forall i :: 0 <= i < k ==> s[i].distance <= distance
  {
    WithinBound(s, distance);
    if k > 0 {
      if s[0].distance <= distance {
        FirstAreWithin(s[1..], distance, k - 1);
        forall i | 0 <= i < k ensures s[i].distance <= distance {
          if i > 0 {
            assert s[i] == s[1..][i - 1];
          }
        }
      } else {
        NoneWithin(s, distance);
      }
    }
  }

  lemma {:induction false} NoneWithin(s: seq<Found>, distance: real)
    requires forall i :: 0 <= i < |s| ==> s[i].distance > distance
    ensures Within(s, distance) == 0
  {
    if s != [] {
      NoneWithin(s[1..], distance);
    }
  }

  /** A live member that a search cut off has `count` live members ahead of it, when the search kept
      no ghost. */
  lemma {:induction false} CutOffIsFar(lists: seq<seq<Found>>, alive: set<string>, count: nat, x: Found)
    requires forall i :: 0 <= i < |lists| ==> !HidesBehindGhost(lists[i], alive, count)
    requires x in CutOff(lists, count)
    ensures Within(Live(Joined(lists, count), alive), x.distance) >= count
  {
    hide Sort, Live, HidesBehindGhost, Within;
    var list, rest := lists[0], lists[1..];
    var kept, cut := Take(Sort(list), count), Drop(Sort(list), count);
    LiveConcat(kept, Joined(rest, count), alive);
    WithinConcat(Live(kept, alive), Live(Joined(rest, count), alive), x.distance);
    if x in cut {
      KeptAreNear(list, alive, count, x);
    } else {
      forall i | 0 <= i < |rest| ensures !HidesBehindGhost(rest[i], alive, count) {
        assert rest[i] == lists[i + 1];
      }
      CutOffIsFar(rest, alive, count, x);
    }
  }

  lemma KeptAreNear(list: seq<Found>, alive: set<string>, count: nat, x: Found)
    requires !HidesBehindGhost(list, alive, count) && x in Drop(Sort(list), count)
    ensures Within(Live(Take(Sort(list), count), alive), x.distance) >= count
  {
    hide Sort, Live, Within;
    var kept := Take(Sort(list), count);
    Lengths(list);
    LiveAll(kept, alive);
    SortAscending(list);
    var i :| count <= i < |list| && Sort(list)[i] == x;
    WithinAll(kept, x.distance);
  }

  lemma TakeIsTopK(s: seq<Found>, k: nat)
    requires Ascending(s)
    ensures IsTopK(Take(s, k), s, k)
  {
    TakeDrop(s, k);
    assert multiset(s) == multiset(Take(s, k)) + multiset(Drop(s, k));
    forall x | x in multiset(s) - multiset(Take(s, k))
      ensures |Take(s, k)| == k && forall y | y in Take(s, k) :: y.distance <= x.distance
    {
      assert x in Drop(s, k);
    }
  }

  /** The result is always in order, at most `count` long, and made of live members of the lists. */
  lemma NearestIsLiveAndSorted(lists: seq<seq<Found>>, alive: set<string>, count: nat)
    ensures var r := Nearest(lists, alive, count);
      && |r| <= count && Ascending(r) && multiset(r) <= multiset(Live(Union(lists), alive))
      && forall x :: x in r ==> x.id in alive
  {
    NearestSorts(lists, alive, count);
    LivePool(lists, alive, count);
    var live := Live(Joined(lists, count), alive);
    SortAscending(live);
    TakeIsTopK(Sort(live), count);
    forall x | x in Nearest(lists, alive, count) ensures x.id in alive {
      assert x in multiset(Sort(live));
      assert x in live;
    }
  }

  /** Read off the result: the search is a correct top-`count` exactly when nothing live that was cut off
      displaces the last of it. */
  lemma TopKByResult(lists: seq<seq<Found>>, alive: set<string>, count: nat)
    ensures IsTopK(Nearest(lists, alive, count), Live(Union(lists), alive), count) <==>
      var r := Nearest(lists, alive, count);
      forall x | x in CutOff(lists, count) && x.id in alive ::
        |r| == count && (r == [] || r[|r| - 1].distance <= x.distance)
  {
    hide IsTopK, Nearest, Joined, CutOff, Union, Live, Sort;
    var r, pool := Nearest(lists, alive, count), Live(Union(lists), alive);
    var live, cut := Live(Joined(lists, count), alive), Live(CutOff(lists, count), alive);
    LivePool(lists, alive, count);
    NearestIsLiveAndSorted(lists, alive, count);
    NearestSorts(lists, alive, count);
    SortAscending(live);
    TakeIsTopK(Sort(live), count);
    TopKWithMore(r, Sort(live), cut, pool, count);
  }

  /** The search is a correct top-`count` exactly when every live member a list cut off has `count` live
      members, among those the lists kept, at least as near as it is. */
  lemma TopKExactly(lists: seq<seq<Found>>, alive: set<string>, count: nat)
    ensures IsTopK(Nearest(lists, alive, count), Live(Union(lists), alive), count) <==>
      forall x | x in CutOff(lists, count) && x.id in alive ::
        Within(Live(Joined(lists, count), alive), x.distance) >= count
  {
    hide IsTopK, Nearest, Joined, CutOff, Union, Live, Sort, Within;
    var r, live := Nearest(lists, alive, count), Live(Joined(lists, count), alive);
    TopKByResult(lists, alive, count);
    NearestSorts(lists, alive, count);
    SortAscending(live);
    forall x | x in CutOff(lists, count) && x.id in alive
      ensures Within(live, x.distance) >= count <==> |r| == count && (r == [] || r[|r| - 1].distance <= x.distance)
    {
      WithinSort(live, x.distance);
      FullPrefix(Sort(live), x.distance, count);
    }
  }

  /** The first k of a sorted list are k and within a distance exactly when k of its elements are. */
  lemma FullPrefix(s: seq<Found>, distance: real, k: nat)
    requires Ascending(s)
    ensures var r := Take(s, k);
      Within(s, distance) >= k <==> |r| == k && (r == [] || r[|r| - 1].distance <= distance)
  {
    var r := Take(s, k);
    if Within(s, distance) >= k {
      FirstAreWithin(s, distance, k);
    }
    if |r| == k && (r == [] || r[|r| - 1].distance <= distance) {
      WithinAll(r, distance);
      TakeDrop(s, k);
      WithinConcat(r, Drop(s, k), distance);
    }
  }

  /** Adding more to the pool keeps the top k exactly when none of it displaces the last. */
  lemma TopKWithMore(r: seq<Found>, s: seq<Found>, more: seq<Found>, pool: seq<Found>, k: nat)
    requires IsTopK(r, s, k) && multiset(pool) == multiset(s) + multiset(more)
    ensures IsTopK(r, pool, k) <==>
      forall x | x in more :: |r| == k && (r == [] || r[|r| - 1].distance <= x.distance)
  {
    hide Ascending;
    assert multiset(pool) - multiset(r) == (multiset(s) - multiset(r)) + multiset(more);
    if IsTopK(r, pool, k) {
      forall x | x in more ensures |r| == k && (r == [] || r[|r| - 1].distance <= x.distance) {
        assert x in multiset(pool) - multiset(r);
        assert r == [] || r[|r| - 1] in r;
      }
    }
    if forall x | x in more :: |r| == k && (r == [] || r[|r| - 1].distance <= x.distance) {
      forall x | x in multiset(pool) - multiset(r)
        ensures |r| == k && forall y | y in r :: y.distance <= x.distance
      {
        if x in multiset(s) - multiset(r) {
        } else {
          LastIsFarthest(r);
          assert x in more;
        }
      }
    }
  }

  lemma LastIsFarthest(r: seq<Found>)
    requires Ascending(r)
    ensures forall y :: y in r ==> y.distance <= r[|r| - 1].distance
  {
  }

  /** No truncated search kept a ghost: then the answer is the `count` nearest of all live members. */
  lemma NearestIsTopK(lists: seq<seq<Found>>, alive: set<string>, count: nat)
    requires forall i :: 0 <= i < |lists| ==> !HidesBehindGhost(lists[i], alive, count)
    ensures IsTopK(Nearest(lists, alive, count), Live(Union(lists), alive), count)
  {
    forall x | x in CutOff(lists, count) && x.id in alive
      ensures Within(Live(Joined(lists, count), alive), x.distance) >= count
    {
      CutOffIsFar(lists, alive, count, x);
    }
    TopKExactly(lists, alive, count);
  }

  /** With a ghost among the kept, a live driver can be missed: two members in one list, the nearer
      one lapsed, and room for one. */
  lemma GhostHidesADriver()
    ensures var list := [Found("driver:1:bike", "1", 10.0), Found("driver:2:bike", "2", 20.0)];
      && HidesBehindGhost(list, {"2"}, 1)
      && Nearest([list], {"2"}, 1) == []
      && !IsTopK([], Live(Union([list]), {"2"}), 1)
  {
    var near, far := Found("driver:1:bike", "1", 10.0), Found("driver:2:bike", "2", 20.0);
    var list := [near, far];
    assert list[1..] == [far] && [far][1..] == [];
    assert Sort([far]) == [far];
    assert Sort(list) == [near, far];
    assert Take(Sort(list), 1) == [near];
    assert near in Take(Sort(list), 1) && near.id !in {"2"};
    assert [list][1..] == [];
    assert Joined([list], 1) == [near] + [];
    assert Live([near] + [], {"2"}) == [] by {
      assert ([near] + [])[1..] == [];
    }
    assert Union([list]) == list + [] == list;
    assert far in Live(list, {"2"});
    assert far in multiset(Live(list, {"2"})) - multiset([]);
  }

  lemma Lengths(s: seq<Found>)
    ensures |Sort(s)| == |s|
  {
    assert |multiset(Sort(s))| == |multiset(s)|;
  }

  lemma {:induction false} LiveShrinks(s: seq<Found>, alive: set<string>)
    ensures |Live(s, alive)| <= |s|
  {
    if s != [] {
      LiveShrinks(s[1..], alive);
    }
  }

  /** Evicting the lapsed from a list nothing truncates is dropping them from what it answers, ties
      included. */
  lemma SweptList(list: seq<Found>, alive: set<string>, count: nat)
    requires |list| <= count
    ensures Take(Sort(Live(list, alive)), count) == Live(Take(Sort(list), count), alive)
  {
    LiveShrinks(list, alive);
    LiveSort(list, alive);
    Lengths(list);
    Lengths(Live(list, alive));
  }

  /** Two searches whose joined answers differ only in lapsed members return the same. */
  lemma SameWhenJoinedLive(lists: seq<seq<Found>>, swept: seq<seq<Found>>, alive: set<string>, count: nat)
    requires Joined(swept, count) == Live(Joined(lists, count), alive)
    ensures Nearest(swept, alive, count) == Nearest(lists, alive, count)
  {
    NearestSorts(lists, alive, count);
    NearestSorts(swept, alive, count);
    LiveAll(Live(Joined(lists, count), alive), alive);
  }
}
