/** The migration round of one world step, as functions over the residents of
    every town (a sequence of lists, one per town, in town order) and the
    towns' platforms. The World class's step is proved to compute exactly
    this; the lemmas here say what it means. */
module Migration {
  import opened People
  import opened Towns

  // ---------------------------------------------------------------------------
  // Residents of all towns

  /** The residents of all towns, town after town. */
  function Flatten(ss: seq<seq<Person>>): seq<Person>
  {
    if ss == [] then [] else ss[0] + Flatten(ss[1..])
  }

  lemma {:induction false} FlattenHas(ss: seq<seq<Person>>, j: nat)
    requires j < |ss|
    ensures multiset(ss[j]) <= multiset(Flatten(ss))
  {
    if j > 0 {
      FlattenHas(ss[1..], j - 1);
    }
  }

  lemma {:induction false} FlattenOwner(ss: seq<seq<Person>>, p: Person)
    requires p in Flatten(ss)
    ensures exists j :: 0 <= j < |ss| && p in ss[j]
  {
    if p !in ss[0] {
      FlattenOwner(ss[1..], p);
      var j :| 0 <= j < |ss[1..]| && p in ss[1..][j];
      assert p in ss[j + 1];
    }
  }

  /** In a world of distinct people, a person lives in only one town. */
  lemma {:induction false} OneTown(ss: seq<seq<Person>>, p: Person, j: nat)
    requires Distinct(Flatten(ss)) && j < |ss| && p in ss[j]
    ensures forall k :: 0 <= k < |ss| && k != j ==> p !in ss[k]
  {
    var rest := Flatten(ss[1..]);
    assert multiset(Flatten(ss)) == multiset(ss[0]) + multiset(rest);
    assert multiset(Flatten(ss))[p] == 1 by {
      FlattenHas(ss, j);
    }
    DistinctPart(rest, Flatten(ss));
    if j == 0 {
      assert multiset(rest)[p] == 0;
      forall k | 1 <= k < |ss| ensures p !in ss[k] {
        FlattenHas(ss[1..], k - 1);
      }
    } else {
      FlattenHas(ss[1..], j - 1);
      assert multiset(ss[0])[p] == 0;
      OneTown(ss[1..], p, j - 1);
      forall k | 1 <= k < |ss| && k != j ensures p !in ss[k] {
        assert ss[k] == ss[1..][k - 1];
      }
    }
  }

  /** The residents of all towns are distinct constructed people. */
  predicate Populated(ss: seq<seq<Person>>)
  {
    Distinct(Flatten(ss)) && AllValid(Flatten(ss))
  }

  /** The residents of each town of a world of distinct constructed people are
      distinct constructed people. */
  lemma PartsValid(ss: seq<seq<Person>>)
    requires Populated(ss)
    ensures forall k :: 0 <= k < |ss| ==> Distinct(ss[k]) && AllValid(ss[k])
  {
    forall k | 0 <= k < |ss| ensures Distinct(ss[k]) && AllValid(ss[k]) {
      FlattenHas(ss, k);
      DistinctPart(ss[k], Flatten(ss));
      forall q | q in ss[k] ensures q.Valid() {
        assert q in multiset(Flatten(ss));
      }
    }
  }

  /** Two worlds whose towns hold the same people, town by town, hold the same
      people in all. */
  lemma {:induction false} FlattenSameTowns(a: seq<seq<Person>>, b: seq<seq<Person>>)
    requires |a| == |b| && forall i :: 0 <= i < |a| ==> multiset(a[i]) == multiset(b[i])
    ensures multiset(Flatten(a)) == multiset(Flatten(b))
  {
    if a != [] {
      FlattenSameTowns(a[1..], b[1..]);
    }
  }

  // ---------------------------------------------------------------------------
  // Choosing a destination

  /** The happiness a person would have in each town. */
  function Visits(p: Person, platforms: seq<nat>): seq<int>
  {
    seq(|platforms|, i requires 0 <= i < |platforms| => Happiness(p, platforms[i]))
  }

  /** The source's greedy scan: from `best`, look at the towns from position
      `i` on, skipping the origin, and switch to a town only when it scores
      strictly higher than the best so far. */
  function Scan(scores: seq<int>, origin: nat, best: nat, i: nat): (r: nat)
    requires origin < |scores| && best < |scores| && i <= |scores|
    ensures r < |scores|
    decreases |scores| - i
  {
    if i == |scores| then best
    else Scan(scores, origin, if i != origin && scores[best] < scores[i] then i else best, i + 1)
  }

  /** The destination chosen from `scores` for a mover from `origin`. */
  function Best(scores: seq<int>, origin: nat): (r: nat)
    requires origin < |scores|
    ensures r < |scores|
  {
    Scan(scores, origin, origin, 0)
  }

  /** The destination of a mover from town `origin`. */
  function Dest(p: Person, platforms: seq<nat>, origin: nat): (r: nat)
    requires origin < |platforms|
    ensures r < |platforms|
  {
    Best(Visits(p, platforms), origin)
  }

  /** The three properties that pin down the destination. */
  predicate FirstMaximum(scores: seq<int>, origin: nat, d: nat)
  {
    origin < |scores| && d < |scores| &&
    // the destination scores highest of all towns
    (forall k :: 0 <= k < |scores| ==> scores[k] <= scores[d]) &&
    // the origin is kept unless another town scores strictly higher
    (d == origin <==> forall k :: 0 <= k < |scores| ==> scores[k] <= scores[origin]) &&
    // another town wins only as the first, in list order, with the top score
    (d != origin ==> forall k :: 0 <= k < d && k != origin ==> scores[k] < scores[d])
  }

  lemma {:induction false} ScanFacts(scores: seq<int>, origin: nat, best: nat, i: nat)
    requires origin < |scores| && best < |scores| && i <= |scores|
    requires best == origin || (best != origin && best < i)
    requires scores[origin] <= scores[best]
    requires forall k :: 0 <= k < i && k != origin ==> scores[k] <= scores[best]
    requires best != origin ==> scores[origin] < scores[best]
    requires best != origin ==> forall k :: 0 <= k < best && k != origin ==> scores[k] < scores[best]
    ensures FirstMaximum(scores, origin, Scan(scores, origin, best, i))
    decreases |scores| - i
  {
    if i < |scores| {
      var next := if i != origin && scores[best] < scores[i] then i else best;
      ScanFacts(scores, origin, next, i + 1);
    }
  }

  /** The greedy scan finds the first town with the top score, keeping the
      origin on a tie. */
  lemma BestIsFirstMaximum(scores: seq<int>, origin: nat)
    requires origin < |scores|
    ensures FirstMaximum(scores, origin, Best(scores, origin))
  {
    ScanFacts(scores, origin, origin, 0);
  }

  /** Those properties leave no choice: the destination is determined by the
      scores alone. */
  lemma BestIsUnique(scores: seq<int>, origin: nat, d: nat)
    requires FirstMaximum(scores, origin, d)
    ensures d == Best(scores, origin)
  {
    BestIsFirstMaximum(scores, origin);
    var e := Best(scores, origin);
    assert scores[d] == scores[e];
    if d != origin && e != origin {
      assert !(d < e) && !(e < d);
    }
  }

  // ---------------------------------------------------------------------------
  // Relocating the movers

  /** Appends `p` to the residents of town d. */
  function Place(res: seq<seq<Person>>, d: nat, p: Person): seq<seq<Person>>
    requires d < |res|
  {
    res[d := res[d] + [p]]
  }

  /** Relocates one moving group, from town `origin`, in the group's order:
      each mover is appended to the town with the best score. */
  function Resettle(res: seq<seq<Person>>, platforms: seq<nat>, origin: nat, group: seq<Person>)
    : (r: seq<seq<Person>>)
    requires |res| == |platforms| && origin < |platforms|
    ensures |r| == |res|
    decreases |group|
  {
    if group == [] then res
    else
      var p := group[0];
      Resettle(Place(res, Dest(p, platforms, origin), p), platforms, origin, group[1..])
  }

  /** Relocates the moving groups of towns g, g + 1, ... in town order. */
  function ResettleFrom(res: seq<seq<Person>>, platforms: seq<nat>, groups: seq<seq<Person>>, g: nat)
    : (r: seq<seq<Person>>)
    requires |res| == |platforms| == |groups| && g <= |groups|
    ensures |r| == |res|
    decreases |groups| - g
  {
    if g == |groups| then res
    else ResettleFrom(Resettle(res, platforms, g, groups[g]), platforms, groups, g + 1)
  }

  /** The moving group of each town. */
  function Departures(res: seq<seq<Person>>, platforms: seq<nat>): seq<seq<Person>>
    requires |res| == |platforms|
  {
    seq(|res|, i requires 0 <= i < |res| => Movers(res[i], platforms[i]))
  }

  /** The residents who stay in each town. */
  function Remainers(res: seq<seq<Person>>, platforms: seq<nat>): seq<seq<Person>>
    requires |res| == |platforms|
  {
    seq(|res|, i requires 0 <= i < |res| => Stayers(res[i], platforms[i]))
  }

  /** `random.shuffle` is passed in as a function from a group's town index
      and the group to the group in its shuffled order. */
  ghost predicate IsShuffle(shuffle: (nat, seq<Person>) -> seq<Person>)
  {
    forall g, s :: multiset(shuffle(g, s)) == multiset(s)
  }

  /** The moving groups in the order they are popped. */
  function Shuffled(groups: seq<seq<Person>>, shuffle: (nat, seq<Person>) -> seq<Person>): seq<seq<Person>>
  {
    seq(|groups|, g requires 0 <= g < |groups| => shuffle(g, groups[g]))
  }

  /** The residents of every town after the migration round. */
  function Relocated(res: seq<seq<Person>>, platforms: seq<nat>, shuffle: (nat, seq<Person>) -> seq<Person>)
    : seq<seq<Person>>
    requires |res| == |platforms|
  {
    ResettleFrom(Remainers(res, platforms), platforms, Shuffled(Departures(res, platforms), shuffle), 0)
  }

  /** The movers of a group from town `origin` who end up in another town. */
  function MovedIn(group: seq<Person>, platforms: seq<nat>, origin: nat): nat
    requires origin < |platforms|
  {
    if group == [] then 0
    else (if Dest(group[0], platforms, origin) != origin then 1 else 0) + MovedIn(group[1..], platforms, origin)
  }

  /** The relocations counted over the groups of towns g, g + 1, ... */
  function MovedFrom(groups: seq<seq<Person>>, platforms: seq<nat>, g: nat): nat
    requires |groups| == |platforms| && g <= |groups|
    decreases |groups| - g
  {
    if g == |groups| then 0 else MovedIn(groups[g], platforms, g) + MovedFrom(groups, platforms, g + 1)
  }

  /** The number of relocations the migration round reports. */
  function MovedCount(res: seq<seq<Person>>, platforms: seq<nat>, shuffle: (nat, seq<Person>) -> seq<Person>): nat
    requires |res| == |platforms|
  {
    MovedFrom(Shuffled(Departures(res, platforms), shuffle), platforms, 0)
  }

  /** Every town re-votes: an empty town keeps its platform. */
  function Revote(res: seq<seq<Person>>, platforms: seq<nat>, widths: seq<nat>): seq<nat>
    requires |res| == |platforms| == |widths|
  {
    seq(|res|, i requires 0 <= i < |res| =>
      if res[i] == [] then platforms[i] else Majority(res[i], widths[i]))
  }

  // ---------------------------------------------------------------------------
  // Nobody is lost or duplicated

  lemma {:induction false} PlaceAdds(res: seq<seq<Person>>, d: nat, p: Person)
    requires d < |res|
    ensures multiset(Flatten(Place(res, d, p))) == multiset(Flatten(res)) + multiset{p}
  {
    var r := Place(res, d, p);
    if d == 0 {
      assert r[1..] == res[1..];
    } else {
      assert r[1..] == Place(res[1..], d - 1, p);
      PlaceAdds(res[1..], d - 1, p);
    }
  }

  lemma {:induction false} ResettleAdds(res: seq<seq<Person>>, platforms: seq<nat>, origin: nat, group: seq<Person>)
    requires |res| == |platforms| && origin < |platforms|
    ensures multiset(Flatten(Resettle(res, platforms, origin, group))) == multiset(Flatten(res)) + multiset(group)
    decreases |group|
  {
    if group != [] {
      var p := group[0];
      PlaceAdds(res, Dest(p, platforms, origin), p);
      ResettleAdds(Place(res, Dest(p, platforms, origin), p), platforms, origin, group[1..]);
      assert group == [p] + group[1..];
    }
  }

  lemma {:induction false} ResettleFromAdds(res: seq<seq<Person>>, platforms: seq<nat>, groups: seq<seq<Person>>, g: nat)
    requires |res| == |platforms| == |groups| && g <= |groups|
    ensures multiset(Flatten(ResettleFrom(res, platforms, groups, g))) ==
      multiset(Flatten(res)) + multiset(Flatten(groups[g..]))
    decreases |groups| - g
  {
    if g < |groups| {
      ResettleAdds(res, platforms, g, groups[g]);
      ResettleFromAdds(Resettle(res, platforms, g, groups[g]), platforms, groups, g + 1);
      assert groups[g..][1..] == groups[g + 1..];
    } else {
      assert groups[g..] == [];
    }
  }

  lemma {:induction false} SplitAtDeparture(res: seq<seq<Person>>, platforms: seq<nat>)
    requires |res| == |platforms|
    ensures multiset(Flatten(Remainers(res, platforms))) + multiset(Flatten(Departures(res, platforms))) ==
      multiset(Flatten(res))
  {
    if res != [] {
      assert Remainers(res, platforms)[1..] == Remainers(res[1..], platforms[1..]);
      assert Departures(res, platforms)[1..] == Departures(res[1..], platforms[1..]);
      SplitAtDeparture(res[1..], platforms[1..]);
      MoversPartition(res[0], platforms[0]);
    }
  }

  lemma ShuffledSame(groups: seq<seq<Person>>, shuffle: (nat, seq<Person>) -> seq<Person>)
    requires IsShuffle(shuffle)
    ensures multiset(Flatten(Shuffled(groups, shuffle))) == multiset(Flatten(groups))
  {
    FlattenSameTowns(Shuffled(groups, shuffle), groups);
  }

  /** The migration round conserves people: the residents of all towns
      afterwards are the residents before, each as often as before, so the
      total population is unchanged. */
  lemma StepConservesPeople(res: seq<seq<Person>>, platforms: seq<nat>, shuffle: (nat, seq<Person>) -> seq<Person>)
    requires |res| == |platforms| && IsShuffle(shuffle)
    ensures |Relocated(res, platforms, shuffle)| == |res|
    ensures multiset(Flatten(Relocated(res, platforms, shuffle))) == multiset(Flatten(res))
    ensures |Flatten(Relocated(res, platforms, shuffle))| == |Flatten(res)|
  {
    var groups := Shuffled(Departures(res, platforms), shuffle);
    ResettleFromAdds(Remainers(res, platforms), platforms, groups, 0);
    assert groups[0..] == groups;
    ShuffledSame(Departures(res, platforms), shuffle);
    SplitAtDeparture(res, platforms);
    assert |multiset(Flatten(Relocated(res, platforms, shuffle)))| == |multiset(Flatten(res))|;
  }

  /** Everyone who lived in some town before the round lives in exactly one town
      after it, and nobody else does. */
  lemma StepKeepsEveryoneOnce(res: seq<seq<Person>>, platforms: seq<nat>, shuffle: (nat, seq<Person>) -> seq<Person>)
    requires |res| == |platforms| && IsShuffle(shuffle) && Distinct(Flatten(res))
    ensures Distinct(Flatten(Relocated(res, platforms, shuffle)))
    ensures forall p :: p in Flatten(Relocated(res, platforms, shuffle)) <==> p in Flatten(res)
    ensures forall p | p in Flatten(res) ::
      exists j :: 0 <= j < |res| && p in Relocated(res, platforms, shuffle)[j] &&
        forall k :: 0 <= k < |res| && p in Relocated(res, platforms, shuffle)[k] ==> k == j
  {
    var after := Relocated(res, platforms, shuffle);
    StepConservesPeople(res, platforms, shuffle);
    assert forall p :: p in Flatten(after) <==> p in multiset(Flatten(res));
    forall p | p in Flatten(res)
      ensures exists j :: 0 <= j < |res| && p in after[j] && forall k :: 0 <= k < |res| && p in after[k] ==> k == j
    {
      FlattenOwner(after, p);
      var j :| 0 <= j < |after| && p in after[j];
      OneTown(after, p, j);
    }
  }

  /** A world of distinct constructed people stays one after the round. */
  lemma RelocatedValid(res: seq<seq<Person>>, platforms: seq<nat>, shuffle: (nat, seq<Person>) -> seq<Person>)
    requires |res| == |platforms| && IsShuffle(shuffle)
    requires Populated(res)
    ensures Populated(Relocated(res, platforms, shuffle))
  {
    StepConservesPeople(res, platforms, shuffle);
    StepKeepsEveryoneOnce(res, platforms, shuffle);
    forall q | q in Flatten(Relocated(res, platforms, shuffle)) ensures q.Valid() {
      assert q in multiset(Flatten(res));
    }
  }

  // ---------------------------------------------------------------------------
  // Who ends up where

  lemma {:induction false} ResettleArrivals(res: seq<seq<Person>>, platforms: seq<nat>, origin: nat, group: seq<Person>)
    requires |res| == |platforms| && origin < |platforms|
    ensures forall j :: 0 <= j < |res| ==> res[j] <= Resettle(res, platforms, origin, group)[j]
    ensures forall j, k :: 0 <= j < |res| && |res[j]| <= k < |Resettle(res, platforms, origin, group)[j]| ==>
      var x := Resettle(res, platforms, origin, group)[j][k];
      x in group && Dest(x, platforms, origin) == j
    decreases |group|
  {
    if group != [] {
      var p := group[0];
      var d := Dest(p, platforms, origin);
      var next := Place(res, d, p);
      ResettleArrivals(next, platforms, origin, group[1..]);
      var r := Resettle(res, platforms, origin, group);
      assert r == Resettle(next, platforms, origin, group[1..]);
      forall j | 0 <= j < |res| ensures res[j] <= r[j] {
        assert res[j] <= next[j];
      }
      forall j, k | 0 <= j < |res| && |res[j]| <= k < |r[j]|
        ensures r[j][k] in group && Dest(r[j][k], platforms, origin) == j
      {
        if k < |next[j]| {
          assert j == d && k == |res[d]|;
          assert r[j][k] == next[j][k] == p;
        } else {
          assert r[j][k] in group[1..];
        }
      }
    }
  }

  /** Person x, now in town j, came from the moving group of some town h >= g
      and chose town j. */
  predicate ArrivedFrom(x: Person, platforms: seq<nat>, groups: seq<seq<Person>>, g: nat, j: nat)
    requires |groups| == |platforms|
  {
    exists h :: g <= h < |groups| && x in groups[h] && Dest(x, platforms, h) == j
  }

  lemma {:induction false} ResettleFromArrivals(res: seq<seq<Person>>, platforms: seq<nat>, groups: seq<seq<Person>>, g: nat)
    requires |res| == |platforms| == |groups| && g <= |groups|
    ensures forall j :: 0 <= j < |res| ==> res[j] <= ResettleFrom(res, platforms, groups, g)[j]
    ensures forall j, k :: 0 <= j < |res| && |res[j]| <= k < |ResettleFrom(res, platforms, groups, g)[j]| ==>
      ArrivedFrom(ResettleFrom(res, platforms, groups, g)[j][k], platforms, groups, g, j)
    decreases |groups| - g
  {
    if g < |groups| {
      var next := Resettle(res, platforms, g, groups[g]);
      ResettleArrivals(res, platforms, g, groups[g]);
      ResettleFromArrivals(next, platforms, groups, g + 1);
      var r := ResettleFrom(res, platforms, groups, g);
      assert r == ResettleFrom(next, platforms, groups, g + 1);
      forall j | 0 <= j < |res| ensures res[j] <= r[j] {
        assert res[j] <= next[j] <= r[j];
      }
      forall j, k | 0 <= j < |res| && |res[j]| <= k < |r[j]|
        ensures ArrivedFrom(r[j][k], platforms, groups, g, j)
      {
        if k < |next[j]| {
          assert r[j][k] == next[j][k];
          assert r[j][k] in groups[g] && Dest(r[j][k], platforms, g) == j;
        } else {
          assert ArrivedFrom(r[j][k], platforms, groups, g + 1, j);
          var h :| g + 1 <= h < |groups| && r[j][k] in groups[h] && Dest(r[j][k], platforms, h) == j;
        }
      }
    }
  }

  /** Person x moved from town h, wanting to, and chose town j, a town where
      they score highest. */
  predicate ChoseTown(x: Person, res: seq<seq<Person>>, platforms: seq<nat>, j: nat)
    requires |res| == |platforms|
  {
    j < |platforms| &&
    (forall t :: 0 <= t < |platforms| ==> Happiness(x, platforms[t]) <= Happiness(x, platforms[j])) &&
    exists h :: 0 <= h < |res| && x in res[h] && WantsToMove(x, platforms[h]) && Dest(x, platforms, h) == j
  }

  lemma MoverChoseTown(res: seq<seq<Person>>, platforms: seq<nat>, shuffle: (nat, seq<Person>) -> seq<Person>,
                       x: Person, h: nat, j: nat)
    requires |res| == |platforms| && IsShuffle(shuffle) && h < |res|
    requires x in Shuffled(Departures(res, platforms), shuffle)[h] && Dest(x, platforms, h) == j
    ensures ChoseTown(x, res, platforms, j)
  {
    assert x in multiset(shuffle(h, Departures(res, platforms)[h]));
    MoversPartition(res[h], platforms[h]);
    var scores := Visits(x, platforms);
    BestIsFirstMaximum(scores, h);
    forall t | 0 <= t < |platforms| ensures Happiness(x, platforms[t]) <= Happiness(x, platforms[j]) {
      assert scores[t] <= scores[j];
    }
  }

  /** Each town keeps the residents who did not want to move, in their order,
      at the front of its list; everyone after them is a mover from some town
      who chose this town, which is a town where they score highest. */
  lemma StayersKeepPlace(res: seq<seq<Person>>, platforms: seq<nat>, shuffle: (nat, seq<Person>) -> seq<Person>)
    requires |res| == |platforms| && IsShuffle(shuffle)
    ensures |Relocated(res, platforms, shuffle)| == |res|
    ensures forall j :: 0 <= j < |res| ==> Stayers(res[j], platforms[j]) <= Relocated(res, platforms, shuffle)[j]
    ensures forall j, k :: 0 <= j < |res| && |Stayers(res[j], platforms[j])| <= k < |Relocated(res, platforms, shuffle)[j]| ==>
      ChoseTown(Relocated(res, platforms, shuffle)[j][k], res, platforms, j)
  {
    var groups := Shuffled(Departures(res, platforms), shuffle);
    var start := Remainers(res, platforms);
    ResettleFromArrivals(start, platforms, groups, 0);
    var r := Relocated(res, platforms, shuffle);
    forall j, k | 0 <= j < |res| && |Stayers(res[j], platforms[j])| <= k < |r[j]|
      ensures ChoseTown(r[j][k], res, platforms, j)
    {
      var x := r[j][k];
      assert ArrivedFrom(x, platforms, groups, 0, j);
      var h :| 0 <= h < |groups| && x in groups[h] && Dest(x, platforms, h) == j;
      MoverChoseTown(res, platforms, shuffle, x, h, j);
    }
  }

  // ---------------------------------------------------------------------------
  // How many moved

  lemma {:induction false} MovedInAtMost(group: seq<Person>, platforms: seq<nat>, origin: nat)
    requires origin < |platforms|
    ensures MovedIn(group, platforms, origin) <= |group|
  {
    if group != [] {
      MovedInAtMost(group[1..], platforms, origin);
    }
  }

  lemma {:induction false} MovedFromAtMost(groups: seq<seq<Person>>, platforms: seq<nat>, g: nat)
    requires |groups| == |platforms| && g <= |groups|
    ensures MovedFrom(groups, platforms, g) <= |Flatten(groups[g..])|
    decreases |groups| - g
  {
    if g < |groups| {
      MovedInAtMost(groups[g], platforms, g);
      MovedFromAtMost(groups, platforms, g + 1);
      assert groups[g..][1..] == groups[g + 1..];
    }
  }

  /** The reported number of relocations never exceeds the number of people who
      wanted to move. */
  lemma MovedAtMostMovers(res: seq<seq<Person>>, platforms: seq<nat>, shuffle: (nat, seq<Person>) -> seq<Person>)
    requires |res| == |platforms| && IsShuffle(shuffle)
    ensures MovedCount(res, platforms, shuffle) <= |Flatten(Departures(res, platforms))|
  {
    var groups := Shuffled(Departures(res, platforms), shuffle);
    MovedFromAtMost(groups, platforms, 0);
    assert groups[0..] == groups;
    ShuffledSame(Departures(res, platforms), shuffle);
    assert |multiset(Flatten(groups))| == |multiset(Flatten(Departures(res, platforms)))|;
  }

  // ---------------------------------------------------------------------------
  // The shuffle only decides the order of arrival

  /** The members of a group from `origin` who choose town j. */
  function Landing(group: seq<Person>, platforms: seq<nat>, origin: nat, j: nat): multiset<Person>
    requires origin < |platforms|
  {
    if group == [] then multiset{}
    else
      var here := if Dest(group[0], platforms, origin) == j then multiset{group[0]} else multiset{};
      here + Landing(group[1..], platforms, origin, j)
  }

  lemma {:induction false} LandingCount(group: seq<Person>, platforms: seq<nat>, origin: nat, j: nat, x: Person)
    requires origin < |platforms|
    ensures Landing(group, platforms, origin, j)[x] ==
      if Dest(x, platforms, origin) == j then multiset(group)[x] else 0
  {
    if group != [] {
      LandingCount(group[1..], platforms, origin, j, x);
      assert group == [group[0]] + group[1..];
    }
  }

  lemma LandingIgnoresOrder(a: seq<Person>, b: seq<Person>, platforms: seq<nat>, origin: nat, j: nat)
    requires origin < |platforms| && multiset(a) == multiset(b)
    ensures Landing(a, platforms, origin, j) == Landing(b, platforms, origin, j)
  {
    forall x ensures Landing(a, platforms, origin, j)[x] == Landing(b, platforms, origin, j)[x] {
      LandingCount(a, platforms, origin, j, x);
      LandingCount(b, platforms, origin, j, x);
    }
  }

  lemma {:induction false} StayingCount(group: seq<Person>, platforms: seq<nat>, origin: nat)
    requires origin < |platforms|
    ensures MovedIn(group, platforms, origin) + |Landing(group, platforms, origin, origin)| == |group|
  {
    if group != [] {
      StayingCount(group[1..], platforms, origin);
    }
  }

  lemma {:induction false} ResettleLanding(res: seq<seq<Person>>, platforms: seq<nat>, origin: nat, group: seq<Person>, j: nat)
    requires |res| == |platforms| && origin < |platforms| && j < |res|
    ensures multiset(Resettle(res, platforms, origin, group)[j]) ==
      multiset(res[j]) + Landing(group, platforms, origin, j)
    decreases |group|
  {
    if group != [] {
      var p := group[0];
      ResettleLanding(Place(res, Dest(p, platforms, origin), p), platforms, origin, group[1..], j);
    }
  }

  /** The members of the groups of towns g, g + 1, ... who choose town j. */
  function LandingsFrom(groups: seq<seq<Person>>, platforms: seq<nat>, g: nat, j: nat): multiset<Person>
    requires |groups| == |platforms| && g <= |groups|
    decreases |groups| - g
  {
    if g == |groups| then multiset{}
    else Landing(groups[g], platforms, g, j) + LandingsFrom(groups, platforms, g + 1, j)
  }

  lemma {:induction false} ResettleFromLanding(res: seq<seq<Person>>, platforms: seq<nat>, groups: seq<seq<Person>>, g: nat, j: nat)
    requires |res| == |platforms| == |groups| && g <= |groups| && j < |res|
    ensures multiset(ResettleFrom(res, platforms, groups, g)[j]) == multiset(res[j]) + LandingsFrom(groups, platforms, g, j)
    decreases |groups| - g
  {
    if g < |groups| {
      ResettleLanding(res, platforms, g, groups[g], j);
      ResettleFromLanding(Resettle(res, platforms, g, groups[g]), platforms, groups, g + 1, j);
    }
  }

  lemma MovedInIgnoresOrder(a: seq<Person>, b: seq<Person>, platforms: seq<nat>, origin: nat)
    requires origin < |platforms| && multiset(a) == multiset(b)
    ensures MovedIn(a, platforms, origin) == MovedIn(b, platforms, origin)
  {
    LandingIgnoresOrder(a, b, platforms, origin, origin);
    StayingCount(a, platforms, origin);
    StayingCount(b, platforms, origin);
    assert |a| == |multiset(a)| == |multiset(b)| == |b|;
  }

  lemma {:induction false} SameGroupsSameLandings(a: seq<seq<Person>>, b: seq<seq<Person>>, platforms: seq<nat>, g: nat, j: nat)
    requires |a| == |b| == |platforms| && g <= |a|
    requires forall i :: 0 <= i < |a| ==> multiset(a[i]) == multiset(b[i])
    ensures LandingsFrom(a, platforms, g, j) == LandingsFrom(b, platforms, g, j)
    decreases |a| - g
  {
    if g < |a| {
      var rest := LandingsFrom(a, platforms, g + 1, j);
      SameGroupsSameLandings(a, b, platforms, g + 1, j);
      assert LandingsFrom(a, platforms, g, j) == Landing(a[g], platforms, g, j) + rest;
      assert LandingsFrom(b, platforms, g, j) == Landing(b[g], platforms, g, j) + rest;
      LandingIgnoresOrder(a[g], b[g], platforms, g, j);
    }
  }

  lemma {:induction false} SameGroupsSameCount(a: seq<seq<Person>>, b: seq<seq<Person>>, platforms: seq<nat>, g: nat)
    requires |a| == |b| == |platforms| && g <= |a|
    requires forall i :: 0 <= i < |a| ==> multiset(a[i]) == multiset(b[i])
    ensures MovedFrom(a, platforms, g) == MovedFrom(b, platforms, g)
    decreases |a| - g
  {
    if g < |a| {
      SameGroupsSameCount(a, b, platforms, g + 1);
      MovedInIgnoresOrder(a[g], b[g], platforms, g);
    }
  }

  /** Platforms do not change during the round, so the shuffle decides only the
      order in which movers arrive: any two shuffles put the same people in each
      town and report the same number of relocations. */
  lemma ShuffleOnlyReorders(res: seq<seq<Person>>, platforms: seq<nat>,
                            shuffle1: (nat, seq<Person>) -> seq<Person>, shuffle2: (nat, seq<Person>) -> seq<Person>)
    requires |res| == |platforms| && IsShuffle(shuffle1) && IsShuffle(shuffle2)
    ensures |Relocated(res, platforms, shuffle1)| == |Relocated(res, platforms, shuffle2)| == |res|
    ensures forall j :: 0 <= j < |res| ==>
      multiset(Relocated(res, platforms, shuffle1)[j]) == multiset(Relocated(res, platforms, shuffle2)[j])
    ensures MovedCount(res, platforms, shuffle1) == MovedCount(res, platforms, shuffle2)
  {
    var start := Remainers(res, platforms);
    var a := Shuffled(Departures(res, platforms), shuffle1);
    var b := Shuffled(Departures(res, platforms), shuffle2);
    SameGroupsSameCount(a, b, platforms, 0);
    forall j | 0 <= j < |res|
      ensures multiset(Relocated(res, platforms, shuffle1)[j]) == multiset(Relocated(res, platforms, shuffle2)[j])
    {
      ResettleFromLanding(start, platforms, a, 0, j);
      ResettleFromLanding(start, platforms, b, 0, j);
      SameGroupsSameLandings(a, b, platforms, 0, j);
    }
  }
}
