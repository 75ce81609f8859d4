/** The world: a fixed list of towns, a year counter, and the step that moves
    the unhappy residents to their favourite towns and holds the elections. */
module Worlds {
  import opened Wrappers
  import opened People
  import opened Towns
  import opened Migration

  /** What one step reports. */
  datatype StepInfo = StepInfo(numberPeopleMoved: nat)

  /** The platform width of every town the world creates. */
  const TownWidth: nat := 32

  /** The towns of a new world, one per population, each created with the
      platform width 32 (and so voting once). */
  method BuildTowns(populations: seq<seq<Person>>) returns (made: seq<Town>)
    requires Populated(populations)
    ensures |made| == |populations|
    ensures forall k, l :: 0 <= k < l < |made| ==> made[k] != made[l]
    ensures forall k :: 0 <= k < |made| ==>
      fresh(made[k]) && made[k].people == populations[k] && made[k].width == TownWidth &&
      made[k].platform == if populations[k] == [] then None else Some(Majority(populations[k], TownWidth))
  {
    PartsValid(populations);
    made := [];
    var i := 0;
    while i < |populations|
      invariant i <= |populations| && |made| == i
      invariant forall k, l :: 0 <= k < l < i ==> made[k] != made[l]
      invariant forall k :: 0 <= k < i ==>
        fresh(made[k]) && made[k].people == populations[k] && made[k].width == TownWidth &&
        made[k].platform == if populations[k] == [] then None else Some(Majority(populations[k], TownWidth))
    {
      var town := new Town(TownWidth, populations[i]);
      made := made + [town];
      i := i + 1;
    }
  }

  class World {
    /** The towns, in order. The list itself never changes; the towns do. */
    const towns: seq<Town>
    /** Steps taken so far. */
    var currentYear: nat
    const stepsInYear: nat := 10
    const yearsToVote: nat := 4

    /** The towns vote again in the steps whose year counter is a multiple
        of `stepsInYear * yearsToVote`. */
    predicate ElectionDue(year: nat)
    {
      year % (stepsInYear * yearsToVote) == 0
    }

    /** Elections fall on the steps 0, 40, 80, ... */
    lemma ElectionsEvery40Steps(year: nat)
      ensures ElectionDue(year) <==> year % 40 == 0
      ensures ElectionDue(year) ==> !ElectionDue(year + 1) && ElectionDue(year + 40)
    {
      assert stepsInYear * yearsToVote == 40;
    }

    /** Each town object appears once in the list. */
    predicate DistinctTowns()
    {
      forall i, j :: 0 <= i < j < |towns| ==> towns[i] != towns[j]
    }

    /** The residents of every town, in town order. */
    function Residents(): (r: seq<seq<Person>>)
      reads towns
      ensures |r| == |towns| && forall i :: 0 <= i < |towns| ==> r[i] == towns[i].people
    {
      seq(|towns|, i requires 0 <= i < |towns| reads if 0 <= i < |towns| then {towns[i]} else {} => towns[i].people)
    }

    /** Every town has a platform. */
    predicate AllVoted()
      reads towns
    {
      forall i :: 0 <= i < |towns| ==> towns[i].platform.Some?
    }

    /** The platform of every town, in town order. */
    function Platforms(): (r: seq<nat>)
      reads towns
      requires AllVoted()
      ensures |r| == |towns| && forall i :: 0 <= i < |towns| ==> towns[i].platform == Some(r[i])
    {
      seq(|towns|, i requires 0 <= i < |towns| && towns[i].platform.Some? reads if 0 <= i < |towns| then {towns[i]} else {} => towns[i].platform.value)
    }

    /** The platform width of every town. */
    function Widths(): (r: seq<nat>)
      ensures |r| == |towns| && forall i :: 0 <= i < |towns| ==> r[i] == towns[i].width
    {
      seq(|towns|, i requires 0 <= i < |towns| => towns[i].width)
    }

    /** Distinct towns whose residents, taken together, are distinct
        constructed people. */
    ghost predicate Valid()
      reads towns
    {
      DistinctTowns() && Populated(Residents())
    }

    /** A world whose towns are created, one per population given, each with
        the platform width 32, and vote once; the year starts at 0. */
    constructor (populations: seq<seq<Person>>)
      requires Populated(populations)
      ensures Valid() && currentYear == 0
      ensures Residents() == populations && Widths() == seq(|populations|, _ => TownWidth)
      ensures forall i :: 0 <= i < |towns| ==>
        towns[i].platform == if populations[i] == [] then None else Some(Majority(populations[i], TownWidth))
    {
      var made := BuildTowns(populations);
      towns := made;
      currentYear := 0;
      new;
      assert Residents() == populations;
    }

    /** The town a mover from town `origin` settles in: the origin's score
        first, then every other town in list order, switching only on a
        strictly higher score. */
    method ChooseDestination(origin: nat, p: Person) returns (d: nat)
      requires AllVoted() && origin < |towns|
      ensures d == Dest(p, Platforms(), origin)
      ensures FirstMaximum(Visits(p, Platforms()), origin, d)
    {
      ghost var scores := Visits(p, Platforms());
      var first := towns[origin].Visit(p);
      var score := first.value;
      d := origin;
      var i := 0;
      while i < |towns|
        invariant i <= |towns| && d < |towns| && score == scores[d]
        invariant Scan(scores, origin, d, i) == Best(scores, origin)
      {
        if i != origin {
          var check := towns[i].Visit(p);
          if score < check.value {
            d := i;
            score := check.value;
          }
        }
        i := i + 1;
      }
      BestIsFirstMaximum(scores, origin);
    }

    /** Takes the movers out of every town, in town order, and returns them
        grouped by town of origin. */
    method CollectAllMovers() returns (groups: seq<seq<Person>>)
      requires AllVoted() && DistinctTowns()
      requires forall k :: 0 <= k < |towns| ==> Distinct(Residents()[k])
      modifies towns
      ensures AllVoted() && Platforms() == old(Platforms())
      ensures groups == Departures(old(Residents()), old(Platforms()))
      ensures Residents() == Remainers(old(Residents()), old(Platforms()))
    {
      ghost var res := Residents();
      ghost var plats := Platforms();
      groups := [];
      var i := 0;
      while i < |towns|
        invariant i <= |towns| && |groups| == i
        invariant AllVoted() && Platforms() == plats
        invariant forall k :: 0 <= k < i ==> groups[k] == Movers(res[k], plats[k])
        invariant forall k :: 0 <= k < i ==> Residents()[k] == Stayers(res[k], plats[k])
        invariant forall k :: i <= k < |towns| ==> Residents()[k] == res[k]
      {
        var movers := TakeMovers(i);
        groups := groups + [movers];
        i := i + 1;
      }
    }

    /** Takes the movers out of town i. */
    method TakeMovers(i: nat) returns (movers: seq<Person>)
      requires AllVoted() && DistinctTowns() && i < |towns| && Distinct(towns[i].people)
      modifies towns[i]
      ensures AllVoted() && Platforms() == old(Platforms())
      ensures movers == Movers(old(Residents())[i], old(Platforms())[i])
      ensures Residents() == old(Residents())[i := Stayers(old(Residents())[i], old(Platforms())[i])]
    {
      var taken := towns[i].GetMovers();
      movers := taken.value;
      assert Residents() == old(Residents())[i := Stayers(old(Residents())[i], old(Platforms())[i])];
    }

    /** Pops the movers of one group, from town `origin`, in order, appending
        each to its destination; returns how many settled in a town other than
        the origin. */
    method ResettleGroup(origin: nat, group: seq<Person>) returns (moved: nat)
      requires AllVoted() && DistinctTowns() && origin < |towns|
      modifies towns
      ensures AllVoted() && Platforms() == old(Platforms())
      ensures Residents() == Resettle(old(Residents()), old(Platforms()), origin, group)
      ensures moved == MovedIn(group, old(Platforms()), origin)
    {
      ghost var plats := Platforms();
      ghost var res := Residents();
      moved := 0;
      var rest := group;
      while rest != []
        invariant AllVoted() && Platforms() == plats
        invariant Resettle(Residents(), plats, origin, rest) == Resettle(res, plats, origin, group)
        invariant moved + MovedIn(rest, plats, origin) == MovedIn(group, plats, origin)
        decreases |rest|
      {
        var p := rest[0];
        rest := rest[1..];
        var d := ChooseDestination(origin, p);
        if d != origin {
          moved := moved + 1;
        }
        Settle(d, p);
      }
    }

    /** Appends `p` to the residents of town d. */
    method Settle(d: nat, p: Person)
      requires AllVoted() && DistinctTowns() && d < |towns|
      modifies towns[d]
      ensures AllVoted() && Platforms() == old(Platforms())
      ensures Residents() == Place(old(Residents()), d, p)
    {
      towns[d].people := towns[d].people + [p];
      assert Residents() == Place(old(Residents()), d, p);
    }

    /** Relocates the moving groups in town order, each shuffled first;
        returns how many people settled in a town other than their own. */
    method RelocateAll(groups: seq<seq<Person>>, shuffle: (nat, seq<Person>) -> seq<Person>) returns (total: nat)
      requires AllVoted() && DistinctTowns() && |groups| == |towns|
      modifies towns
      ensures AllVoted() && Platforms() == old(Platforms())
      ensures Residents() == ResettleFrom(old(Residents()), old(Platforms()), Shuffled(groups, shuffle), 0)
      ensures total == MovedFrom(Shuffled(groups, shuffle), old(Platforms()), 0)
    {
      ghost var start := Residents();
      ghost var plats := Platforms();
      ghost var shuffled := Shuffled(groups, shuffle);
      total := 0;
      var g := 0;
      while g < |groups|
        invariant g <= |groups|
        invariant AllVoted() && Platforms() == plats
        invariant ResettleFrom(Residents(), plats, shuffled, g) == ResettleFrom(start, plats, shuffled, 0)
        invariant total + MovedFrom(shuffled, plats, g) == MovedFrom(shuffled, plats, 0)
      {
        var moving := shuffle(g, groups[g]);
        var moved := ResettleGroup(g, moving);
        total := total + moved;
        g := g + 1;
      }
    }

    /** Every town votes again; an empty town keeps its platform. */
    method HoldElections()
      requires Valid() && AllVoted()
      modifies towns
      ensures Valid() && AllVoted() && Residents() == old(Residents())
      ensures Platforms() == Revote(Residents(), old(Platforms()), Widths())
    {
      ghost var res := Residents();
      ghost var plats := Platforms();
      PartsValid(res);
      var i := 0;
      while i < |towns|
        invariant i <= |towns|
        invariant forall k :: 0 <= k < |towns| ==> towns[k].people == res[k] && towns[k].platform.Some?
        invariant forall k :: 0 <= k < i ==> towns[k].platform.value == Revote(res, plats, Widths())[k]
        invariant forall k :: i <= k < |towns| ==> towns[k].platform.value == plats[k]
      {
        towns[i].VoteForPlatform();
        i := i + 1;
      }
      assert Residents() == res;
    }

    /** The migration round of a step: collect the movers of every town, then
        relocate them group by group, each group shuffled first. */
    method Migrate(shuffle: (nat, seq<Person>) -> seq<Person>) returns (moved: nat)
      requires Valid() && AllVoted() && IsShuffle(shuffle)
      modifies towns
      ensures Valid() && AllVoted() && Platforms() == old(Platforms())
      ensures Residents() == Relocated(old(Residents()), old(Platforms()), shuffle)
      ensures moved == MovedCount(old(Residents()), old(Platforms()), shuffle)
    {
      ghost var res := Residents();
      ghost var plats := Platforms();
      PartsValid(res);
      var groups := CollectAllMovers();
      moved := RelocateAll(groups, shuffle);
      RelocatedValid(res, plats, shuffle);
    }

    /** One step: the migration round, then the elections every
        `stepsInYear * yearsToVote` steps, then the year advances. */
    method Step(shuffle: (nat, seq<Person>) -> seq<Person>) returns (info: StepInfo)
      requires Valid() && AllVoted() && IsShuffle(shuffle)
      modifies this, towns
      ensures Valid() && AllVoted()
      ensures Residents() == Relocated(old(Residents()), old(Platforms()), shuffle)
      ensures info.numberPeopleMoved == MovedCount(old(Residents()), old(Platforms()), shuffle)
      ensures Platforms() == if ElectionDue(old(currentYear))
        then Revote(Residents(), old(Platforms()), Widths())
        else old(Platforms())
      ensures currentYear == old(currentYear) + 1
    {
      // The source advances the year last; nothing in between reads it, so
      // the flag is taken and the year advanced before the towns change.
      var due := ElectionDue(currentYear);
      currentYear := currentYear + 1;
      assert Valid() && AllVoted() && Residents() == old(Residents()) && Platforms() == old(Platforms());
      var moved := Migrate(shuffle);
      info := StepInfo(moved);
      if due {
        HoldElections();
      }
    }
  }
}
