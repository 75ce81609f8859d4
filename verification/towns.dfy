/** A town: its residents, in order, and the platform they last voted for. */
module Towns {
  import opened Bits
  import opened Wrappers
  import opened People

  // ---------------------------------------------------------------------------
  // The majority rule

  /** The residents of `s` whose vote has bit b set. */
  function Supporters(s: seq<Person>, b: nat): nat
  {
    if s == [] then 0 else Bit(s[0].preference, b) + Supporters(s[1..], b)
  }

  /** The platform bits below n: bit b is set when more residents vote for it
      than against it. */
  function Majority(s: seq<Person>, n: nat): nat
  {
    if n == 0 then 0
    else
      var b := n - 1;
      Majority(s, b) + (if 2 * Supporters(s, b) > |s| then Pow2(b) else 0)
  }

  lemma {:induction false} SupportersAppend(s: seq<Person>, t: seq<Person>, b: nat)
    ensures Supporters(s + t, b) == Supporters(s, b) + Supporters(t, b)
  {
    if s == [] {
      assert s + t == t;
    } else {
      assert (s + t)[0] == s[0];
      assert (s + t)[1..] == s[1..] + t;
      SupportersAppend(s[1..], t, b);
    }
  }

  lemma {:induction false} SupportersAtMost(s: seq<Person>, b: nat)
    ensures Supporters(s, b) <= |s|
  {
    if s != [] {
      SupportersAtMost(s[1..], b);
    }
  }

  /** Bit b of the platform is set exactly when strictly more residents have
      bit b set than clear (a tie gives 0), and the platform has no bit at
      position n or above. */
  lemma {:induction false} MajorityBits(s: seq<Person>, n: nat)
    ensures Majority(s, n) < Pow2(n)
    ensures forall b :: 0 <= b < n ==>
      (Bit(Majority(s, n), b) == 1 <==> Supporters(s, b) > |s| - Supporters(s, b))
  {
    if n > 0 {
      var b := n - 1;
      var m := Majority(s, b);
      MajorityBits(s, b);
      BitOfSmall(m, b, b);
      forall c ensures Bit(m + Pow2(b), c) == if c == b then 1 else Bit(m, c) {
        SetBit(m, b, c);
      }
      if 2 * Supporters(s, b) > |s| {
        assert Majority(s, n) == m + Pow2(b);
      } else {
        assert Majority(s, n) == m;
        BitOfSmall(m, b, b);
      }
    }
  }

  /** The count of supporters does not depend on the order of the residents. */
  lemma {:induction false} SupportersIgnoreOrder(s: seq<Person>, t: seq<Person>, b: nat)
    requires multiset(s) == multiset(t)
    ensures Supporters(s, b) == Supporters(t, b)
  {
    if s != [] {
      var x := s[0];
      assert x in multiset(t);
      var k :| 0 <= k < |t| && t[k] == x;
      var rest := t[..k] + t[k + 1..];
      assert t == t[..k] + [x] + t[k + 1..];
      assert s == [x] + s[1..];
      assert multiset(t) == multiset(t[..k]) + multiset{x} + multiset(t[k + 1..]);
      assert multiset(s) == multiset{x} + multiset(s[1..]);
      assert multiset(rest) == multiset(t[..k]) + multiset(t[k + 1..]);
      assert multiset(s[1..]) == multiset(s) - multiset{x};
      assert multiset(rest) == multiset(t) - multiset{x};
      SupportersIgnoreOrder(s[1..], rest, b);
      SupportersAppend(t[..k] + [x], t[k + 1..], b);
      SupportersAppend(t[..k], [x], b);
      SupportersAppend(t[..k], t[k + 1..], b);
    } else {
      assert t == [];
    }
  }

  /** The voted platform does not depend on the order of the residents. */
  lemma {:induction false} MajorityIgnoresOrder(s: seq<Person>, t: seq<Person>, n: nat)
    requires multiset(s) == multiset(t)
    ensures Majority(s, n) == Majority(t, n)
  {
    assert |s| == |multiset(s)| == |t|;
    if n > 0 {
      MajorityIgnoresOrder(s, t, n - 1);
      SupportersIgnoreOrder(s, t, n - 1);
    }
  }

  lemma {:induction false} SupportersUnanimous(s: seq<Person>, v: nat, b: nat)
    requires forall q | q in s :: q.preference == v
    ensures Supporters(s, b) == if Bit(v, b) == 1 then |s| else 0
  {
    if s != [] {
      SupportersUnanimous(s[1..], v, b);
    }
  }

  /** When every resident votes the same bits below 2^n, the platform is that vote. */
  lemma MajorityUnanimous(s: seq<Person>, v: nat, n: nat)
    requires s != [] && v < Pow2(n)
    requires forall q | q in s :: q.preference == v
    ensures Majority(s, n) == v
  {
    MajorityBits(s, n);
    forall b | 0 <= b < n ensures Bit(Majority(s, n), b) == Bit(v, b) {
      SupportersUnanimous(s, v, b);
    }
    BitsDetermineValue(Majority(s, n), v, n);
  }

  // ---------------------------------------------------------------------------
  // Who leaves a town

  /** The residents who want to move under `platform`, in their original order. */
  function Movers(s: seq<Person>, platform: nat): seq<Person>
  {
    if s == [] then []
    else (if WantsToMove(s[0], platform) then [s[0]] else []) + Movers(s[1..], platform)
  }

  /** The residents who do not want to move under `platform`, in their original order. */
  function Stayers(s: seq<Person>, platform: nat): seq<Person>
  {
    if s == [] then []
    else (if WantsToMove(s[0], platform) then [] else [s[0]]) + Stayers(s[1..], platform)
  }

  /** Movers and stayers split the residents: a person is a mover exactly when
      they are a resident who wants to move, a stayer exactly when they are a
      resident who does not, and together they are a permutation of the residents. */
  lemma {:induction false} MoversPartition(s: seq<Person>, platform: nat)
    ensures forall q :: q in Movers(s, platform) <==> q in s && WantsToMove(q, platform)
    ensures forall q :: q in Stayers(s, platform) <==> q in s && !WantsToMove(q, platform)
    ensures multiset(Movers(s, platform)) + multiset(Stayers(s, platform)) == multiset(s)
  {
    if s != [] {
      MoversPartition(s[1..], platform);
      assert s == [s[0]] + s[1..];
    }
  }

  /** The list with every element that occurs in `gone` taken out. */
  function Drop(s: seq<Person>, gone: seq<Person>): seq<Person>
  {
    if s == [] then []
    else (if s[0] in gone then [] else [s[0]]) + Drop(s[1..], gone)
  }

  /** Python's `list.remove(x)`: removes the first occurrence of x. A list
      without x is returned unchanged, where Python raises `ValueError`; the
      movers handed to it are distinct residents, so that case does not arise. */
  function RemoveFirst(s: seq<Person>, x: Person): seq<Person>
  {
    if s == [] then []
    else if s[0] == x then s[1..]
    else [s[0]] + RemoveFirst(s[1..], x)
  }

  lemma {:induction false} DropNothing(s: seq<Person>)
    ensures Drop(s, []) == s
  {
    if s != [] {
      DropNothing(s[1..]);
    }
  }

  lemma {:induction false} DropAbsent(s: seq<Person>, gone: seq<Person>, x: Person)
    requires x !in s
    ensures Drop(s, gone + [x]) == Drop(s, gone)
  {
    if s != [] {
      DropAbsent(s[1..], gone, x);
    }
  }

  lemma DistinctTail(s: seq<Person>)
    requires s != [] && Distinct(s)
    ensures Distinct(s[1..]) && s[0] !in s[1..]
  {
    assert s == [s[0]] + s[1..];
    assert multiset(s) == multiset{s[0]} + multiset(s[1..]);
    assert s[0] in multiset(s);
    assert multiset(s[1..])[s[0]] == 0;
    DistinctPart(s[1..], s);
  }

  /** Removing one more mover from the list in place takes out exactly that
      mover, because no person occurs twice. */
  lemma {:induction false} RemoveFirstDrop(s: seq<Person>, gone: seq<Person>, x: Person)
    requires Distinct(s)
    ensures RemoveFirst(Drop(s, gone), x) == Drop(s, gone + [x])
  {
    if s != [] {
      var h, t := s[0], s[1..];
      DistinctTail(s);
      RemoveFirstDrop(t, gone, x);
      if h in gone {
        assert Drop(s, gone) == Drop(t, gone);
        assert Drop(s, gone + [x]) == Drop(t, gone + [x]);
      } else if h == x {
        DropAbsent(t, gone, x);
        assert Drop(s, gone) == [h] + Drop(t, gone);
        assert Drop(s, gone + [x]) == Drop(t, gone + [x]);
      } else {
        var u := Drop(t, gone);
        assert Drop(s, gone) == [h] + u;
        assert ([h] + u)[1..] == u;
        assert RemoveFirst([h] + u, x) == [h] + RemoveFirst(u, x);
        assert Drop(s, gone + [x]) == [h] + Drop(t, gone + [x]);
      }
    }
  }

  lemma {:induction false} DropWanting(s: seq<Person>, gone: seq<Person>, platform: nat)
    requires forall q | q in s :: q in gone <==> WantsToMove(q, platform)
    ensures Drop(s, gone) == Stayers(s, platform)
  {
    if s != [] {
      DropWanting(s[1..], gone, platform);
    }
  }

  lemma DistinctStayers(s: seq<Person>, platform: nat)
    requires Distinct(s)
    ensures Distinct(Stayers(s, platform))
  {
    MoversPartition(s, platform);
    DistinctPart(Stayers(s, platform), s);
  }

  /** The first loop of the source's get_movers: asks each resident in turn. */
  method CollectMovers(residents: seq<Person>, platform: nat) returns (movers: seq<Person>)
    ensures movers == Movers(residents, platform)
  {
    movers := [];
    for i := 0 to |residents|
      invariant movers + Movers(residents[i..], platform) == Movers(residents, platform)
    {
      assert residents[i..][1..] == residents[i + 1..];
      if WantsToMove(residents[i], platform) {
        movers := movers + [residents[i]];
      }
    }
    assert residents[|residents|..] == [];
  }

  /** The second loop of the source's get_movers: `remove` each mover in turn. */
  method RemoveMovers(residents: seq<Person>, movers: seq<Person>) returns (remaining: seq<Person>)
    requires Distinct(residents)
    ensures remaining == Drop(residents, movers)
  {
    remaining := residents;
    DropNothing(residents);
    assert movers[..0] == [];
    for k := 0 to |movers|
      invariant remaining == Drop(residents, movers[..k])
    {
      RemoveFirstDrop(residents, movers[..k], movers[k]);
      assert movers[..k + 1] == movers[..k] + [movers[k]];
      remaining := RemoveFirst(remaining, movers[k]);
    }
    assert movers[..|movers|] == movers;
  }

  // ---------------------------------------------------------------------------
  /** The vote tally of `vote_for_platform`: for every bit below `width`, +1
      per resident whose vote has the bit set and -1 per resident whose vote
      has it clear. */
  method Tally(residents: seq<Person>, width: nat) returns (votes: array<int>)
    requires AllValid(residents)
    ensures fresh(votes) && votes.Length == width
    ensures forall b :: 0 <= b < width ==> votes[b] == 2 * Supporters(residents, b) - |residents|
  {
    votes := new int[width](_ => 0);
    for i := 0 to |residents|
      invariant forall b :: 0 <= b < width ==> votes[b] == 2 * Supporters(residents[..i], b) - i
    {
      var vote := Vote(residents[i]);
      assert residents[..i + 1] == residents[..i] + [residents[i]];
      forall b ensures Supporters(residents[..i + 1], b) == Supporters(residents[..i], b) + Bit(vote, b) {
        SupportersAppend(residents[..i], [residents[i]], b);
      }
      for bit := 0 to width
        invariant forall b :: 0 <= b < bit ==> votes[b] == 2 * Supporters(residents[..i + 1], b) - (i + 1)
        invariant forall b :: bit <= b < width ==> votes[b] == 2 * Supporters(residents[..i], b) - i
      {
        if Bit(vote, bit) > 0 {
          votes[bit] := votes[bit] + 1;
        } else {
          votes[bit] := votes[bit] - 1;
        }
      }
    }
    assert residents[..|residents|] == residents;
  }

  // The town object

  class Town {
    /** The residents, in order. */
    var people: seq<Person>
    /** The platform; None until the town has voted with residents present. */
    var platform: Option<nat>
    /** The platform width. */
    const width: nat

    /** A town with the given residents (the people the source creates for
      it), which then votes. An empty town gets no platform. */
    constructor (width: nat, residents: seq<Person>)
      requires AllValid(residents)
      ensures this.width == width && people == residents
      ensures platform == if residents == [] then None else Some(Majority(residents, width))
    {
      this.width := width;
      people := residents;
      platform := None;
      new;
      VoteForPlatform();
    }

    /** Tallies +1 per resident with the bit set and -1 per resident with it
        clear, for every bit of the width, and sets the platform bits whose tally
        is positive. Does nothing when the town is empty. */
    method VoteForPlatform()
      requires AllValid(people)
      modifies this
      ensures people == old(people)
      ensures platform == if people == [] then old(platform) else Some(Majority(people, width))
      ensures people != [] ==>
        platform.value < Pow2(width) &&
        forall b :: 0 <= b < width ==>
          (Bit(platform.value, b) == 1 <==> Supporters(people, b) > |people| - Supporters(people, b))
    {
      if people == [] {
        return;
      }
      var residents := people;
      var votes := Tally(residents, width);
      var result: nat := 0;
      for bit := 0 to width
        invariant result == Majority(residents, bit)
      {
        // `result |= 1 << bit`: bit `bit` is still clear, so or-ing adds 2^bit.
        if votes[bit] > 0 {
          result := result + Pow2(bit);
        }
      }
      platform := Some(result);
      MajorityBits(people, width);
    }

    /** Appends a resident. */
    method AddPerson(p: Person)
      modifies this
      ensures people == old(people) + [p]
      ensures platform == old(platform)
    {
      people := people + [p];
    }

    /** Collects the residents who want to move under the current platform,
        then removes each of them from the residents. Without a platform the
        source raises as soon as there is a resident to ask (`None`). */
    method GetMovers() returns (r: Option<seq<Person>>)
      requires Distinct(people)
      modifies this
      ensures Distinct(people)
      ensures platform == old(platform)
      ensures platform.None? ==> people == old(people) && r == if people == [] then Some([]) else None
      ensures platform.Some? ==>
        r == Some(Movers(old(people), platform.value)) &&
        people == Stayers(old(people), platform.value)
    {
      if platform.None? {
        if people == [] {
          return Some([]);
        }
        return None;
      }
      var current := platform.value;
      var original := people;
      var movers := CollectMovers(original, current);
      var remaining := RemoveMovers(original, movers);
      MoversPartition(original, current);
      DropWanting(original, movers, current);
      DistinctStayers(original, current);
      people := remaining;
      r := Some(movers);
    }

    /** The happiness `p` would have under this town's platform; None where the
        source raises because the town never voted. */
    method Visit(p: Person) returns (r: Option<int>)
      ensures r.None? <==> platform.None?
      ensures r.Some? ==> r.value == Happiness(p, platform.value)
    {
      if platform.None? {
        return None;
      }
      var h := CheckHappiness(p, platform.value);
      r := Some(h);
    }
  }
}
