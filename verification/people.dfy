/** A resident of the simulation: fixed preference bits, a mask of the bits
    the resident actually weighs ("unbendable" preferences), a baseline mood
    and a move threshold. */
module People {
  import opened Bits
  import opened Wrappers

  /** A person. `id` stands for the identity of the source's Person object
      (lists remove people by identity); `threshold` is the move threshold as
      an integer percent; `mask` is the unbendable bitmask. */
  datatype Person = Person(
    id: nat,
    width: nat,
    preference: nat,
    basicallyHappy: bool,
    threshold: nat,
    hardheadedness: nat,
    mask: nat)
  {
    /** What a constructed person satisfies: a non-empty bit range, preference
        bits and mask inside it, and exactly `hardheadedness` masked bits. */
    predicate Valid() {
      width >= 1 &&
      preference < Pow2(width) &&
      hardheadedness < width &&
      mask < Pow2(width) &&
      CountBits(mask, width) == hardheadedness
    }
  }

  /** The list holds distinct objects: no person occurs twice. It depends
      only on the multiset of the list, so it survives any reordering. */
  predicate Distinct(s: seq<Person>)
  {
    forall x | x in multiset(s) :: multiset(s)[x] == 1
  }

  /** Part of a list of distinct people is distinct. */
  lemma DistinctPart(a: seq<Person>, b: seq<Person>)
    requires multiset(a) <= multiset(b) && Distinct(b)
    ensures Distinct(a)
  {
    forall x | x in multiset(a) ensures multiset(a)[x] == 1 {
      assert multiset(a)[x] <= multiset(b)[x];
    }
  }

  /** Every person in the list was constructed. */
  predicate AllValid(s: seq<Person>)
  {
    forall q | q in s :: q.Valid()
  }

  /** Why constructing a person fails. `EmptyRange`: the width is 0, so drawing
      a number in [0, width - 1] raises. `DrawsExhausted`: the supplied bit
      positions ran out before enough distinct ones were seen (the source would
      keep drawing). */
  datatype PersonError = EmptyRange | DrawsExhausted

  /** The distinct values of a sequence of draws. */
  function Drawn(draws: seq<nat>): set<nat>
  {
    set d | d in draws
  }

  lemma DrawnStep(draws: seq<nat>, i: nat)
    requires i < |draws|
    ensures Drawn(draws[..i + 1]) == Drawn(draws[..i]) + {draws[i]}
  {
    assert draws[..i + 1] == draws[..i] + [draws[i]];
  }

  /** A prefix of the draws has no more distinct values than all of them. */
  lemma DrawnPrefix(draws: seq<nat>, i: nat)
    requires i <= |draws|
    ensures |Drawn(draws[..i])| <= |Drawn(draws)|
  {
    var seen, all := Drawn(draws[..i]), Drawn(draws);
    assert all == seen + (all - seen) && seen * (all - seen) == {};
  }

  /** The set bits of `mask` below `width` are the distinct positions among the
      shortest prefix of the draws that holds `hardheadedness` of them: the
      draws are tried in order and the search stops as soon as enough are set. */
  ghost predicate FirstDistinctDraws(mask: nat, width: nat, hardheadedness: nat, draws: seq<nat>)
  {
    exists i :: 0 <= i <= |draws| && BitSet(mask, width) == Drawn(draws[..i]) &&
      |Drawn(draws[..i])| == hardheadedness &&
      (i > 0 ==> |Drawn(draws[..i - 1])| < hardheadedness)
  }

  /** A longer prefix of the draws has at least as many distinct values. */
  lemma DrawnGrows(draws: seq<nat>, i: nat, j: nat)
    requires i <= j <= |draws|
    ensures |Drawn(draws[..i])| <= |Drawn(draws[..j])|
  {
    assert draws[..j][..i] == draws[..i];
    DrawnPrefix(draws[..j], i);
  }

  /** The draws determine the mask: two masks of the width that both take the
      first distinct draws are equal. */
  lemma FirstDistinctDrawsUnique(m1: nat, m2: nat, width: nat, hardheadedness: nat, draws: seq<nat>)
    requires m1 < Pow2(width) && m2 < Pow2(width)
    requires FirstDistinctDraws(m1, width, hardheadedness, draws)
    requires FirstDistinctDraws(m2, width, hardheadedness, draws)
    ensures m1 == m2
  {
    var i :| 0 <= i <= |draws| && BitSet(m1, width) == Drawn(draws[..i]) &&
      |Drawn(draws[..i])| == hardheadedness && (i > 0 ==> |Drawn(draws[..i - 1])| < hardheadedness);
    var j :| 0 <= j <= |draws| && BitSet(m2, width) == Drawn(draws[..j]) &&
      |Drawn(draws[..j])| == hardheadedness && (j > 0 ==> |Drawn(draws[..j - 1])| < hardheadedness);
    if i < j {
      DrawnGrows(draws, i, j - 1);
    } else if j < i {
      DrawnGrows(draws, j, i - 1);
    }
    assert i == j;
    forall b | 0 <= b < width ensures Bit(m1, b) == Bit(m2, b) {
      assert b in BitSet(m1, width) <==> b in BitSet(m2, width);
    }
    BitsDetermineValue(m1, m2, width);
  }

  /** Chooses the unbendable bitmask: draws bit positions in turn and sets each
      one not yet set, until `hardheadedness` bits are set. The positions the
      source draws at random are the sequence `draws`. */
  method ChooseUnbendable(width: nat, hardheadedness: nat, draws: seq<nat>) returns (r: Option<nat>)
    requires hardheadedness < width
    requires forall i :: 0 <= i < |draws| ==> draws[i] < width
    ensures r.Some? ==> r.value < Pow2(width) && CountBits(r.value, width) == hardheadedness
    ensures r.Some? ==> forall b :: 0 <= b < width && Bit(r.value, b) == 1 ==> b in draws
    ensures r.Some? ==> FirstDistinctDraws(r.value, width, hardheadedness, draws)
    ensures r.None? <==> |Drawn(draws)| < hardheadedness
  {
    var mask: nat := 0;
    var bitsSet: nat := 0;
    var i := 0;
    forall b ensures Bit(0, b) == 0 {
      BitOfZero(b);
    }
    assert BitSet(0, width) == {};
    CountBitsIsCardinality(0, width);
    while bitsSet < hardheadedness && i < |draws|
      invariant 0 <= i <= |draws|
      invariant mask < Pow2(width)
      invariant BitSet(mask, width) == Drawn(draws[..i])
      invariant bitsSet == CountBits(mask, width) <= hardheadedness
      invariant i > 0 ==> |Drawn(draws[..i - 1])| < hardheadedness
    {
      CountBitsIsCardinality(mask, width);
      var d := draws[i];
      DrawnStep(draws, i);
      if Bit(mask, d) == 0 {
        SetBitInRange(mask, d, width);
        mask := mask + Pow2(d);
        bitsSet := bitsSet + 1;
      } else {
        assert d in BitSet(mask, width);
      }
      i := i + 1;
    }
    CountBitsIsCardinality(mask, width);
    if bitsSet == hardheadedness {
      DrawnPrefix(draws, i);
      forall b | 0 <= b < width && Bit(mask, b) == 1 ensures b in draws {
        assert b in BitSet(mask, width);
      }
      assert BitSet(mask, width) == Drawn(draws[..i]) && |Drawn(draws[..i])| == hardheadedness;
      r := Some(mask);
    } else {
      assert draws[..i] == draws;
      r := None;
    }
  }

  /** Constructs a person from the values the source draws at random: the
      preference bits, the mood, the threshold percent, the number of
      unbendable bits and the candidate bit positions. */
  method NewPerson(id: nat, width: nat, preference: nat, basicallyHappy: bool,
                   threshold: nat, hardheadedness: nat, draws: seq<nat>)
    returns (r: Result<Person, PersonError>)
    requires preference < Pow2(width)
    requires width > 0 ==> hardheadedness < width
    requires forall i :: 0 <= i < |draws| ==> draws[i] < width
    ensures width == 0 ==> r == Failure(EmptyRange)
    ensures width > 0 ==> (r.Success? <==> hardheadedness <= |Drawn(draws)|)
    ensures r.Failure? ==> r.error == (if width == 0 then EmptyRange else DrawsExhausted)
    ensures r.Success? ==> r.value.Valid()
    ensures r.Success? ==> FirstDistinctDraws(r.value.mask, width, hardheadedness, draws)
    ensures r.Success? ==>
      r.value.id == id && r.value.width == width && r.value.preference == preference &&
      r.value.basicallyHappy == basicallyHappy && r.value.threshold == threshold &&
      r.value.hardheadedness == hardheadedness
  {
    if width == 0 {
      return Failure(EmptyRange);
    }
    var mask := ChooseUnbendable(width, hardheadedness, draws);
    if mask.None? {
      return Failure(DrawsExhausted);
    }
    r := Success(Person(id, width, preference, basicallyHappy, threshold, hardheadedness, mask.value));
  }

  /** A person's vote is their preference bits. */
  function Vote(p: Person): (r: nat)
    requires p.Valid()
    ensures r < Pow2(p.width)
  {
    p.preference
  }

  /** Baseline happiness: the full width for a basically happy person, else 0. */
  function Base(p: Person): nat
  {
    if p.basicallyHappy then p.width else 0
  }

  /** The number of masked bits below the width. */
  function MaskedCount(p: Person): nat
  {
    CountBits(p.mask, p.width)
  }

  /** Masked positions below n where the preference agrees with `env`. */
  function Matches(p: Person, env: nat, n: nat): nat
  {
    if n == 0 then 0
    else
      var b := n - 1;
      Matches(p, env, b) + (if Bit(p.mask, b) == 1 && Bit(p.preference, b) == Bit(env, b) then 1 else 0)
  }

  /** Masked positions below n where the preference differs from `env`. */
  function Mismatches(p: Person, env: nat, n: nat): nat
  {
    if n == 0 then 0
    else
      var b := n - 1;
      Mismatches(p, env, b) + (if Bit(p.mask, b) == 1 && Bit(p.preference, b) != Bit(env, b) then 1 else 0)
  }

  /** The happiness of `p` under platform `env`: the baseline, plus one per
      masked bit that matches, minus one per masked bit that does not. */
  function Happiness(p: Person, env: nat): int
  {
    Base(p) + Matches(p, env, p.width) - Mismatches(p, env, p.width)
  }

  /** `env` agrees with the person's preference on every masked bit. */
  predicate Agrees(p: Person, env: nat)
  {
    AgreesBelow(p, env, p.width)
  }

  /** The source's happiness loop over the bits of the width. */
  method CheckHappiness(p: Person, env: nat) returns (h: int)
    ensures h == Happiness(p, env)
  {
    h := if p.basicallyHappy then p.width else 0;
    for bit := 0 to p.width
      invariant h == Base(p) + Matches(p, env, bit) - Mismatches(p, env, bit)
    {
      if Bit(p.mask, bit) == 1 {
        var preferenceBit := Bit(p.preference, bit);
        var environmentBit := Bit(env, bit);
        if preferenceBit != environmentBit {
          h := h - 1;
        }
        if preferenceBit == environmentBit {
          h := h + 1;
        }
      }
    }
  }

  lemma {:induction false} MatchesPlusMismatches(p: Person, env: nat, n: nat)
    ensures Matches(p, env, n) + Mismatches(p, env, n) == CountBits(p.mask, n)
  {
    if n > 0 {
      MatchesPlusMismatches(p, env, n - 1);
    }
  }

  /** The masked bits below n agree with `env`. */
  predicate AgreesBelow(p: Person, env: nat, n: nat)
  {
    forall b :: 0 <= b < n && Bit(p.mask, b) == 1 ==> Bit(p.preference, b) == Bit(env, b)
  }

  lemma {:induction false} NoMismatches(p: Person, env: nat, n: nat)
    ensures Mismatches(p, env, n) == 0 <==> AgreesBelow(p, env, n)
  {
    if n > 0 {
      NoMismatches(p, env, n - 1);
      if AgreesBelow(p, env, n) {
        assert AgreesBelow(p, env, n - 1);
      } else if AgreesBelow(p, env, n - 1) {
        assert Bit(p.mask, n - 1) == 1 && Bit(p.preference, n - 1) != Bit(env, n - 1);
      }
    }
  }

  /** Happiness lies within the masked count of the baseline; for a valid
      person the masked count is the hardheadedness, below the width. */
  lemma HappinessBounds(p: Person, env: nat)
    ensures Base(p) - MaskedCount(p) <= Happiness(p, env) <= Base(p) + MaskedCount(p)
    ensures p.Valid() ==> Base(p) - p.width < Happiness(p, env) < Base(p) + p.width
  {
    MatchesPlusMismatches(p, env, p.width);
  }

  /** Happiness reaches its maximum exactly when `env` agrees on every masked bit;
      otherwise it is at least two below it. */
  lemma HappinessMaximal(p: Person, env: nat)
    ensures Happiness(p, env) == Base(p) + MaskedCount(p) <==> Agrees(p, env)
    ensures !Agrees(p, env) ==> Happiness(p, env) <= Base(p) + MaskedCount(p) - 2
  {
    MatchesPlusMismatches(p, env, p.width);
    NoMismatches(p, env, p.width);
  }

  /** Only the masked bits below the width of a platform affect happiness. */
  lemma {:induction false} HappinessIgnoresUnmaskedBits(p: Person, env1: nat, env2: nat, n: nat)
    requires forall b :: 0 <= b < n && Bit(p.mask, b) == 1 ==> Bit(env1, b) == Bit(env2, b)
    ensures Matches(p, env1, n) == Matches(p, env2, n)
    ensures Mismatches(p, env1, n) == Mismatches(p, env2, n)
    ensures n == p.width ==> Happiness(p, env1) == Happiness(p, env2)
  {
    if n > 0 {
      HappinessIgnoresUnmaskedBits(p, env1, env2, n - 1);
    }
  }

  /** The source's `happiness / preference_width < move_threshold`, with the
      threshold as a percent, compared by cross-multiplication. */
  predicate WantsToMove(p: Person, env: nat)
  {
    100 * Happiness(p, env) < p.threshold * p.width
  }

  /** The cross-multiplied comparison is the source's division comparison,
      taken over exact rationals. */
  lemma WantsToMoveMatchesRatio(p: Person, env: nat)
    requires p.width >= 1
    ensures WantsToMove(p, env) <==>
      (Happiness(p, env) as real) / (p.width as real) < (p.threshold as real) / 100.0
  {
    var h := Happiness(p, env) as real;
    var w := p.width as real;
    var t := p.threshold as real;
    assert h / w * w == h;
    if h / w < t / 100.0 {
      assert h == (h / w) * w < (t / 100.0) * w;
    } else {
      assert h == (h / w) * w >= (t / 100.0) * w;
    }
  }

  /** A basically happy person whose masked bits all agree with the platform
      never wants to move while the threshold is at most 100 percent. */
  lemma ContentPersonStays(p: Person, env: nat)
    requires p.basicallyHappy && Agrees(p, env) && p.threshold <= 100
    ensures !WantsToMove(p, env)
  {
    HappinessMaximal(p, env);
    assert Happiness(p, env) >= p.width;
    assert p.threshold * p.width <= 100 * p.width;
  }
}
