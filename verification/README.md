# PartyPlatform: a verified model of the town-migration simulation

PartyPlatform simulates people who live in towns. Every person has fixed
preference bits. A person also has an "unbendable" mask, which marks the bits
they actually care about. On top of that come a baseline mood and a move
threshold. Each town votes a platform, a bit field that takes the majority
value of its residents' preference bits.

In every world step, each town first hands over the residents whose happiness
under its platform falls below their threshold. Each of these movers then goes
to the town where they would be happiest; their own town wins a tie. Every
`steps_in_year * years_to_vote` steps the towns vote again.

This project models the core of `simulationobjects.py` in Dafny and proves
what that code guarantees:

- `Bits`: the integers the source uses as bit fields (`>>`, `&`, `|=`, `1 << n`).
- `People`: the person record and its operations:
  - construction, including the unbendable-mask draw;
  - `vote`, `check_happiness` and `wants_to_move`.
- `Towns`:
  - the majority vote, as a specification function and as the source's tally loops;
  - the mover filter and the source's remove-by-identity loop;
  - the `Town` class, whose `people` list and platform the methods update in place.
- `Migration`: the migration round of a step, as functions over the residents of all towns. It covers:
  - the greedy choice of destination;
  - resettlement in group order;
  - the count of people moved.

  Its lemmas state conservation, uniqueness, where each person lands, and independence from the shuffle.
- `Worlds`: the `World` class. Its `Step` method does what `step_world` does, in place over the towns. It is proved to compute exactly the `Migration` functions, then the elections, then the year advance.

`check_happiness` applies no clamp: happiness ranges over `[Base - k, Base + k]`,
where `Base` is the width for a basically happy person and 0 otherwise and `k` is
the number of unbendable bits, so it can be negative and can exceed the width.

## Model

| member | source | states |
|---|---|---|
| People.ChooseUnbendable | simulationobjects.py:29-43 | the mask has exactly `hardheadedness` set bits, all below the width; its set bits are the distinct positions of the shortest prefix of the draws that holds `hardheadedness` of them; it fails exactly when the draws offer fewer distinct positions than needed |
| People.FirstDistinctDrawsUnique | simulationobjects.py:36-43 | the draws determine the mask: two masks of the width that both take the first `hardheadedness` distinct draws are equal |
| People.NewPerson | simulationobjects.py:13-27 | a zero width fails (the source's `randint(0, -1)` raises); otherwise construction succeeds exactly when enough distinct bit positions are drawn, and the person is well formed with the given fields and the mask of the first `hardheadedness` distinct draws |
| People.Vote | simulationobjects.py:45-46 | a person's vote is a value of their width |
| People.Happiness | simulationobjects.py:48-64 | the happiness under a platform: the baseline (width if basically happy, else 0), plus one per masked bit below the width on which the platform agrees, minus one per masked bit on which it differs; bounded by `HappinessBounds` and maximal exactly on agreement by `HappinessMaximal` |
| People.CheckHappiness | simulationobjects.py:48-64 | the loop computes `Happiness`: baseline, plus one per masked bit matching the platform, minus one per masked bit that differs |
| People.MatchesPlusMismatches | simulationobjects.py:53-62 | every masked bit is counted exactly once, as a match or a mismatch |
| People.NoMismatches | simulationobjects.py:53-62 | no mismatch occurs exactly when the platform agrees on every masked bit |
| People.HappinessBounds | simulationobjects.py:48-64 | happiness lies within the masked count of the baseline, hence strictly within `width` of it for a well-formed person (it is not clamped) |
| People.HappinessMaximal | simulationobjects.py:48-64 | happiness is maximal exactly when the platform agrees on every masked bit, and at least 2 lower otherwise |
| People.HappinessIgnoresUnmaskedBits | simulationobjects.py:53-56 | platforms that agree on the masked bits give the same happiness |
| People.WantsToMove | simulationobjects.py:66-69 | a person wants to move when happiness divided by the width is below the threshold, compared by cross-multiplication with the threshold as a percent; `WantsToMoveMatchesRatio` proves it equal to the division |
| People.WantsToMoveMatchesRatio | simulationobjects.py:66-69 | the cross-multiplied test equals `happiness / width < threshold` over exact rationals |
| People.ContentPersonStays | simulationobjects.py:66-69 | a basically happy person whose masked bits all agree never wants to move (threshold at most 100%) |
| Bits.SetBitInRange | simulationobjects.py:39-43 | or-ing in a clear bit adds exactly that position and one to the count of set bits |
| Bits.CountBitsIsCardinality | simulationobjects.py:36-43 | the count of set bits is the size of the set of set positions |
| Towns.Tally | simulationobjects.py:89-101 | after the tally, `votes[b]` is supporters minus opponents of bit b |
| Towns.Majority | simulationobjects.py:102-108 | the platform of a list of residents: the sum of `2^b` over the bits b below the width that more residents vote for than against; characterised bit by bit by `MajorityBits` |
| Towns.MajorityBits | simulationobjects.py:103-106 | platform bit b is set exactly when strictly more residents have bit b set than clear (a tie clears it), and the platform fits the width |
| Towns.MajorityIgnoresOrder | simulationobjects.py:91-101 | the platform depends only on the multiset of residents, not on their order |
| Towns.MajorityUnanimous | simulationobjects.py:85-108 | a town whose residents all vote the same value adopts that value |
| Towns.Town.VoteForPlatform | simulationobjects.py:85-108 | an empty town keeps its platform; otherwise the platform becomes the majority of the residents' votes, bit by bit; the residents are unchanged |
| Towns.Town.constructor | simulationobjects.py:72-83 | a town holds the given residents and has voted; an empty town has no platform |
| Towns.Town.AddPerson | simulationobjects.py:110-111 | the person is appended; the platform is unchanged |
| Towns.Movers | simulationobjects.py:114-118 | the residents who want to move under the platform, in resident order; `MoversPartition` gives its membership both ways |
| Towns.Stayers | simulationobjects.py:120-121 | the residents who do not want to move, in resident order: what the removal loop leaves, by `DropWanting` |
| Towns.RemoveFirst | simulationobjects.py:121 | `list.remove`: the list without the first occurrence of the person; `RemoveFirstDrop` proves that successive removals take out exactly the given movers |
| Towns.CollectMovers | simulationobjects.py:114-118 | the movers are the residents who want to move, in resident order |
| Towns.RemoveMovers | simulationobjects.py:120-121 | removing the movers one by one, each at its first occurrence, leaves `Drop(residents, movers)` |
| Towns.RemoveFirstDrop | simulationobjects.py:121 | removing one more mover from distinct residents extends the removal by that mover |
| Towns.DropWanting | simulationobjects.py:113-123 | removing exactly the residents who want to move leaves the stayers in their order |
| Towns.MoversPartition | simulationobjects.py:113-123 | movers and stayers split the residents: membership of each in both directions, and their multisets add up to the residents' |
| Towns.DistinctStayers | simulationobjects.py:120-121 | the residents left behind are still distinct |
| Towns.Town.GetMovers | simulationobjects.py:113-123 | returns the movers and leaves the stayers, in order; without a platform, an empty town returns no movers and a populated one fails |
| Towns.Town.Visit | simulationobjects.py:125-126 | the visit score is the person's happiness under the town's platform, and fails exactly when the town never voted |
| Migration.Scan | simulationobjects.py:161-165 | the loop over the towns after a position, switching only to a town that is not the origin and scores strictly higher; the result is a town index |
| Migration.Best | simulationobjects.py:158-165 | the scan started from the origin over all towns; a town index, the first maximum by `BestIsFirstMaximum` |
| Migration.Dest | simulationobjects.py:158-165 | the destination of a mover: `Best` of the person's happiness under every town's platform; a town index |
| Migration.BestIsFirstMaximum | simulationobjects.py:158-165 | the destination scores highest of all towns; the origin is kept unless some town scores strictly higher; otherwise it is the first such top-scoring town in list order |
| Migration.BestIsUnique | simulationobjects.py:158-165 | those three properties determine the destination |
| Migration.OneTown | simulationobjects.py:147-170 | in a world of distinct people, a person in one town is in no other |
| Migration.StepConservesPeople | simulationobjects.py:147-170 | after the round the towns hold the same people as before, each as often, and the same number of towns |
| Migration.StepKeepsEveryoneOnce | simulationobjects.py:147-170 | the people remain distinct, nobody appears or disappears, and each person is in exactly one town |
| Migration.StayersKeepPlace | simulationobjects.py:147-170 | each town keeps its stayers, in order, as a prefix; everyone after them wanted to move from some town, chose this one, and scores highest here |
| Migration.Relocated | simulationobjects.py:147-170 | the towns after the migration round: the stayers of each town, then every shuffled group, town by town, each mover appended to their destination in pop order; its properties are `StepConservesPeople`, `StepKeepsEveryoneOnce`, `StayersKeepPlace` and `ShuffleOnlyReorders` |
| Migration.MovedCount | simulationobjects.py:167-168 | the number of movers, over all shuffled groups, whose destination is not their own town; bounded by `MovedAtMostMovers` |
| Migration.Revote | simulationobjects.py:181-182 | after a re-vote, an empty town keeps its platform and every other town's platform is the majority of its residents |
| Migration.MovedAtMostMovers | simulationobjects.py:167-168 | the reported count never exceeds the number of movers |
| Migration.ShuffleOnlyReorders | simulationobjects.py:153-170 | any two shuffles give every town the same people and report the same count; only arrival order differs |
| Worlds.BuildTowns | simulationobjects.py:138 | one fresh town per population, distinct objects, width 32, each having voted |
| Worlds.World.constructor | simulationobjects.py:137-141 | a valid world with the given populations, width 32 everywhere, year 0 |
| Worlds.World.ChooseDestination | simulationobjects.py:158-165 | the scan of the origin and then the other towns returns `Dest`, the first maximum |
| Worlds.World.TakeMovers | simulationobjects.py:148 | one town's movers are taken and its stayers left, other towns unchanged |
| Worlds.World.CollectAllMovers | simulationobjects.py:147-148 | the groups are every town's movers and the towns keep their stayers; platforms unchanged |
| Worlds.World.Settle | simulationobjects.py:170 | the person is appended to town d only |
| Worlds.World.ResettleGroup | simulationobjects.py:155-170 | popping a group appends each mover to its destination in order and counts those who changed town |
| Worlds.World.RelocateAll | simulationobjects.py:150-170 | every shuffled group is resettled in town order; the count is the number who changed town |
| Worlds.World.Migrate | simulationobjects.py:144-170 | the towns end up as `Relocated` and the count is `MovedCount`; the world stays valid |
| Worlds.World.HoldElections | simulationobjects.py:181-182 | every town votes again; empty towns keep their platforms; residents unchanged |
| Worlds.World.ElectionDue | simulationobjects.py:180 | the towns vote again when the year counter is a multiple of `stepsInYear * yearsToVote`; `ElectionsEvery40Steps` shows that is every 40 steps |
| Worlds.World.ElectionsEvery40Steps | simulationobjects.py:180 | elections fall exactly on the years divisible by 40, never on two consecutive steps |
| Worlds.World.Step | simulationobjects.py:143-186 | the residents become `Relocated` of the old ones and the count is `MovedCount`; platforms are re-voted exactly in election years; the year advances by 1; the world stays valid |

## Left out

- Random draws are parameters:
  - the preference bits, the mood and the threshold;
  - the hardheadedness and the bit positions tried for the mask;
  - the shuffle, taken as any function that permutes each group.
- ChooseUnbendable: the source draws until enough distinct bits are set. The model tries a finite sequence of positions and reports `DrawsExhausted` when it runs out. An unlucky draw sequence therefore fails where the source would keep drawing.
- The move threshold is an integer percent. The random case (`randint(40, 60) / 100`) is exact. A caller-supplied float threshold that is not a whole percent is not represented.
- Floating-point rounding in `happiness / width < threshold` is not modelled. The comparison is exact (cross-multiplied), and `WantsToMoveMatchesRatio` ties it to exact rational division.
- Town sizes are not drawn (`randint(town_pop_min, town_pop_max)` and `_init_population_`). The constructors take the populations directly.
- Step requires every town to have a platform. A town created with no residents never votes. The source then raises `AttributeError` as soon as some mover visits that town, partway through the step. The model does not cover that partial state. Nor does it cover a world with such a town in which nobody wants to move: the source finishes that step normally, but `Step` still requires every town to have voted.
- RemoveFirst: a person absent from the list is left out silently, where Python's `list.remove` raises `ValueError`. `get_movers` removes only distinct movers taken from its own residents, so the error never arises there.
- Python object identity is modelled by the `id` field of a person. `Distinct` says no person is listed twice.
- Step flags the election and advances the year before the towns change; the source does both after the migration round. Nothing in between reads the year, so the final state is the same.
- The `__str__` methods, the `__main__` driver and the user interface in `partyplatform.py` are not part of this model. Neither is the commented-out random-town selection in `step_world`.
