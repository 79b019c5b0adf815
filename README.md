# Costly signaling on a spatial grid — a Dafny model

This project models the agent-based simulation of the costly-paper repository, in which
groups on a grid of territory cells follow one of two strategies:

- **monument building** (costly signaling): a group diverts a share of its resources into
  a monument;
- **high reproduction**: a group puts everything into growth.

The simulation moves one year at a time through five steps:

1. **Shortfall schedule.** The year advances, and the schedule decides whether this is a
   resource-shortfall year. Shortfalls recur every `shortfall_frequency` years, last one
   to three years depending on the magnitude, and scale productivity by
   `1 - shortfall_magnitude`.
2. **Growth.** Each group grows logistically toward the carrying capacity of its
   territory, and signaling groups invest in their monuments.
3. **Resource sharing.** In shortfall years, signaling groups share with adjacent needy
   signaling groups.
4. **Border conflicts.** Neighbouring groups may fight. Monuments deter fights and
   strengthen defence; reproduction groups are more aggressive in shortfalls. Both sides
   lose people, and the loser loses more.
5. **Extinction and history.** Groups with one person or fewer die out, and the yearly
   history is recorded.

Around the simulation, the model also covers:

- one run from settings to summary statistics;
- the run plans of the parameter exploration: the frequency × magnitude experiment and the
  comparison of strategy proportions;
- the dominance of signaling over reproduction, and the dominance grid;
- the search for critical transitions;
- the seeding formula and crossover search of the sensitivity validation;
- the productivity series drawn in the environmental figures.

The modules follow the program's structure.

- `Config`: strategies, the constructor's keyword parameters and their defaults.
- `Shortfall`: Python's `int()` and `%`, the shortfall duration and the shortfall-year test.
- `Growth`: one year of growth and monument investment for a group.
- `Conflict`: conflict probability, strengths, the win probability, mortality, conflict pairs.
- `Grid`: cells, squared distances, the nearest center and the cells each center claims.
- `Placement`: rejection sampling of the group centers, and the strategy list built from the
  proportions.
- `Sharing`: the sharing phase, as a function of the groups at the start of the phase.
- `Statistics`: population, count and mean sums over the live groups.
- `RealFacts`: small facts of real arithmetic.
- `Simulation`: `Group` and `SpatialSimulation` as classes whose methods update their
  fields in place.
  - `groups` is a map from id to `Group`.
  - `order` is the dict's insertion order.
  - `territoryMap` is an `array2<int>`.
  - Each phase is a method proved against the value-level functions of the modules above.
  - A whole year is proved against `YearOutcome`. Every group grows (`GrowAll`), sharing then
    sets the populations (`ShareAll`), and each group ends with its won and lost tallies
    raised by its conflicts. Its population is then the shared one times `W^wins × L^losses`,
    where W and L are the winner's and the loser's survival shares.
- `Exploration`: `run_single_simulation`, the experiment plans, dominance, the dominance grid,
  and `identify_critical_transitions`.
- `SensitivityValidation`: `compute_seed`, the transect, `run_simulation`, and `find_crossover`.
- `EnvironmentFigures`: `create_productivity_with_duration`. The figures'
  `calculate_shortfall_duration` is the same formula as the simulation's duration, modelled
  once as `Shortfall.ShortfallDuration`.

Randomness is an input throughout.

- The conflict phase reads its draws from a stream `random: nat -> real` given to the
  constructor, consumed through a cursor.
- Initialization takes the candidate center cells, the fill choices, the shuffle (any
  permutation) and the initial populations (in [50, 100)) as arguments.
- A Python `set` is iterated in an order the model does not fix. Neighbour sets come with a
  listing of their members, in the order found.
- Floats are `real`s. Where Python would raise an exception (a division by zero, `argmin`
  of an empty list, a random choice among no entries), the model returns `ok = false`.

## Model

| member | source | states |
|---|---|---|
| Config.DefaultParams | src/costly/simulation.py:51-67 | the constructor's defaults meet what a step needs: a non-zero frequency, a positive capacity per cell, a magnitude in [0, 1] and r >= 0 |
| Shortfall.Trunc | src/costly/simulation.py:210 | `int()` truncates toward zero: r <= x < r + 1 for x >= 0, and r - 1 < x <= r below zero |
| Shortfall.PyMod | src/costly/simulation.py:211 | Python's `%` takes the divisor's sign: the result lies in [0, b) for b > 0 and in (b, 0] for b < 0, and it differs from a by a multiple of b |
| Shortfall.ShortfallDuration | src/costly/simulation.py:210 | a shortfall lasts at least one year, and at most three for a magnitude in [0, 1] |
| Shortfall.DurationByMagnitude | src/costly/simulation.py:209-210 | magnitudes below 0.4 give one year, [0.4, 0.8) two years and 0.8 or more three years |
| Shortfall.MultiplesAreNeverShortfall | src/costly/simulation.py:211-212 | years at multiples of the frequency (year 0 included) are never shortfall years |
| Shortfall.NegativeFrequencyNeverShortfall | src/costly/simulation.py:211-212 | with a negative frequency no year is a shortfall year |
| Shortfall.ShortfallIsPeriodic | src/costly/simulation.py:211-212 | the shortfall schedule repeats with the frequency |
| Shortfall.FrequencySixMagnitudePointSix | src/costly/simulation.py:210-212 | example: frequency 6 and magnitude 0.6 give shortfalls in years 1, 2, 7 and 8, and none in years 3, 4, 5, 6 and 9 |
| Shortfall.ZeroMagnitudeHasNoEffect | src/costly/simulation.py:210-216 | magnitude 0 still gives a one-year shortfall, which leaves productivity at its base |
| Shortfall.ShortfallProductivityBounds | src/costly/simulation.py:214-216 | a shortfall never raises productivity and never makes it negative |
| Growth.BaseGrowthRate | src/costly/simulation.py:249-263 | 5% for signaling groups; at least 5% for reproduction groups with a non-negative bonus |
| Growth.BufferBonus | src/costly/simulation.py:254-258 | the monument buffer is capped at 40% and is non-negative for non-negative monuments, factor and magnitude |
| Growth.VulnerabilityPenalty | src/costly/simulation.py:267-269 | the reproduction penalty is capped at 30% and is non-negative when population and capacity are |
| Growth.ResourceFactor | src/costly/simulation.py:275-276 | the resource factor is at most 1, and non-negative for non-negative resources |
| Growth.Grow | src/costly/simulation.py:237-279 | a group never grows past its capacity, and a reproduction group's monument is unchanged |
| Growth.MonumentAccumulates | src/costly/simulation.py:242-245 | a signaling monument grows by exactly territory × productivity × cost, so it never decreases under non-negative productivity and cost; a reproduction monument never changes |
| Growth.ResourcesNonNegative | src/costly/simulation.py:239-269 | in the documented parameter ranges the resources for growth are never negative |
| Growth.GrowthBelowCapacity | src/costly/simulation.py:271-279 | a group at or below capacity never shrinks through growth and ends at or below capacity |
| Conflict.BaseProbability | src/costly/simulation.py:408-414 | 5% in good years; at least 5% in shortfall years with a non-negative magnitude |
| Conflict.AverageMonument | src/costly/simulation.py:417-420 | the pair's mean per-capita monument is non-negative for non-negative monuments |
| Conflict.DeterrenceDivisor | src/costly/simulation.py:428-437 | the deterrence divisor is at least 3 under well-defined parameters |
| Conflict.MonumentFactor | src/costly/simulation.py:422-437 | the monument factor lies in (0, 1], and is exactly 1 without monuments |
| Conflict.AggressionFactor | src/costly/simulation.py:439-447 | the factor differs from 1 only in shortfall years with a reproduction party, and lies in [1, 2.5] |
| Conflict.Capped | src/costly/simulation.py:449-451 | the product of positive factors, capped, lies in (0, 0.5] |
| Conflict.CappedMonotone | src/costly/simulation.py:449-451 | the capped product is monotone in each non-negative factor |
| Conflict.ProbabilityFromAverage | src/costly/simulation.py:403-451 | the conflict probability lies in (0, 0.5] |
| Conflict.Probability | src/costly/simulation.py:403-451 | the conflict probability of two groups lies in (0, 0.5] |
| Conflict.MonumentFactorAntitone | src/costly/simulation.py:422-437 | the deterrence factor never grows with the average monument |
| Conflict.MonumentsDeter | src/costly/simulation.py:416-451 | a larger average monument never makes a conflict more likely |
| Conflict.GoodYearProbability | src/costly/simulation.py:413-447 | in a good year the probability is at most 5%, exactly 5% without monuments, whatever the strategies |
| Conflict.NoMonumentsMonotoneInMagnitude | src/costly/simulation.py:408-449 | without monuments the probability never falls as the shortfall deepens |
| Conflict.MagnitudeCanLowerProbability | src/costly/simulation.py:412-434 | with monuments a deeper shortfall can lower the probability: 0.2 at magnitude 0.9 but 0.175 at 1.0 |
| Conflict.RScale | src/costly/simulation.py:459 | the coefficient relative to its 0.75 baseline: 1 at r = 0.75, zero exactly when r is, positive exactly when r is |
| Conflict.MonumentBonus | src/costly/simulation.py:461-468 | no bonus without a monument or with r = 0; never negative for non-negative monument, population and r |
| Conflict.GoodYearBonus | src/costly/simulation.py:461-468 | a good year's bonus is exactly 5% of the shortfall-year bonus of the same group |
| Conflict.BonusMonotone | src/costly/simulation.py:461-468 | a larger monument never gives a smaller bonus |
| Conflict.Strength | src/costly/simulation.py:470-471 | a group without monument has its population as strength; the bonus never lowers it under non-negative inputs |
| Conflict.MortalityMultiplier | src/costly/simulation.py:481-485 | the multiplier lies in [1, 1.5] and exceeds 1 exactly in shortfall years |
| Conflict.WinnerSurvival | src/costly/simulation.py:487 | with mortality in range the winner keeps between half and all of its people, and all of them exactly when mortality is zero |
| Conflict.LoserSurvival | src/costly/simulation.py:488 | the loser loses exactly twice the winner's share, and with mortality in range keeps a share in [0, 1] |
| Conflict.WinProbability | src/costly/simulation.py:474 | the win probability lies in [0, 1], and is at least one half exactly when the first group is at least as strong |
| Conflict.SurvivalBounds | src/costly/simulation.py:481-488 | with mortality in range, conflicts never raise a population and never make it negative; the loser fares at least as badly as the winner; shortfalls are deadlier |
| Conflict.MonumentsStrengthen | src/costly/simulation.py:459-471 | of two equally populous groups, the one with more monument is at least as strong |
| Conflict.SurvivalPositive | src/costly/simulation.py:482-488 | below the top of the mortality range both sides keep a positive share |
| Conflict.StrengthPositive | src/costly/simulation.py:470-474 | a populated group without negative monument has positive strength, so the win probability is defined |
| Conflict.Pair | src/costly/simulation.py:372 | the recorded pair is the two ids, sorted |
| Conflict.InvolvingAdd | src/costly/simulation.py:381-384 | a new conflict adds one to the count of each of its two parties and nothing to any other group |
| Grid.SqDist | src/costly/simulation.py:198 | the squared distance is zero exactly for equal cells |
| Grid.NearestAmong | src/costly/simulation.py:198-199 | the index of the nearest of the first n centers, the first one on ties |
| Grid.Nearest | src/costly/simulation.py:198-199 | `argmin`: no center is nearer, and every earlier index is strictly farther |
| Grid.NearestUnique | src/costly/simulation.py:199 | those two properties determine the nearest index |
| Grid.DistinctCenterIsNearestToItself | src/costly/simulation.py:193-202 | a center no other center shares is its own nearest center |
| Grid.ClaimMembers | src/costly/simulation.py:193-202 | a group's territory is exactly the in-bounds cells nearest to its center |
| Grid.ClaimsPartition | src/costly/simulation.py:193-202 | every grid cell belongs to exactly one territory, and no off-grid cell to any |
| Grid.DistinctCenterClaimsItsCell | src/costly/simulation.py:193-202 | a center no other center shares claims at least its own cell |
| Grid.NeighbourSymmetric | src/costly/simulation.py:394-395 | orthogonal adjacency is symmetric |
| Placement.Spaced | src/costly/simulation.py:175-183 | the accepted centers are at most k and at most n, all drawn from the first k candidates |
| Placement.SpacedApart | src/costly/simulation.py:170-181 | every accepted center is at least the minimum distance from every center accepted before it |
| Placement.SpacedSaturates | src/costly/simulation.py:175 | once n centers are accepted, no more are accepted |
| Placement.Quota | src/costly/simulation.py:139-140 | an entry's copies are at most n × its proportion |
| Placement.DefaultSplitsEvenly | src/costly/simulation.py:127-144 | the default split gives n/2 of each strategy, plus one random fill choice for odd n, and sums to 1 |
| Placement.FillCount | src/costly/simulation.py:143 | the fill completes the list to n entries, and adds none when the quotas reach n |
| Placement.Fill | src/costly/simulation.py:143-144 | fill choice k is the strategy of entry pick(k) |
| Placement.BaseWithinShare | src/costly/simulation.py:137-140 | with non-negative proportions, the quotas add up to at most n × their sum |
| Placement.BaseWithinCount | src/costly/simulation.py:137-140 | proportions summing to at most 1 leave room for the fill |
| Placement.StrategyListShape | src/costly/simulation.py:137-144 | with such proportions the list has exactly n entries, each the strategy of some entry |
| Placement.BaseEntries | src/costly/simulation.py:137-140 | every quota entry is the strategy of some proportion entry |
| Statistics.OfStrategy | src/costly/simulation.py:503 | the records of one strategy are exactly those records, in order |
| Statistics.TotalSplitsByStrategy | src/costly/simulation.py:499-504 | the total population is the sum of the two strategies' populations |
| Statistics.CountSplitsByStrategy | src/costly/simulation.py:526-528 | the two strategies' group counts add up to the number of groups |
| Statistics.TotalExceedsCount | src/costly/simulation.py:232 | groups of more than one person each hold more people in total than there are groups |
| Statistics.TotalNonNegative | src/costly/simulation.py:499 | the total population of groups without negative populations is non-negative |
| Statistics.StrategyCount | src/costly/simulation.py:526-528 | a strategy's group count never exceeds the number of groups |
| Statistics.StrategyPopulationBounds | src/costly/simulation.py:499-504 | a strategy's population lies between 0 and the total population |
| Statistics.StrategyAbsent | src/costly/simulation.py:524-529 | a strategy counts no groups exactly when no group follows it, and then its population and mean territory are 0 |
| Statistics.MeanSignalingMonument | src/costly/simulation.py:507-509 | without signaling groups the mean monument is 0 |
| Statistics.MeanSignalingMonumentTotal | src/costly/simulation.py:507-509 | the mean monument times the number of signaling groups is their total monument |
| Statistics.MeanSignalingMonumentNonNegative | src/costly/simulation.py:507-509 | with non-negative monuments the mean monument is non-negative |
| Statistics.MeanTerritory | src/costly/simulation.py:529 | the mean territory size is 0 for a strategy without groups and never negative |
| Statistics.SumInts | src/costly/simulation.py:522 | the sum of non-negative counts is non-negative |
| Sharing.Classify | src/costly/simulation.py:301-314 | a needy group has a positive deficit, and a sharing group a positive surplus |
| Sharing.ClassifyByCapacity | src/costly/simulation.py:302-311 | needy iff below 60% of capacity; sharing iff above 70%, with surplus × capacity = population − 0.7 capacity |
| Sharing.Receivers | src/costly/simulation.py:321-328 | receivers are neighbours that are live groups |
| Sharing.GiftOf | src/costly/simulation.py:317-337 | a group makes at most one gift, from itself, to a non-empty set of live groups |
| Sharing.Plan | src/costly/simulation.py:317-337 | every gift comes from a listed giver and goes to live groups |
| Sharing.Apply | src/costly/simulation.py:339-344 | applying the gifts keeps the same groups |
| Sharing.SignalingIds | src/costly/simulation.py:295 | exactly the listed signaling groups, in order |
| Sharing.SignalingIdsDistinct | src/costly/simulation.py:295 | the signaling groups are listed once each |
| Sharing.ShareStep | src/costly/simulation.py:285-344 | the sharing phase keeps the same groups |
| Sharing.ApplyTotal | src/costly/simulation.py:339-344 | the gifts move the population total by what was received minus what was given |
| Sharing.GiftTotals | src/costly/simulation.py:336-344 | over all groups, receivers gain half of all gift amounts and givers pay a quarter |
| Sharing.HalfToReceivers | src/costly/simulation.py:337-342 | a gift's receivers together gain half of its amount |
| Sharing.CountGiver | src/costly/simulation.py:344 | a giver pays a quarter of its amount exactly once |
| Sharing.SharingRaisesTotal | src/costly/simulation.py:291-344 | sharing raises the total population by a quarter of everything shared, and leaves it unchanged outside shortfalls or with fewer than two signaling groups |
| Sharing.OnlyClassifiedSignalingGroupsChange | src/costly/simulation.py:317-330 | a reproduction group, or a signaling group in neither class, keeps its population |
| Sharing.NotInvolved | src/costly/simulation.py:317-328 | a reproduction group neither receives nor gives |
| Sharing.NeedyOnlyGain | src/costly/simulation.py:328-344 | with non-negative rate, magnitude and populations, a needy group gives nothing and receives a non-negative amount |
| Sharing.GiftNonNegative | src/costly/simulation.py:335-342 | a gift's amount and each receiver's gain are non-negative, and only sharing groups give |
| Sharing.ShareAmountNonNegative | src/costly/simulation.py:335-336 | the amount shared is non-negative in the documented ranges |
| Sharing.GiverUntouched | src/costly/simulation.py:317-344 | a sharing group neither receives from nor pays for other groups' gifts |
| Sharing.PlanStep | src/costly/simulation.py:317-344 | a group that cannot share, or has no needy neighbour, adds nothing; otherwise its gift adds to its receivers and costs it a quarter |
| Sharing.NothingPlanned | src/costly/simulation.py:317-344 | without givers nobody receives or pays |
| Simulation.GrowState | src/costly/simulation.py:237-283 | after growth the population is within capacity, and each history has one more entry |
| Simulation.Chance | src/costly/simulation.py:403-451 | two groups fight with probability in (0, 0.5] |
| Simulation.Fought | src/costly/simulation.py:482-495 | a conflict adds exactly one to a party's won + lost tally |
| Simulation.FoughtTally | src/costly/simulation.py:490-495 | the running conflict entry keeps equal to won + lost |
| Simulation.SurvivedStep | src/costly/simulation.py:487-488 | one more win multiplies what a group keeps by the winner's share, one more loss by the loser's share |
| Simulation.FoughtSurvived | src/costly/simulation.py:482-495 | after one more conflict the population is still the phase's starting population times W^wins × L^losses |
| Simulation.FoughtTallied | src/costly/simulation.py:482-495 | one more conflict keeps a group tallied: one more involvement, and its population the starting population times W^wins × L^losses |
| Simulation.ClashKeepsTallied | src/costly/simulation.py:381-384 | a conflict between a and b, changing no other group, keeps every group tallied once the pair is recorded |
| Simulation.FoughtBounds | src/costly/simulation.py:482-488 | with mortality in range a conflict never raises a population or makes it negative; below the top of the range a positive population stays positive |
| Simulation.FoughtWithin | src/costly/simulation.py:487-488 | with mortality in range a conflict leaves a population between 0 and what it was |
| Simulation.FoughtPositive | src/costly/simulation.py:487-488 | below the top of the mortality range a positive population stays positive after a conflict |
| Simulation.GrowAll | src/costly/simulation.py:221-223 | growing every group keeps the same groups |
| Simulation.ShareAll | src/costly/simulation.py:225-226 | sharing keeps the same groups |
| Simulation.ExtendsStep | src/costly/simulation.py:497-515 | a history extended by k entries, plus one more entry, is extended by k + 1 |
| Simulation.ChainedStep | src/costly/simulation.py:512-515 | a year that starts where a chained trace left the groups, order and draws extends the chain, and its end becomes the last states, order and draws |
| Simulation.RecordedStep | src/costly/simulation.py:497-515 | appending a year's statistics to the five histories records the year appended to the trace |
| Simulation.Founded | src/costly/simulation.py:162-165 | only the monument changes; a signaling group's monument becomes cost × population |
| Simulation.Survivors | src/costly/simulation.py:232 | the kept ids are exactly those with population > 1, in order and without repeats |
| Simulation.Clashed | src/costly/simulation.py:379-384 | after a fight only the two parties change, and the same groups remain, each with a running conflict entry |
| Simulation.ClashedBy | src/costly/simulation.py:453-495 | groups changed only in the two parties, each as `Fought` with the winner that the draw picks, are the clashed groups |
| Simulation.ClashedTallied | src/costly/simulation.py:381-384 | after a fight every group is tallied against the pairs with the new sorted pair added |
| Simulation.Meet | src/costly/simulation.py:366-384 | one meeting keeps the same groups, only adds pairs, and takes at most two draws |
| Simulation.MeetPasses | src/costly/simulation.py:381 | a draw at or above the conflict probability takes that one draw and changes nothing else |
| Simulation.MeetFights | src/costly/simulation.py:381-384 | a draw below the conflict probability is a fight: the next draw decides it and the sorted pair is added, or the phase fails, with nothing changed, where the fight cannot be decided |
| Simulation.Meetings | src/costly/simulation.py:364-384 | one group meeting its listed neighbours keeps the same groups, only adds pairs, and only takes draws |
| Simulation.ConflictPhase | src/costly/simulation.py:357-386 | the phase, every group in order meeting its listed neighbours, keeps the same groups, only adds pairs, and only takes draws |
| Simulation.MeetingsFailed | src/costly/simulation.py:364-384 | once a meeting has failed, the rest of the listing changes nothing |
| Simulation.PhaseFailed | src/costly/simulation.py:363-384 | once a turn has failed, the turns after it change nothing |
| Simulation.MeetingsQuiet | src/costly/simulation.py:381 | with every draw at or above one half, above any conflict probability, one group's meetings change no group and add no pair |
| Simulation.PhaseQuiet | src/costly/simulation.py:357-386 | with every draw at or above one half the conflict phase changes no group and records no conflict |
| Simulation.YearShared | src/costly/simulation.py:221-226 | growth and sharing keep the same groups, each with its territory and its record of conflicts |
| Simulation.Group.constructor | src/costly/simulation.py:19-35 | a new group has no monument or conflicts, and histories [population], [0] and [0] |
| Simulation.Group.PopulationDensity | src/costly/simulation.py:41-43 | density × cells = population; a group without territory counts as one cell |
| Simulation.SpatialSimulation.constructor | src/costly/simulation.py:51-116 | every cell is unassigned (−1), productivity is at its base, there are no groups, the year is 0 and all histories are empty |
| Simulation.SpatialSimulation.GetNeighboringGroups | src/costly/simulation.py:388-401 | exactly the ids marked next to the territory other than its own and −1, listed once each |
| Simulation.SpatialSimulation.ScanAround | src/costly/simulation.py:394-399 | the four cells around one territory cell add exactly the in-bounds ids marked there other than the owner's and −1, listed once each in the order found |
| Simulation.SpatialSimulation.SameTerritories | src/costly/simulation.py:388-401 | groups with the same territories have the same neighbours, listed alike |
| Simulation.SpatialSimulation.GenerateGroupCenters | src/costly/simulation.py:167-191 | n centers: the spaced ones from at most 100n attempts, stopping once n are accepted, then the following candidates unconditionally; drawing from an empty grid fails |
| Simulation.SpatialSimulation.PlaceCenters | src/costly/simulation.py:167-191 | for n > 0: n centers, the spaced ones sampled from at most 100n attempts followed by the next candidates |
| Simulation.SpatialSimulation.SampleCenters | src/costly/simulation.py:172-183 | the sampling loop accepts the spaced centers and stops at n of them or at 100n attempts |
| Simulation.SpatialSimulation.FillCenters | src/costly/simulation.py:185-189 | the missing centers are the next candidates |
| Simulation.SpatialSimulation.StrategyList | src/costly/simulation.py:136-144 | the list is the quotas followed by the fill choices; filling from no entries fails |
| Simulation.SpatialSimulation.CreateGroups | src/costly/simulation.py:148-157 | group i is fresh, with id i, the i-th strategy, population pops(i) and no territory; the order is 0 .. count − 1 |
| Simulation.SpatialSimulation.AssignColumn | src/costly/simulation.py:195-202 | column x is marked by nearest center, and each territory grows by its claimed cells of the column |
| Simulation.SpatialSimulation.ClaimCell | src/costly/simulation.py:196-202 | one cell is marked with its nearest center and appended to that group's territory |
| Simulation.SpatialSimulation.AssignTerritories | src/costly/simulation.py:193-202 | every cell is marked with its nearest center and every territory is that center's claim in scan order; with no centers a non-empty grid fails |
| Simulation.SpatialSimulation.AssignedAgrees | src/costly/simulation.py:193-202 | after assignment the grid and the territories agree |
| Simulation.SpatialSimulation.ClaimsMarked | src/costly/simulation.py:193-202 | every territory cell is on the grid and marked with its owner |
| Simulation.SpatialSimulation.MarksInClaims | src/costly/simulation.py:193-202 | every cell marked with a live id is in that group's territory |
| Simulation.SpatialSimulation.InitializeGroups | src/costly/simulation.py:118-165 | n_groups valid fresh groups: group i has center i, the i-th shuffled strategy, the i-th population, its nearest-center cells and its initial monument; the grid and territories agree; it fails exactly on the Python error cases |
| Simulation.SpatialSimulation.PopulateGroups | src/costly/simulation.py:148-165 | the groups are created, get their territories and initial monuments, and end valid |
| Simulation.SpatialSimulation.SettleGroups | src/costly/simulation.py:159-165 | the created groups get their nearest-center territories and initial monuments |
| Simulation.SpatialSimulation.FoundMonuments | src/costly/simulation.py:162-165 | the groups with their territories reach their initial state |
| Simulation.SpatialSimulation.InitialValid | src/costly/simulation.py:30-35 | groups in their initial state are valid and hold more than one person |
| Simulation.SpatialSimulation.InitialMonument | src/costly/simulation.py:164-165 | one group's initial monument, as `Founded` |
| Simulation.SpatialSimulation.SetInitialMonuments | src/costly/simulation.py:162-165 | every group becomes `Founded` of its previous state |
| Simulation.SpatialSimulation.FoundOne | src/costly/simulation.py:163-165 | the i-th group in order is founded, and the others are unchanged |
| Simulation.SpatialSimulation.GroupGrowth | src/costly/simulation.py:237-283 | the group's new state is `GrowState` of its old state |
| Simulation.SpatialSimulation.GrowthPhase | src/costly/simulation.py:221-223 | every group's state becomes `GrowState` of its old state; it fails exactly when some group has zero capacity |
| Simulation.SpatialSimulation.GrowOne | src/costly/simulation.py:222-223 | the i-th group in order grows, and the others are unchanged |
| Simulation.SpatialSimulation.ClassifySignaling | src/costly/simulation.py:301-314 | every listed signaling group is classified by its fill of capacity |
| Simulation.SpatialSimulation.NeedyNeighbours | src/costly/simulation.py:321-328 | exactly the neighbours that are live, signaling and needy, once each, with their groups |
| Simulation.SpatialSimulation.TransferShares | src/costly/simulation.py:340-344 | each needy neighbour gains half the per-neighbour share, and the giver pays a quarter for each; only populations change |
| Simulation.SpatialSimulation.ShareFrom | src/costly/simulation.py:332-344 | receivers gain the gift's per-receiver half, the giver pays a quarter of the amount, and everyone else is unchanged |
| Simulation.SpatialSimulation.SharingTurn | src/costly/simulation.py:317-344 | one group's turn extends the populations to those of the sharing plan with it as the last giver |
| Simulation.SpatialSimulation.Give | src/costly/simulation.py:321-344 | a sharing group's gift follows the sharing plan |
| Simulation.SpatialSimulation.SharingSetup | src/costly/simulation.py:295-314 | the classification matches the phase's starting state, before any gift |
| Simulation.SpatialSimulation.SharingDone | src/costly/simulation.py:317-344 | after all turns each population is the one the sharing function computes |
| Simulation.SpatialSimulation.SharingRounds | src/costly/simulation.py:317-344 | the turns leave every population as the sharing function computes it |
| Simulation.SpatialSimulation.Turns | src/costly/simulation.py:317-344 | the turns in order follow the sharing plan of the givers so far |
| Simulation.SpatialSimulation.ResourceSharing | src/costly/simulation.py:285-355 | only populations change, and each ends as `Sharing.ShareStep` computes it from the state before the phase |
| Simulation.SpatialSimulation.ShortfallSharing | src/costly/simulation.py:287-355 | in a shortfall year only populations change, each ending as `Sharing.ShareStep` computes it |
| Simulation.SpatialSimulation.SignalingSharing | src/costly/simulation.py:290-355 | with at least two signaling groups the populations end as `Sharing.ShareStep` computes them and nothing else changes |
| Simulation.SpatialSimulation.Draw | src/costly/simulation.py:381 | the next number of the random stream |
| Simulation.SpatialSimulation.Suffer | src/costly/simulation.py:487-495 | a party's new state is `Fought` of its old state |
| Simulation.SpatialSimulation.ResolveConflict | src/costly/simulation.py:453-495 | one draw decides the winner by `FirstWins`; both parties become `Fought`; it fails, with nothing changed, exactly when the conflict is not decidable |
| Simulation.SpatialSimulation.Clash | src/costly/simulation.py:379-384 | the sorted pair is recorded and the phase invariant kept, with one more draw; it fails, with nothing changed, exactly when the fight cannot be decided; the groups end as `Simulation.Clashed` of the groups before |
| Simulation.SpatialSimulation.FightsGrow | src/costly/simulation.py:379-384 | a fight between two live adjacent groups that had not fought this year, once every group is tallied against it, extends the phase invariant by one pair and one conflict |
| Simulation.SpatialSimulation.Fight | src/costly/simulation.py:381-384 | the fight branch: the groups end as the meeting function has it, with the sorted pair recorded, and it cannot fail under safe conditions |
| Simulation.SpatialSimulation.Peaceable | src/costly/simulation.py:470-474 | under safe conditions two tallied groups can always fight |
| Simulation.SpatialSimulation.Contest | src/costly/simulation.py:376-384 | one draw; the pair fights exactly when the draw falls below the conflict probability; the groups, pairs and draws end as `Simulation.Meet` has them |
| Simulation.SpatialSimulation.Encounter | src/costly/simulation.py:366-384 | a dead neighbour, or a pair that already fought this year, is passed over without a draw; otherwise the pair fights exactly when the draw falls below the conflict probability; the groups, pairs and draws end as `Simulation.Meet` has them |
| Simulation.SpatialSimulation.FightNeighbours | src/costly/simulation.py:364-384 | one group's meetings with its listed neighbours keep the phase invariant, cannot fail under safe conditions, and leave the groups, pairs and draws as `Simulation.Meetings` has them |
| Simulation.SpatialSimulation.NoFightsYet | src/costly/simulation.py:359-360 | before any conflict the invariant holds with no pairs |
| Simulation.SpatialSimulation.FightsValid | src/costly/simulation.py:490-495 | tallied groups have consistent conflict histories |
| Simulation.SpatialSimulation.StatesEntered | src/costly/simulation.py:30-35 | valid groups all have a running conflict entry |
| Simulation.SpatialSimulation.FightsEntered | src/costly/simulation.py:490-495 | groups tallied in the conflict phase all have a running conflict entry |
| Simulation.SpatialSimulation.ConflictTurn | src/costly/simulation.py:363-384 | the turn of live group id keeps the invariant and the groups valid, cannot fail under safe conditions, and leaves the groups, pairs and draws as `Simulation.Meetings` of id and the listing of its neighbours at the start of the phase |
| Simulation.SpatialSimulation.NextTurn | src/costly/simulation.py:363-384 | the i-th turn takes the groups, pairs and draws from `Simulation.ConflictPhase` over the first i groups in order to the phase over the first i + 1 |
| Simulation.SpatialSimulation.BorderRounds | src/costly/simulation.py:363-384 | the turns of every live group in order take the phase invariant from no pairs to the pairs that fought, cannot fail below certain death, and leave the groups, pairs, draws and success as `Simulation.ConflictPhase` over the order and the neighbour listings has them |
| Simulation.SpatialSimulation.FightsDone | src/costly/simulation.py:357-386 | the loop invariant at the end gives what the phase promises, including each group's population as starting population × W^wins × L^losses |
| Simulation.SpatialSimulation.ResolveBorderConflicts | src/costly/simulation.py:357-386 | the count is the number of pairs that fought; each pair is two live adjacent groups and fights at most once; each group's won and lost tallies grow by exactly its conflicts, and its population is exactly its population at the start of the phase × W^(wins) × L^(losses), W and L being the winner's and loser's shares; nothing but population, tallies and conflict entry changes; it cannot fail below certain death; which pairs fight, the groups after, the draws taken and success are exactly `Simulation.ConflictPhase` from the groups before, every live group in order meeting its neighbours in the order the scan of its territory lists them |
| Simulation.SpatialSimulation.SurvivingOrder | src/costly/simulation.py:232 | the ids with population > 1, in order |
| Simulation.SpatialSimulation.Keep | src/costly/simulation.py:232 | only the listed groups remain, in the listed order |
| Simulation.SpatialSimulation.RemoveExtinct | src/costly/simulation.py:231-232 | exactly the groups with more than one person remain, unchanged and in order |
| Simulation.SpatialSimulation.AppendHistory | src/costly/simulation.py:497-510 | each simulation history gets exactly one entry |
| Simulation.SpatialSimulation.UpdateHistory | src/costly/simulation.py:497-510 | the year's entry is the total population, each strategy's population, the conflicts, and the mean signaling monument (0 without signaling groups) |
| Simulation.SpatialSimulation.GroupsKept | src/costly/simulation.py:497-510 | recording history leaves the simulation valid and its groups' records as they were |
| Simulation.SpatialSimulation.GrowStage | src/costly/simulation.py:221-223 | the phase succeeds exactly when every group has a non-zero carrying capacity (`Growable`); then the groups' states are `GrowAll` of their states before, and the adjacency is unchanged |
| Simulation.SpatialSimulation.GrownAll | src/costly/simulation.py:221-223 | groups that each grew one year hold `GrowAll` of their previous states, territories unchanged |
| Simulation.SpatialSimulation.ShareStage | src/costly/simulation.py:225-226 | the groups' states become `ShareAll` of their states before, adjacency unchanged |
| Simulation.SpatialSimulation.SharedStates | src/costly/simulation.py:225-226 | populations as `Sharing.ShareStep` computes them, and nothing else changed, make `ShareAll` of the states before |
| Simulation.SpatialSimulation.SharedStage | src/costly/simulation.py:221-226 | growth and sharing succeed exactly when every group can grow, and then leave the groups as `Simulation.YearShared` of their states before, with the adjacency unchanged |
| Simulation.SpatialSimulation.ConflictStage | src/costly/simulation.py:228-229 | the conflict phase after growth and sharing completes the year's outcome, counting the bordering pairs that fought, cannot fail under safe conditions, and is `Simulation.ConflictPhase` from the shared groups |
| Simulation.SpatialSimulation.FoughtStates | src/costly/simulation.py:221-229 | a finished conflict phase after growth and sharing completes the year's outcome `YearOutcome` |
| Simulation.SpatialSimulation.YearPhases | src/costly/simulation.py:221-229 | the year's outcome: every group grows (`GrowAll`), sharing then sets the populations (`ShareAll`), and each group ends tallied against the year's conflict pairs, its population what the shared one keeps after its wins and losses; the count is the number of pairs and every pair borders. It fails when a capacity is zero, and it succeeds whenever the year is safe (`YearSafe`: non-zero populations and capacities, and after growth and sharing positive populations, non-negative monuments and a death rate below one). When the groups can grow, the shared groups are `YearShared` of the states before, and which pairs fight, the groups after, the draws and success are `Simulation.ConflictPhase` from them |
| Simulation.SpatialSimulation.Year | src/costly/simulation.py:206-229 | the schedule's year, shortfall flag and productivity, then the year's outcome from the states and adjacency at the start of the year; it fails when a capacity is zero and succeeds whenever the year is safe under the schedule; when the groups can grow, the pairs that fight, the groups after and the draws are `Simulation.ConflictPhase` from the shared groups |
| Simulation.SpatialSimulation.Advance | src/costly/simulation.py:206-219 | the year advances; the shortfall flag and productivity follow the schedule |
| Simulation.SpatialSimulation.CloseYear | src/costly/simulation.py:231-235 | exactly the groups holding more than one person remain, unchanged and in order, and each history gets the year's total, strategy populations, conflict count and mean signaling monument |
| Simulation.SpatialSimulation.Step | src/costly/simulation.py:204-235 | one year: year + 1 with the schedule's shortfall and productivity; the groups' states are the year's outcome (growth, then sharing, then each group's conflict tally and survival) from the states at the start of the year; exactly the groups holding more than one person after it remain, in order; one history entry each of total population, strategy populations, the number of pairs that fought and the mean signaling monument; the simulation stays valid. It fails when a capacity is zero; otherwise it succeeds exactly when `Simulation.ConflictPhase` from the shared groups does, and then the pairs that fought, the groups after the conflicts and the draws are the ones the phase computes |
| Simulation.SpatialSimulation.Run | src/costly/simulation.py:512-515 | a trace of the years done: year j + 1 of the run starts from where year j left the groups and the draws (`Chained`), follows the schedule for its year and is the year's outcome with the survivors kept (`YearDone`), its pairs, groups and draws being `Simulation.ConflictPhase` from its shared groups; history entry j is that year's total, strategy populations, conflict count and mean signaling monument (`Recorded`), earlier entries kept. It succeeds exactly when all `years` years are done, ending at year + years with the last year's groups, order and draws; otherwise it stops at the first year that is not safe |
| Simulation.SpatialSimulation.RunYear | src/costly/simulation.py:512-515 | one more year of the run: on success the trace grows by the year done (including its conflict phase) and each history by its record, and the groups, order and draws are where that year left them; on failure the year reached is not safe |
| Simulation.SpatialSimulation.YearTraced | src/costly/simulation.py:204-235 | a year whose schedule, outcome, shared groups, conflict phase, bordering pairs and survivors are those of `YearDone`, starting where the trace left the groups, order and draws, extends the trace and becomes its last states, order and draws |
| Simulation.SpatialSimulation.YearHistories | src/costly/simulation.py:497-510 | the statistics of a completed year appended to the five histories extend them by one entry and record the year appended to the trace |
| Simulation.SpatialSimulation.TracedStep | src/costly/simulation.py:512-515 | a year done from where a traced run left the groups, order and draws, numbered next, extends the trace |
| Simulation.SpatialSimulation.YearDoneBy | src/costly/simulation.py:204-235 | the year's schedule, outcome, shared groups, conflict phase, bordering pairs and survivors make the year done |
| Simulation.SpatialSimulation.UnsafeYear | src/costly/simulation.py:204-229 | a year not safe under its schedule's shortfall and productivity is not a safe year |
| Simulation.SpatialSimulation.AdjacencyOfStates | src/costly/simulation.py:388-401 | the adjacency of the simulation is the adjacency of its states |
| Simulation.SpatialSimulation.SummaryStatistics | src/costly/simulation.py:517-532 | the final year and group count; total 0 before any step; the strategies' group counts add up to the groups and their populations to the total of the live groups; mean territories non-negative |
| Simulation.SpatialSimulation.SummaryCountsSplit | src/costly/simulation.py:517-528 | the strategies' group counts add up to the groups remaining |
| Simulation.SpatialSimulation.SummaryPopulationSplits | src/costly/simulation.py:517-529 | right after a step the reported total is the sum of the strategies' populations |
| Exploration.Dominance | src/costly/parameter_exploration.py:135-138 | for a positive total the sign follows sig − rep, +1 with no reproduction and −1 with no signaling; 0 for a total <= 0; always in [−1, 1] for non-negative inputs |
| Exploration.RunSingleSimulation | src/costly/parameter_exploration.py:15-32 | a fresh simulation with the settings: it starts exactly when the initialization can succeed, with group i at center i, the i-th strategy drawn from the settings' proportions and the i-th population (`InitializedFrom`); from there the years are traced as in `Run`, each with its conflict phase, each history entry recording its year; on success the summary is the statistics at year `years`, its total the last year's total, the order and draws are where the last year left them, and the two strategies' groups add up to at most n_groups; a failure comes only at a year that is not safe |
| Exploration.StartSimulation | src/costly/parameter_exploration.py:22-26 | the simulation starts exactly when the initialization can succeed, at year 0 with empty histories and the groups built from the proportions in order |
| Exploration.RunStarted | src/costly/parameter_exploration.py:27-29 | the run from the initial groups is traced year by year, each with its conflict phase; on success the groups, order and draws are where the last year left them and the summary is the final statistics with the last year's total |
| Exploration.SummaryOfRun | src/costly/parameter_exploration.py:29 | after `years` years the summary reports year `years`, the last history total, and group counts that split by strategy and stay within n_groups |
| Exploration.ExplorationBase | src/costly/parameter_exploration.py:59-68 | a 40 × 40 grid with 16 groups, well defined |
| Exploration.ExplorationPlan | src/costly/parameter_exploration.py:77-91 | one cell per (frequency, magnitude) pair |
| Exploration.PlanRow | src/costly/parameter_exploration.py:78-91 | one frequency's cells, one per magnitude in order |
| Exploration.PlanCell | src/costly/parameter_exploration.py:77-91 | cell (fi, mi) sits at fi·|mags| + mi and holds that pair's runs |
| Exploration.ExplorationSeedsByReplicate | src/costly/parameter_exploration.py:82-91 | replicate rep gets seed seed_offset + rep in every cell |
| Exploration.CellOfIndex | src/costly/parameter_exploration.py:77-91 | every cell of the plan holds the runs of some (frequency, magnitude) pair |
| Exploration.ComparisonPlan | src/costly/parameter_exploration.py:279-291 | one cell per proportion, with proportions p and 1 − p and seed rep for replicate rep |
| Exploration.ComparedSplitIsComplete | src/costly/parameter_exploration.py:286-289 | a proportion p in [0, 1] gives exactly n_groups strategies |
| Exploration.Find | src/costly/parameter_exploration.py:134 | the entry stored under (freq, mag), or None exactly when there is none |
| Exploration.CellDominance | src/costly/parameter_exploration.py:134-138 | 0 without an entry, the entry's dominance otherwise |
| Exploration.DominanceGrid | src/costly/parameter_exploration.py:129-138 | row i is magnitude i, column j is frequency j, and each cell holds that setting's dominance |
| Exploration.Closeness | src/costly/parameter_exploration.py:225-230 | the closeness is the absolute dominance, and non-negative |
| Exploration.Transitions | src/costly/parameter_exploration.py:224-232 | at most one transition per entry |
| Exploration.TransitionsMembers | src/costly/parameter_exploration.py:224-232 | the transitions are exactly the entries with a positive total and closeness below the threshold |
| Exploration.Insert | src/costly/parameter_exploration.py:235 | insertion keeps the list sorted and adds exactly one element |
| Exploration.SortByDominance | src/costly/parameter_exploration.py:235 | sorted ascending and a permutation |
| Exploration.IdentifyCriticalTransitions | src/costly/parameter_exploration.py:211-237 | exactly the transition entries with their closeness, sorted ascending, each in [0, threshold) |
| SensitivityValidation.IndexOf | scripts/run_parameter_sensitivity_validation.py:102 | `list.index`: the first position holding x, or None exactly when x is absent |
| SensitivityValidation.ComputeSeed | scripts/run_parameter_sensitivity_validation.py:100-103 | None exactly for r outside the compared values |
| SensitivityValidation.SeedEncodesRValue | scripts/run_parameter_sensitivity_validation.py:100-103 | the seed offset splits into r_index × 10000 and rep × 1000 + point × 100 |
| SensitivityValidation.SeedsSeparateRValues | scripts/run_parameter_sensitivity_validation.py:100-103 | runs for different r values never share a seed |
| SensitivityValidation.SeedsDistinctBelowTenPoints | scripts/run_parameter_sensitivity_validation.py:100-103 | on the first ten points each (point, replicate) has its own seed |
| SensitivityValidation.SeedCollision | scripts/run_parameter_sensitivity_validation.py:91-103 | with twelve points the formula is not one-to-one: (point 10, rep 0) and (point 0, rep 1) share a seed |
| SensitivityValidation.TransectFreq | scripts/run_parameter_sensitivity_validation.py:92 | the frequency runs from 18 at the first point to 6 at the last, and stays in [6, 18] |
| SensitivityValidation.TransectMag | scripts/run_parameter_sensitivity_validation.py:93 | the magnitude runs from 0.3 at the first point to 0.7 at the last, and stays in [0.3, 0.7] |
| SensitivityValidation.TransectParams | scripts/run_parameter_sensitivity_validation.py:132-140 | a 40 × 40 grid, 16 groups, cost 0.35, the truncated frequency, the magnitude and r; well defined in range |
| SensitivityValidation.TransectPointsWellDefined | scripts/run_parameter_sensitivity_validation.py:91-93 | every transect point is well defined, has a frequency between 6 and 18, and has shortfalls that end before the next one starts |
| SensitivityValidation.RunTransectSimulation | scripts/run_parameter_sensitivity_validation.py:106-161 | the run starts exactly when the initialization can succeed, from the initial groups `InitializedFrom` describes, and its years are traced as in `Run`; a started run fails only at a year that is not safe, after the years traced before it; on success the final strategy populations, their sum (the last traced year's total), and their dominance in [−1, 1] |
| SensitivityValidation.FirstSignChange | scripts/run_parameter_sensitivity_validation.py:286-287 | the first strict sign change, or None exactly when there is none |
| SensitivityValidation.ZeroFraction | scripts/run_parameter_sensitivity_validation.py:289 | on a strict sign change the interpolation fraction lies strictly inside (0, 1) |
| SensitivityValidation.ZeroFractionInside | scripts/run_parameter_sensitivity_validation.py:289 | the zero of the line lies strictly between the two points |
| SensitivityValidation.LerpBetween | scripts/run_parameter_sensitivity_validation.py:290-291 | an interpolated value lies between its endpoints |
| SensitivityValidation.CrossoverInside | scripts/run_parameter_sensitivity_validation.py:288-292 | the crossover index lies in (i, i + 1), and its frequency and magnitude between the points' |
| SensitivityValidation.FindCrossover | scripts/run_parameter_sensitivity_validation.py:284-293 | None exactly without a strict sign change; otherwise the interpolation at the first one |
| EnvironmentFigures.ProductivityWithDuration | scripts/figure_generation/create_environmental_figures_moderate.py:30-43 | every entry is base × (1 − mag) inside a window starting at a multiple of freq and lasting the duration, and base elsewhere |
| EnvironmentFigures.WindowIffRemainder | scripts/figure_generation/create_environmental_figures_moderate.py:35-41 | for non-overlapping windows an index is reduced iff its remainder is below the duration |
| EnvironmentFigures.FirstIndexReduced | scripts/figure_generation/create_environmental_figures_moderate.py:35-40 | example: the series always begins reduced |
| EnvironmentFigures.HistoryIndexMatchesSeries | scripts/figure_generation/create_environmental_figures_moderate.py:35-41 | the simulation's year j + 1 is a shortfall year iff index j of the series is reduced |
| EnvironmentFigures.RawYearZeroDisagrees | scripts/figure_generation/create_environmental_figures_moderate.py:35-40 | read at the raw year the two disagree at 0 |
| EnvironmentFigures.FigureDurations | scripts/figure_generation/create_environmental_figures_moderate.py:60-61 | example: magnitude 0.80 gives three years and 0.20 one year |

## Notes on the source

- `Conflict.MagnitudeCanLowerProbability`: in the code the conflict probability of a
  shortfall year is not monotone in the shortfall magnitude. When a pair holds monuments,
  the deterrence divisor `3 + (1 - magnitude) * 20` shrinks faster than the base
  probability `0.05 + magnitude * 0.30` grows, so a deeper shortfall can lower the
  probability. The model follows the code. It proves monotonicity only without monuments
  (`Conflict.NoMonumentsMonotoneInMagnitude`), and it proves the promised monotonicity in
  the monument average (`Conflict.MonumentsDeter`).
- `SensitivityValidation.SeedCollision`: the documented seed formula repeats seeds on the
  twelve-point transect. The colliding runs have different transect parameters, so
  reproducibility is unaffected.
- `EnvironmentFigures.HistoryIndexMatchesSeries`: the figures' series starts its windows
  at index 0. The simulation's schedule never has a shortfall at a multiple of the
  frequency. The two agree once the series index is read as the year minus one.
- In the environmental figures script, the 60% scenarios of lines 60-72 carry `subtitle`
  strings built with the duration of magnitude 0.80 (three years). No subtitle is ever
  drawn: the panel titles use only the scenario name (line 104). The durations shown in
  the figures come from the series itself, which uses magnitude 0.60 and so two-year
  windows (`Shortfall.FrequencySixMagnitudePointSix`, `Shortfall.DurationByMagnitude`).
  The mismatch that remains is in the comments at lines 138 and 159, which say
  "60% magnitude … 3yr duration".
- `history['conflicts']` is never appended to. It stays a single running entry, equal to a
  group's won + lost count (`Group.Valid`).
- `shortfall_conflict_multiplier` is stored by the constructor but read by no operation.

## Left out

- Random number generation: the seed and numpy's generator are not modelled. The draws
  are inputs: the `random` stream, and the `cells`, `pick`, `shuffle` and `pops`
  arguments. So the model does not show that equal seeds reproduce a run, only that a run
  is determined by its draws.
- Set iteration order: a group's neighbour set is iterated in the order its territory
  scan first finds each neighbour (`Simulation.SpatialSimulation.ScanAround`), and the
  groups in the order of the group dictionary. The order CPython uses to iterate a `set`
  of small integers (by hash, which is the integer itself) is not modelled, so
  `Simulation.ConflictPhase` fixes which draws each pair uses only up to that order.
- Floating point: floats are exact reals. There is no rounding and no `inf`/`nan`.
  Distances are compared squared, so there is no `sqrt`.
- Python exceptions are modelled as `ok = false` results, not as exceptions: in growth,
  conflicts, center generation, the strategy fill and territory assignment.
- Simulation.SpatialSimulation.Step: requires `Config.WellDefined`. Its four conditions differ
  in kind.
  - A non-zero frequency: with frequency 0 the source's `year % frequency` raises, so this
    only excludes a failure.
  - A positive capacity per cell: with capacity 0 the growth's division by the carrying
    capacity raises. A negative capacity would not raise; excluding it narrows the model.
  - A magnitude in [0, 1]: above 1 the shortfall productivity `base * (1 - m)` is
    negative (src/costly/simulation.py:214-216). Growth then shrinks populations and drives
    monuments below zero, so a population can reach 0 or below within the year. After that
    the division by `population * 0.5` at line 274, by `population + 1` at lines 465-466
    or by `strength1 + strength2` at line 474 can be a division by zero, which raises. At
    magnitude 1.15 the deterrence divisor `3 + (1 - m) * 20` at line 430 is itself zero.
    Excluding these magnitudes removes failures of the source as well as runs that would
    finish.
  - r >= 0: with a negative r the monument bonus at lines 462-467 is negative, so a
    group's strength at lines 470-471 can be zero or negative. Then `strength1 +
    strength2` at line 474 can be zero and the source raises. One shortfall year with
    r = -0.375 shows it: a group of 10 people with monument 100 has strength about -35.45,
    and a neighbour without monument and about 35.45 people cancels it. A negative r can
    also make `1 + (average / divisor) * r / 0.75` at lines 431 and 434 zero. Excluding
    negative r removes failures of the source as well as runs that would finish. Within
    the model, `Simulation.SpatialSimulation.ResolveConflict` fails exactly when a
    conflict cannot be decided (`Simulation.Decidable`), the strengths cancelling included.
- Simulation.SpatialSimulation.Run, Year, YearPhases and ResolveBorderConflicts: require
  `Config.WellDefined`, with the same narrowing as Step.
- Simulation.SpatialSimulation.Step: on a failed step (`ok = false`) the state is left
  where the failure happened. Nothing is promised about it beyond the year, shortfall flag
  and productivity, because the source raises there.
- Simulation.SpatialSimulation.Run, RunYear, Exploration.RunStarted,
  Exploration.RunSingleSimulation and SensitivityValidation.RunTransectSimulation: a year that fails is not added to the trace. For it the
  contract promises only that it is not safe (`Simulation.SpatialSimulation.SafeYear`), not
  that `Simulation.ConflictPhase` of that year fails. Step states the failure exactly.
- Simulation.SpatialSimulation.Run, Exploration.RunSingleSimulation, Exploration.RunStarted
  and SensitivityValidation.RunTransectSimulation: take the number of years as a `nat`.
  The source's `range(years)` runs no year for a negative count, which is the same as
  `years = 0`, so no behaviour is lost.
- Simulation.SpatialSimulation.constructor: requires a non-negative width and height.
  With a negative grid size the source's `np.zeros(grid_size)` at
  src/costly/simulation.py:106 raises; the model does not model that failure.
- Exploration.RunSingleSimulation and Exploration.StartSimulation: require
  `Config.WellDefined`, as Step does. This also excludes a zero frequency with `years = 0`,
  where the source never evaluates `year % frequency` and returns the initial statistics.
- Exploration.RunSingleSimulation: the `'sim'` entry that puts the simulation object into
  the statistics is not modelled. The simulation is returned beside the summary instead.
- explore_resource_uncertainty and compare_strategy_proportions: their per-cell means and
  standard deviations are not computed. `Exploration.Entry` takes the mean populations as
  given, and the plans give the exact runs each mean is taken over. The progress bar and
  printing are left out.
- Exploration.DominanceGrid: the sorted frequency and magnitude axes are arguments.
  plot_parameter_space derives them from the result keys. All plotting (contours, colour
  bars, the cross-section) is left out.
- Exploration.IdentifyCriticalTransitions: the result is sorted and a permutation of the
  transitions. The tie order of Python's stable sort is not stated.
- SensitivityValidation.FindCrossover: requires the frequency and magnitude arrays to be
  at least as long as the dominance array. In the script they always have the transect's
  twelve points.
- SensitivityValidation.RunTransectSimulation: stands for one call of run_simulation. The
  script's main loop is not modelled: filling the mean and standard-deviation arrays,
  printing, pickling and the closing summary.
- EnvironmentFigures.ProductivityWithDuration: requires freq >= 1 for a non-empty series.
  With a smaller frequency the source loop never ends.
- The rest of the figure scripts (plots, statistics boxes) is not part of this model.
- Statistics.MeanTerritory and Statistics.MeanSignalingMonument: modelled as sums divided
  by counts, with 0 for no groups, matching `np.mean`'s use in the source.
