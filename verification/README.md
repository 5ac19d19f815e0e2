# Verified model of the mutual-edge scheduler and relay

This project models three parts of the repository and proves what they promise.

**The steady-state genetic scheduler** (`GA.c` on `ecm_list.h`, `task.c`, `cpu.c`, `report.c`). A pool of
genes is threaded at once through three intrusive circular lists, kept sorted by utilisation, power and
score. Each generation evicts the gene with the worst score, overwrites it with a child of two others,
rejects infeasible or worse children and lists the child again. The model keeps that shape: list nodes are
heap objects whose pointers are rewritten in place, a gene is an object with four attribute arrays, each with
an incrementally kept histogram, and cached figures.

| file | contents |
|---|---|
| `Outcomes.dfy`, `Tables.dfy` | going on or fatal; the configuration tables, assignments, and the frequency table that parsing fills |
| `Evaluation.dfy`, `Objective.dfy` | the formulas of one task, their accumulation, monotonicity, cost conservation |
| `Stretching.dfy`, `MemoryUse.dfy`, `LocalFigures.dfy` | what execution times, the memory check and the figures come to, in closed form |
| `TaskAttrs.dfy` | attribute arrays, histograms and `max_type` |
| `Repair.dfy` | the repair loop as a relation between tries, and exactly when it succeeds |
| `EcmList.dfy`, `GeneIndex.dfy` | circular lists; one sorted list of genes |
| `Gene.dfy`, `Population.dfy` | one gene, the pool with its three lists |
| `Generation.dfy`, `Histories.dfy` | one generation as a relation between snapshots, and what is true of every whole run |
| `Scheduler.dfy` | the run itself |
| `Elitism.dfy`, `Rank.dfy`, `Random.dfy` | score vectors, rank selection, draws |
| `Report.dfy`, `Misreport.dfy` | the periodic report, and a population it misreports |

The invariant of the pool is `Population.Valid(members)`: each list is a well-formed circle through exactly the
given genes, sorted by its own key, and every listed gene is `Sound`: its histograms are exact, it fits every
memory, no task overruns, utilisation is at most the cutoff, and everything it caches is what a fresh
evaluation of its arrays gives.

**The workload generator** (`gen_task.c`), in `Generator.dfy` and `Workload.dfy`: two separately written loops
that compute a piecewise-linear function and its inverse, and the random tasks with their running sums.

**Framed transport and the relay** (`secure_sgx/`). `Framing.dfy` and `Transmit.dfy` are the length-prefixed
messages and the loops that send and receive them under arbitrary short writes and reads; `Gateway.dfy` is the
gateway's relay loop over its one buffer. `Relay.dfy` is device, gateway and enclave as one step relation over
four byte channels of any capacity (`Link.dfy` is one direction of a connection), `RelayInvariant.dfy` the
invariant of every run, and `RelayTheorems.dfy` what it guarantees: transparency, safety, sufficient buffers,
progress, and refinement of a direct exchange.

Where the program and its own description differ, the model follows the program:

- `secure_sgx/gateway.c` neither validates the attestation document nor encrypts anything; it only relays. The
  device validates the document (`secure_sgx/iiot_device.c:109`).
- The loop in `report.c:64-70` looks for the cheapest valid gene but reads the first gene of the list on every iteration.
  `Report.ReportedIsCheapest` is the exact condition under which the column is right, which a cutoff of at most 3.0
  guarantees, and `Misreport.ReportCanBeWrong` a run in which it is wrong. The last report of a run that finishes is
  always right (`Histories.FinishedReportIsRight`), because otherwise the run ends fatally at `report.c:97-99`.
- Crossover never inherits cloud attributes (`GA.c:433-438`), so a newborn keeps the ones it was filled with.
- `max_type` is a most frequent type only right after setup or with two types; `TaskAttrs.ArgmaxAfterMove`
  is the exact condition and `TaskAttrs.ThreeTypesCanGoStale` an example.
- The arrays V, F and S (`GA.c:22-24`) run in the opposite direction to the frequency table, so in local mode the
  fastest frequency is also the cheapest (`Objective.FastestIsBest`).

`dafny verify dfyconfig.toml` checks the whole project.

## Model

| member | source | states |
|---|---|---|
| `Scheduler.RunGA` | `GA.c:520-545` | The run is recorded as repair runs, population snapshots and tries, and ends in exactly one of four ways: a gene could not be repaired; a generation none of whose tries was accepted; all generations done with a best gene of utilisation above 2.0; or all done and the assignment of the best gene written out, column by column. The first snapshot holds exactly the assignments the repair runs ended with, the last is the final population, and generous tables rule out the first way |
| `Scheduler.Evolve` | `GA.c:532-537` | Every snapshot follows from the one before by a generation, the first is the population at entry and the last the one at exit; a fatal end shows the tries of the generation that failed |
| `Histories.RunElitism` | `GA.c:533-537` | For every run, from any generation to any later one the score at every rank and the sum of scores can only fall, and every generation is the allocated number of sound genes |
| `Histories.PlanIsBest` | `report.c:96-102` | The assignment read back from the rows that a finished run writes out is local, fits the memories and meets every period, has utilisation at most the cutoff and 2.0, and scores no more than any gene of any generation of the run |
| `Histories.LowCutoffFinishes` | `report.c:96-99` | A cutoff of at most 2.0 rules out the fatal end for an over-utilised best gene |
| `Histories.FinishedReportIsRight` | `report.c:64-76` | The last report of a finished run shows the score of the cheapest valid gene, whatever the cutoff |
| `Histories.NoRunOverruns` | `task.c:31-32` | No run can end because a task fills its period if and only if no local assignment that fits the memories makes one do so |
| `Histories.GenerousEndings` | `GA.c:515-517` | With generous tables no run ends in initialisation or by an overrun, and a generation can only fail because all MAX_TRY children were rejected |
| `Generation.ElitismOverRuns` | `GA.c:533-537` | The same for every sequence of snapshots that are linked by generations |
| `Generation.GenerationImproves` | `GA.c:481-518` | A generation leads from a population of sound, fully ranked genes to another one, with no rank and no sum of scores larger than before |
| `Generation.ChildBound` | `GA.c:444-446` | A child that is no worse than its parents is no worse than the evicted gene, and its record is sound |
| `Elitism.ReplaceWorst` | `GA.c:481-518` | Evicting the last of a sorted vector and inserting a value no larger than it lowers every rank, keeps the vector sorted, and changes the sum by exactly the exchanged values |
| `Elitism.NoWorseSum` | `GA.c:533-537` | A vector that is no worse at every rank has no larger sum |
| `Elitism.SortedVectorUnique` | `GA.c:152-167` | Two ascending vectors with the same multiset of scores are equal |
| `Report.KeysAreSortedColumn` | `GA.c:118-175` | A vector is the one read along a full list if and only if it is ascending and a permutation of that key's column in the gene array |
| `Population.Population.Crossover` | `GA.c:493-518` | One generation, as a relation between snapshots: the worst gene's record becomes the accepted child's with a fresh evaluation, the gene moves to the insertion point of its score, no other record changes, and all three lists are restored. It is fatal if and only if the last child tried is not accepted: it fits memory but overruns, or all MAX_TRY children were rejected |
| `Population.Population.GetNewborn` | `GA.c:481-491` | The gene at the tail of the score list leaves all three lists; the lists hold exactly the others, in the same score order, and its three nodes are linked to themselves |
| `Population.Population.EvictGene` | `GA.c:486-488` | A listed gene leaves all three lists; each stays a sorted circular list of exactly the rest |
| `Population.Population.BreedUntilAccepted` | `GA.c:500-517` | The tries are listed: each a child of two different listed parents, all but the last infeasible or worse than a parent; it succeeds if and only if the last is accepted, and otherwise that child overran or the tries are used up. The lists and every listed gene stay intact |
| `Population.Population.TryCrossover` | `GA.c:501-513` | One try with two different listed parents and crossover points strictly inside the tasks writes only the newborn and keeps its cloud attributes; it is accepted if and only if the child is feasible and no worse than both parents, and fatal if and only if the child fits memory and overruns |
| `Population.Population.BreedFrom` | `GA.c:433-448` | The newborn becomes a one-point mix of both parents per attribute with its own old cloud attributes, and acceptance and overrun are decided exactly by that child and the stored scores of the parents |
| `Population.Population.BreedAndSort` | `GA.c:446` | The tries end as above; an accepted child is listed at the insertion point of its score and all three lists again hold every gene, and after a fatal end the lists are unchanged |
| `Population.Population.SortGene` | `GA.c:169-175` | A sound unlisted gene is inserted into all three lists at the point its own key demands; the three-list invariant holds for one gene more |
| `Population.Population.ThreeLists` | `GA.c:118-175` | The three lists are circles through the three embedded nodes of exactly the listed genes, in ascending order of util, of power and of score |
| `Population.Population.InsertInto` | `GA.c:118-167` | Insertion into one list leaves the order and keys of the other two lists and every gene unchanged, though all nodes are embedded in the same genes |
| `Population.Population.EvictFrom` | `GA.c:486-488` | Removal from one list leaves the other two lists and every gene unchanged |
| `Population.Population.UnlistedIsAlone` | `GA.c:486-488` | Between eviction and re-insertion a gene's three nodes are self-linked |
| `Population.Population.InitPopulations` | `GA.c:409-423` | On success all genes are listed, sound and sorted in all three lists, and each holds the last assignment of a repair run that ended well; on failure all repair runs but the last ended well. With generous tables it always succeeds |
| `Population.Population.InitGene` | `GA.c:375-407` | Filling one more gene ends exactly as its repair run ends; on success the gene holds the run's last assignment and is in all three lists, and no other gene is written |
| `Population.Population.ShotIsPopulation` | `GA.c:409-423` | With all genes listed the snapshot is a population of sound genes and its scores are the keys along the list |
| `Population.Population.SelectParents` | `GA.c:504-507` | The two parents are different listed sound genes, never the newborn, and share no storage with it |
| `Population.Population.SelectGene` | `GA.c:465-479` | With k genes behind the drawn position, 2k(k+1) <= alpha * n_pops < 2(k+1)(k+2); the gene selected stands at that position of the score list, or is its last gene when the list is shorter |
| `Population.Population.SelectOther` | `GA.c:505-507` | After any finite number of unlucky draws the second parent differs from the first and is one that some draw selects |
| `Population.Population.EndsSelectable` | `GA.c:459-462` | Both ends of the list can be drawn even while the list is one shorter than the pool, so a different second parent always exists |
| `Population.NewPopulation` | `GA.c:416` | Allocation gives separate genes with pairwise disjoint storage and three empty lists for which the three-list invariant holds |
| `GeneIndex.RankedLength` | `GA.c:481-484` | A repetition-free list of exactly the genes 0 .. n-1 has n entries |
| `GeneIndex.GeneIndex.SortGene` | `GA.c:118-167` | An unlisted gene is inserted before the first listed gene with a larger key, so equal keys keep their order; the pointers form one circle again and every other gene's position is kept |
| `GeneIndex.GeneIndex.Insert` | `GA.c:118-167` | Insertion keeps the list sorted and makes it hold exactly one gene more |
| `GeneIndex.GeneIndex.Evict` | `GA.c:486-488` | Eviction removes exactly that gene and its key, keeping the list sorted |
| `GeneIndex.GeneIndex.Remove` | `ecm_list.h:103-108` | Unlinking keeps one circle through the remaining genes in order and leaves the removed node self-linked |
| `GeneIndex.GeneIndex.FindPosition` | `GA.c:125-132` | The forward walk stops at the first larger key or back at the head |
| `GeneIndex.GeneIndex.Select` | `GA.c:471-478` | Walking a number of steps finds the gene at that rank, and the last gene when the list is shorter; never the head |
| `GeneIndex.GeneIndex.Last` | `GA.c:484` | The node before the head belongs to the gene of the last rank |
| `GeneIndex.GeneIndex.First` | `report.c:65` | The node after the head belongs to the gene of the first rank |
| `GeneIndex.IndexKept` | `GA.c:433-438` | Rewriting a gene that a list does not hold changes neither its links nor its keys |
| `GeneIndex.InsertRing` | `ecm_list.h:67-71` | Inserting a rank into the order is inserting that gene's node into the pointer circle at the matching place |
| `GeneIndex.RemoveRing` | `ecm_list.h:80-86` | Removing a rank from the order is removing that gene's node from the circle, and adds exactly it to the nodes that are alone |
| `EcmList.ListAddTail` | `ecm_list.h:67-71` | Inserting before any node of a circle, head included, gives one circle with the node at that place, in both directions |
| `EcmList.ListDelInit` | `ecm_list.h:103-108` | Deleting any node of a circle leaves one circle of the others and a self-linked node; a lone node stays alone |
| `EcmList.ListAdd` | `ecm_list.h:33-43` | The new node stands between its neighbours and the outer links of the neighbours are kept |
| `EcmList.ListDel` | `ecm_list.h:80-86` | The two neighbours are joined and their outer links are kept |
| `Gene.Gene.CheckMemusage` | `GA.c:177-193` | True exactly when, for every memory type, the memory of the tasks assigned to it fits its capacity; then, with ratios of at most one, every task's memreq * (1 - ratio) fits its type |
| `Gene.Gene.SumMemory` | `GA.c:180-184` | The loop adds up what each type is asked to hold |
| `MemoryUse.NothingAssigned` | `GA.c:180-184` | A type that no task is assigned to is asked for nothing |
| `MemoryUse.MoveTask` | `GA.c:183` | Moving one task to another type moves exactly memreq * (1 - ratio) from the one to the other |
| `MemoryUse.MemoryConserved` | `GA.c:180-184` | With all tasks local and ratio 0.0 the types together are asked for exactly the memory of all tasks |
| `MemoryUse.TooMuchNeverFits` | `GA.c:185-191` | Local tasks that together need more than all types hold fit in no way |
| `MemoryUse.FittingHolds` | `GA.c:183-189` | Where memory fits, each type holds each of its tasks |
| `Gene.Gene.CheckUtilpower` | `GA.c:262-373` | Fatal if and only if some task has wcet >= period * frequency scale * memory scale; the stored utilisation is the sum of wcet / (period * both scales); accepts exactly up to the cutoff, and then every cached figure is that of a fresh evaluation, the score being the cost below full utilisation and cost * (1 + (util - 1) * penalty) from there on. Above the cutoff power, total cost and score keep their old values |
| `Gene.Gene.SoundShows` | `GA.c:340-372` | Each of the fifteen cached fields of a listed gene is the figure of that name for its attributes |
| `Gene.Gene.SumTasks` | `GA.c:284-313` | The loop over the tasks computes the sums of the evaluation, utilisation in closed form among them, or stops exactly when some task has wcet >= period * frequency scale * memory scale |
| `Gene.ComputeFigures` | `GA.c:320-369` | The part of the evaluation after the loop stores, field by field, the figures of the specification |
| `Gene.Gene.Check` | `GA.c:394-403` | Memory first, then utilisation: the verdict is determined by the assignment, and acceptance stores exactly its evaluation |
| `Gene.Gene.InitGene` | `GA.c:375-407` | The successive assignments of one initialisation form a repair run that ends as reported; on success the gene is sound and holds the run's last assignment |
| `Gene.Gene.TryOnce` | `GA.c:389-404` | One failed try changes one memory type while memory does not fit, otherwise lowers one frequency index by one, or nothing when all are zero; no other attribute changes |
| `Gene.Gene.LowerUtilization` | `GA.c:249-260` | With all tasks local exactly one frequency index falls by one, whichever table is tried first, unless all are zero |
| `Gene.Gene.BalanceMemTypes` | `GA.c:195-223` | Exactly one task changes its memory type, within the table |
| `Gene.Gene.Breed` | `GA.c:433-448` | For every task, each of the memory, ratio and frequency indices is the first parent's below that attribute's crossover point and the second's from there on, and the cloud index is the child's own old one; the child is accepted if and only if it is feasible and no worse than both parents |
| `Gene.MixFits` | `GA.c:425-431` | Mixes of local in-range assignments are local and in range |
| `Gene.ChildTakesAfterBoth` | `GA.c:425-431` | Every child the tries speak of is such a mix at points strictly inside the tasks, so its first task takes after the first parent and its last task after the second |
| `TaskAttrs.TaskAttrs.Setup` | `GA.c:89-104` | The histogram counts every type exactly and max_type is a most frequent type |
| `TaskAttrs.TaskAttrs.Balance` | `GA.c:195-223` | The search for the drawn task of max_type always stops inside the tasks; that one task changes to a different type and histogram and max_type follow exactly. With two types in the table a most frequent max_type stays most frequent |
| `TaskAttrs.TaskAttrs.LowerByAttr` | `GA.c:225-247` | Lowers one positive attribute by one with an exact histogram; fails, changing nothing, exactly when all attributes are zero. With two types in use a most frequent max_type stays most frequent |
| `TaskAttrs.TaskAttrs.Retype` | `GA.c:215-220` | Changing one task's type keeps histogram and max_type exact, and a most frequent max_type stays most frequent among two types |
| `TaskAttrs.TaskAttrs.FindPositive` | `GA.c:230-244` | The circular scan from any start finds a positive attribute or has seen all of them to be zero |
| `TaskAttrs.TaskAttrs.Inherit` | `GA.c:425-431` | The attributes become the first parent's before the crossover point and the second's after it, with a rebuilt histogram |
| `TaskAttrs.TaskAttrs.Assign` | `GA.c:106-116` | All attributes lie below the table size and the histogram is exact |
| `TaskAttrs.TaskAttrs.AssignZero` | `GA.c:384-387` | All attributes are zero with an exact histogram |
| `TaskAttrs.MoveKeepsHistogram` | `GA.c:215-217` | Moving one task between types keeps the counts exact |
| `TaskAttrs.CountsSumTo` | `GA.c:97-103` | An exact histogram sums to the number of tasks |
| `TaskAttrs.MaxTypeStaysPositive` | `GA.c:216-220` | After any move max_type still names a type in use, so balancing is never disabled |
| `TaskAttrs.ArgmaxAfterMove` | `GA.c:216-220` | max_type remains a most frequent type if and only if it did not lose the task itself, or the gaining type catches up, or no third type was tied with it |
| `TaskAttrs.TwoTypesKeepArgmax` | `GA.c:216-220` | With two types in use max_type always remains a most frequent type |
| `TaskAttrs.ThreeTypesCanGoStale` | `GA.c:216-220` | Four tasks, two of the first and two of the second type, with exact histograms before and after: moving one from the first to the third type leaves max_type stale |
| `Tables.CpuFreqTable.AddCpufreq` | `cpu.c:6-19` | Refuses exactly when the table is full or some entry already listed is slower than the new one; otherwise appends, so the table stays sorted from fastest to slowest |
| `Random.GetRandExcept` | `util.c:9-17` | Any value below the bound other than the excluded one |
| `Repair.RepairCompleteness` | `GA.c:384-407` | Let memory fit at try j with enough tries left for every remaining frequency unit. Then initialisation succeeds if and only if no task overruns at the frequencies of try j and the all-fastest assignment meets the cutoff |
| `Repair.RepairSucceedsInTime` | `GA.c:389-406` | The same under the bound j + n_tasks * (n_cpufreqs - 1) < MAX_TRY, known before the run |
| `Repair.RepairMeasure` | `GA.c:389-404` | From try j on memory stays fitting and each further try has used exactly one unit of the frequency sum, as long as the all-fastest assignment meets the cutoff |
| `Repair.FailedTryProgress` | `GA.c:225-260` | A failed try with fitting memory keeps the memory fit, never raises utilisation and lowers the sum of frequency indices by exactly one unless it is zero |
| `Repair.OutOfTries` | `GA.c:406` | When all tries are used, none of the assignments met was acceptable at the last try |
| `Repair.BalanceNeedsTwoTypes` | `GA.c:214` | Balancing, which needs a second type, is only ever reached with two types if and only if there are two types or everything fits in one |
| `Repair.GenerousSucceeds` | `GA.c:389-406` | If memory fits every assignment, no task overruns at the slowest frequency in the slowest memory, and the fastest frequency in that memory meets the cutoff, every repair run ends well |
| `Repair.NeverOverrunsPerTask` | `task.c:29-32` | No fitting assignment overruns if and only if every task has wcet < period * slowest frequency scale * memory scale in every memory type that can hold it |
| `Repair.NeverOverrunsRoomy` | `task.c:29-32` | Where memory always fits, the same if and only if every task meets its period at the slowest frequency in the slowest memory |
| `Objective.ObjectiveMonotone` | `GA.c:262-373` | Slowing any tasks down never lowers utilisation, total cost or, with a penalty of at least zero, score |
| `Objective.FastestIsBest` | `GA.c:364-369` | No assignment beats the all-fastest one with the same memory types in utilisation, cost or score, and it overruns only if the other does |
| `Objective.NoOverrunDownward` | `task.c:29-32` | An assignment whose tasks all meet their periods keeps doing so at faster frequencies |
| `Objective.LocalTotals` | `task.c:34-46` | In local mode utilisation is the sum of wcet / (period * frequency scale * memory scale), and no violation, delay or network power is ever charged, whatever the assignment |
| `Stretching.ScaledWcetLaw` | `task.c:21-29` | The stretched execution time times both scales is the execution time |
| `Stretching.OverrunLaw` | `task.c:31-32` | The program gives up at a task if and only if wcet >= period * frequency scale * memory scale |
| `Stretching.NoOverrunLaw` | `task.c:31-32` | No task makes it give up if and only if all stay below that |
| `LocalFigures.UtilLaw` | `task.c:38` | The evaluated utilisation is that sum |
| `LocalFigures.PowerLaw` | `GA.c:340-351` | Processor power is the sum of the tasks' powers and, below full utilisation, the slowest frequency's idle power over the unused time; memory power is idle power all the time and the difference to active power while active; total power is their sum |
| `LocalFigures.CpuPowerBetween` | `task.c:40-41` | A task's processor power lies between idle and active power times its share |
| `LocalFigures.ScoreLaw` | `GA.c:353-369` | The score is the total cost below full utilisation and cost * (1 + (util - 1) * penalty) from there on; the constraint penalty is the over-utilisation, and the fitness the reciprocal of cost and penalty |
| `LocalFigures.LocalCostLaw` | `GA.c:20-54` | The local cost is 0.0576 USD a month for each watt: the listed power of the frequency times the integer duty cycle, and 0.002 times the activity plus 0.0005 watt for each whole MB |
| `LocalFigures.CostLaw` | `GA.c:320-338` | The stored costs of a local assignment: the sum over the tasks and 0.0000288 USD for each unused MB of 45000, 0.2016 for the baseline, 2000/36.5 for the hardware, nothing for network and rent |
| `LocalFigures.OffloadingCostLaw` | `GA.c:57-68` | The network cost of an offloaded task in closed form |
| `Objective.CostConservation` | `GA.c:300-338` | The stored total is the sum of its five stored parts, and local assignments pay nothing for the network |
| `Objective.StaticShareExact` | `GA.c:48-53` | The static part of the stored memory cost is exactly the price of the larger of used and total memory, less the MB fractions dropped by the integer quotient |
| `Objective.StaticMemoryPaidOnce` | `GA.c:320-327` | That part never exceeds the full-capacity price, equals it when no task is local, and otherwise falls short by less than one MB per local task |
| `Evaluation.CostsArePositive` | `GA.c:358-360` | The total cost is positive and the divisor of the fitness never vanishes |
| `Evaluation.LocalCostFactored` | `GA.c:37-54` | The local cost is the price of a positive per-frequency energy times the integer duty cycle plus the memory power over the month |
| `Rank.SquareRootForm` | `GA.c:460` | For an exact square root the program's expression truncates to the integer characterisation of kvalue |
| `Rank.KValueUnique` | `GA.c:460` | kvalue is the only k with 2k(k+1) <= alpha * n_pops < 2(k+1)(k+2) |
| `Rank.PositionInPool` | `GA.c:461-462` | Every draw gives a rank inside the pool, so the program's assertion always holds |
| `Rank.LargerDrawNeverWorse` | `GA.c:459-462` | A larger draw never gives a worse rank |
| `Rank.DrawsPartitioned` | `GA.c:455-460` | The draws with kvalue k form one interval, and the intervals of 0 .. n-1 tile the draws without gap or overlap |
| `Rank.ProductFitsIn32Bits` | `GA.c:460` | The 32-bit product 8 * alpha * n_pops never wraps for any draw if and only if there are at most 16383 genes |
| `Rank.EndsReachable` | `GA.c:459-462` | The smallest draw selects the worst rank and the largest the best |
| `Rank.SelectPosition` | `GA.c:452-463` | The returned position is inside the pool, with k genes behind it 2k(k+1) <= alpha * n_pops < 2(k+1)(k+2), and its draws are one interval |
| `Rank.PositionsPartitioned` | `GA.c:455-462` | Each position is drawn by exactly the draws of one interval, and the intervals of all positions tile the draws |
| `Report.AddReport` | `report.c:34-76` | Minimum and maximum utilisation and maximum score read from list ends are those of the whole array. The minimum cost is the one of the cheapest valid gene (or the maximum when there is none or it is negative) if and only if the first listed gene is valid, or none is, or the first valid one scores below zero or the maximum; a cutoff of at most 3.0 guarantees the first, and makes every gene count as valid |
| `Report.ReportedIsCheapest` | `report.c:64-76` | The loop's value equals the score of the cheapest valid gene, with its fallback, exactly under that condition |
| `Report.FirstValidIsCheapest` | `report.c:64-70` | In a sorted list the first valid rank holds the cheapest of all valid genes |
| `Misreport.ReportCanBeWrong` | `report.c:64-76` | From tables that parsing accepts, with a cutoff of 4.0, a run reaches a population of sound genes whose cheapest valid score is the smallest of all while the report shows the largest |
| `Report.SaveTaskInfos` | `report.c:84-118` | Row i holds, column by column, the memory, frequency, cloud and ratio index of task i in the gene with the smallest score; it fails if and only if that gene's utilisation is above 2.0 |
| `Report.ReadBackListed` | `report.c:100-102` | The rows hold an assignment if and only if they are read back as that assignment |
| `Report.EndsAreExtremes` | `report.c:59-72` | The first and last keys of a full list are the minimum and maximum of that key over the array |
| `Report.FindCostMin` | `report.c:64-70` | The loop only ever inspects the first gene: it reports that gene's score when that gene is valid, and -1 otherwise |
| `Report.ScanValid` | `report.c:34-50` | The count is the number of genes with utilisation at most 3.0 |
| `Report.CutoffMakesAllValid` | `report.c:37` | With a cutoff of at most 3.0 every listed gene counts as valid |
| `Report.ScoreNonNegative` | `GA.c:367-369` | With a penalty of at least zero no score is negative |
| `Generator.GeneratorRoundTrip` | `gen_task.c:47-91` | When the memory divides evenly, the memory that a utilisation budget buys costs exactly the budget capped by the sum of all overheads, on top of the overhead of type 0 |
| `Generator.OverheadLaw` | `gen_task.c:55` | A type of scale s takes 1/s times as long: s * (1 + overhead) = 1 |
| `Generator.CostLaw` | `gen_task.c:77-88` | Memory that fills some types and a part of the next costs the sum of 1/scale - 1 over the full ones and that part of the next one's |
| `Generator.TotalOverheadLaw` | `gen_task.c:78-85` | All overheads together are the sum of the reciprocal scales less the number of types |
| `Generator.TruncatedRoundTrip` | `gen_task.c:101-117` | With a first type of scale 1 and an even division, the truncated memory of n tasks costs at most the capped budget and falls short by at most n times the largest overhead divided by the share per type |
| `Generator.RoundTripAtLeast` | `gen_task.c:74` | When it does not divide evenly, the integer share per type makes the same memory cost at least that |
| `Generator.CostOfBought` | `gen_task.c:54-65` | From any type on, what a budget buys costs the smaller of the budget and the remaining overheads |
| `Generator.CostMonotone` | `gen_task.c:77-88` | More memory, or a smaller share per type, never costs less |
| `Generator.CostLipschitz` | `gen_task.c:77-88` | The cost grows no faster than the largest overhead per unit of a type's share |
| `Generator.TruncationLoss` | `gen_task.c:102-103` | Truncating the memory amount of each of n tasks loses at most n times the largest overhead divided by the share per type |
| `Generator.MemreqPerTask` | `gen_task.c:102-103` | The memory per task is the truncated n-th part of what the budget buys |
| `Generator.PerturbedRoundTrip` | `gen_task.c:34` | When the memory of n tasks is perturbed by less than half in all, its overhead stays within the overhead of half the nominal memory, and of one truncated unit per task, of the capped budget |
| `Generator.GetMemUtil` | `gen_task.c:47-68` | The loop computes the recursive piecewise-linear share a budget buys |
| `Generator.GetUtilOverheadBymem` | `gen_task.c:70-91` | The loop computes the recursive piecewise-linear cost of a memory amount |
| `Workload.PerturbedPeriod` | `gen_task.c:30-32` | For any target, a perturbed period keeps utilisation strictly between 2/3 and 2 times the target; it exceeds the execution time whenever that is at most half the nominal period, as it is for targets of at most one half |
| `Workload.EveryPeriodPerturbed` | `gen_task.c:30-32` | No period draw divides by zero if and only if the least execution time is at least twice the target utilisation |
| `Workload.EveryDrawAccepted` | `conf_gastask.c:71-73` | No draw makes a task that is refused when read back if and only if the execution time is at most half the nominal period, rounded up |
| `Workload.SumNearTarget` | `gen_task.c:41` | Over any number of tasks the total utilisation stays strictly between 2/3 and 2 times the target |
| `Workload.TaskGenerator.DoGenTask` | `gen_task.c:21-45` | Whenever no draw divides by zero, the period stays within half of the truncated quotient of execution time and target, the task's utilisation is within the factors, it is accepted when read back under the exact condition above, memory and activity stay within their ranges, and the running sums grow by exactly its share |
| `Workload.TaskGenerator.GenTask` | `gen_task.c:93-118` | The running sums are the sums over the generated tasks, the total utilisation is within a factor of 2/3 to 2 of the target and the total memory within half of the nominal one, and with at most half utilisation per task every task is accepted |
| `Workload.SumNearMemory` | `gen_task.c:34` | Over any number of tasks the total memory stays strictly within half of the nominal total |
| `Workload.Generate` | `gen_task.c:93-118` | The printed full-power utilisation lies strictly between 2/3 and 2 times the processor target plus the memory budget, capped at the sum of 1/scale - 1, up to the overhead of half the nominal memory and of one truncated unit per task |
| `Framing.DecodeEncode` | `secure_sgx/transmit.c:11-12` | A length survives the wire in either byte order as far as a C int carries it |
| `Framing.EncodeDecode` | `secure_sgx/transmit.c:38-39` | Any four bytes are the encoding of the length they decode to |
| `Framing.WireLayout` | `secure_sgx/transmit.c:11-12` | The four bytes of a length below 2^31 are its base-256 digits, the least significant first or last |
| `Framing.FrameLayout` | `secure_sgx/transmit.c:11-30` | A frame is the four length bytes followed by the data |
| `Framing.DeframeFrame` | `secure_sgx/transmit.c:33-61` | A frame is received as sent, leaving the stream at the next frame, if and only if its length is below 2^31 |
| `Framing.FramingRoundTrip` | `secure_sgx/transmit.c:6-61` | For any list of messages, successive receives return exactly them in order and end on a frame boundary |
| `Framing.FramesDetermineMessages` | `secure_sgx/transmit.c:6-61` | When received frames are a beginning of the sent ones, the messages are a beginning of the sent messages and the rest of the bytes are the remaining frames |
| `Transmit.SendLenData` | `secure_sgx/transmit.c:6-31` | Under any pattern of short writes exactly one frame is appended, cut off where the connection breaks; it fails if and only if the connection breaks inside the frame |
| `Transmit.RecvLenData` | `secure_sgx/transmit.c:33-61` | Under any pattern of short reads the next frame is taken into the front of the buffer; it fails if and only if the stream ends or breaks inside the frame, and then nothing is left of it |
| `Transmit.WriteFully` | `secure_sgx/transmit.c:13-20` | The write loop appends all bytes in order, cut off where the connection breaks, and fails exactly then |
| `Transmit.ReadFully` | `secure_sgx/transmit.c:41-48` | The read loop takes exactly the bytes asked for and touches nothing behind them; it fails exactly when fewer will arrive |
| `Transmit.SendAll` | `secure_sgx/transmit.c:6-31` | Successive sends append the frames of all messages, cut off where the connection breaks |
| `Transmit.ReceiveAll` | `secure_sgx/transmit.c:33-61` | From any beginning of the frames of some messages, successive receives deliver exactly the messages that arrived whole |
| `Transmit.Exchange` | `secure_sgx/transmit.c:6-61` | Both ends together, over short writes and reads: every message arrives in order, or exactly the longest list that gets through before the connection breaks |
| `Gateway.Forward` | `secure_sgx/gateway.c:107-110` | The next frame is taken from one side and appended unchanged to the other; it stops if and only if no whole frame arrives, and then nothing is sent on, or the other connection breaks inside the frame |
| `Gateway.DoRelayOffload` | `secure_sgx/gateway.c:100-117` | When the loop stops, each side has been sent exactly the frames taken from the other, in lockstep, and either the stream being served has no whole frame left or the last frame taken was cut off by the connection it was written to |
| `Gateway.RelayedInOrder` | `secure_sgx/gateway.c:100-117` | If what arrives are the frames of some messages, those relayed are the first of them, and all of them when the stream ends |
| `RelayTheorems.EveryRun` | `secure_sgx/gateway.c:119-131` | Along every run of the three parties every state is transparent, safe, within its buffers and able to go on |
| `RelayTheorems.RelayTransparent` | `secure_sgx/gateway.c:87-117` | Each endpoint works with the other's true public key; the k-th request the enclave reads is the device's request k, and the k-th answer the device reads carries response counter k |
| `RelayTheorems.EndToEnd` | `secure_sgx/gateway_client.c:113-183` | What an endpoint has received is a beginning of what the other has sent, unchanged and in order |
| `RelayTheorems.RelayRefinesDirect` | `secure_sgx/gateway.c:100-117` | Every step of the composition is a step of a direct device-enclave exchange, or leaves its messages unchanged |
| `RelayTheorems.RelaySafe` | `secure_sgx/iiot_device.c:55-81` | At most one request is outstanding, every byte in flight belongs to the messages the program orders predict, and only the public key and the first request ever share the way to the enclave |
| `RelayTheorems.BuffersSuffice` | `secure_sgx/gateway_client.c:69-72` | No receive ever announces more than the fixed buffer it fills |
| `RelayTheorems.RelayProgress` | `secure_sgx/transmit.c:22-30` | Handshake and loop never deadlock, however small the channels: some party can take a step other than choosing local work |
| `RelayTheorems.KeysAgree` | `secure_sgx/gateway_client.c:80-111` | Once the handshake messages are in, each side holds the other's public key |
| `RelayInvariant.StepKeeps` | `secure_sgx/enclave.c:35-48` | Every step of every party keeps program order, message meaning and the four channel invariants |
| `RelayInvariant.RunKeeps` | `secure_sgx/iiot_device.c:96-117` | The invariant holds in every state of every run |
| `RelayInvariant.InitHolds` | `secure_sgx/enclave.c:65-69` | The invariant holds before the first byte is sent |
| `RelayInvariant.EnclaveRespondsMeaning` | `secure_sgx/enclave.c:39-47` | The next response decrypts, under the device's key, to the next response counter, and the request just read is recorded as decrypted |
| `RelayInvariant.DeviceOffloadsMeaning` | `secure_sgx/iiot_device.c:58-71` | The next request decrypts, under the enclave's key, to the next request counter |
| `Link.WriteSome` | `secure_sgx/transmit.c:22-30` | A write of any size keeps a channel's invariant: the bytes received, under way and unwritten are the frames of the messages sent |
| `Link.ReadSome` | `secure_sgx/transmit.c:52-60` | So does a read of any size inside a frame |
| `Link.ReadLast` | `secure_sgx/transmit.c:52-60` | The read that completes a frame yields exactly the next message sent |
| `Link.Delivered` | `secure_sgx/transmit.c:33-61` | The messages received are a beginning of those sent, and the bytes still on the way are exactly the frames of the rest |
| `Relay.LawfulWorldExists` | `secure_sgx/gateway_client.c:113-183` | The assumptions about keys, ciphers and documents can be met |

## Left out

- Configuration parsing, printing, shell scripts, data sets and `trust_model`: input and output only. Of what
  parsing establishes, scales of at most 1, sorted frequencies and table sizes are in `Tables.System.Valid`; capacities
  above zero, powers of at least zero, `wcet < period` and sorted ratios within 0 and 1, which no proof needs, are in
  `Tables.Parsed`.
- What the formulas divide by is a precondition of the model, not checked by the program: positive scales, rates
  and computation power, and periods of at least 1000, because `GA.c:38-39` divides integers and a shorter period
  would become zero. Also `n_tasks >= 2`, because of `get_rand(n_tasks - 1)`, `n_pops >= 3`, so that two parents stay
  listed, and a memory activity ratio of at least zero.
- A single memory type with tasks that do not fit: `get_rand_except` would draw forever, so `Repair.CanBalance` demands
  a second type or memory that fits.
- Rounding, infinities and NaN: `double` is modelled as `real`, and `sqrt` by the integer characterisation that
  `Rank.SquareRootForm` ties to an exact root.
- Rank.SelectPosition: does not model the 32-bit wrap of its product, because `Rank.ProductFitsIn32Bits` shows that
  there is none up to 16383 genes, and that there is some draw that wraps beyond.
- Probabilities: `get_rand` returns any value below its bound. The loop that draws a second parent is any finite number
  of unlucky draws followed by one that differs, which is shown to exist.
- Running totals that the program keeps in 32-bit unsigned counters (memory sums of the generator, period violations)
  are unbounded here.
- Gene.Gene.InitGene: does not re-initialise the three list nodes in every try; nodes are self-linked when allocated and
  stay so until the gene is listed, and the null pointers left by `calloc` are not modelled.
- The three textually equal functions that insert by utilisation, power and score are one class with a key; list nodes
  carry the record and member that `list_entry` computes by pointer arithmetic.
- Report.AddReport: does not model the averages, the fitness and penalty columns or the reporting interval, because they
  are plain sums over the array.
- Workload.TaskGenerator.DoGenTask: does not model task, input and output sizes, which are independent uniform draws, and
  takes parameters for which no draw divides by zero (`Workload.EveryPeriodPerturbed`), as the program crashes on others.
- Workload.TaskGenerator.GenTask: takes the per-task parameters of `gen_task.c:101-103` as given; the memory per task is
  `Generator.MemreqPerTask`, and `Workload.Generate` puts them together. The array of 100 offloading flags at
  `gen_task.c:109-110`, of which `gen_task.c:16-17` writes one per task, is not modelled: the program is only defined for
  at most 100 tasks, the model covers any number.
- Workload.Generate: takes an evenly divided memory whose first type has scale 1, and at least two units of memory per
  task, below which the memory draw divides by zero.
- Report.SaveTaskInfos: does not model the counters and figures printed after the rows.
- The modes selected by editing the source (`real_offloading` 1.0, public and private cost blocks): local mode as it
  stands. The formulas of offloaded tasks are in `Evaluation`, but no listed gene has any.
- `secure_sgx/attsdoc.c`, `secure_sgx/credentials.c`, RSA and the attestation service: a world of functions in which
  decryption undoes encryption and documents carry public keys; `Relay.LawfulWorldExists` shows it can be met.
- Transmit.RecvLenData: needs a buffer that holds the announced size, as the program does not check it;
  `RelayTheorems.BuffersSuffice` shows that the three parties never announce more to each other. A negative size is
  received as an empty message with that size.
- Gateway.DoRelayOffload: takes frames that fit its buffer and announce no negative size, and sockets that share no
  stream; it returns where the program exits.
- A connection is a stream that delivers some bytes and then ends or breaks, and takes some number of bytes before it
  breaks, if it ever does; the two ways a read can report the end are not told apart, as the program does not either.
- Connecting, accepting, process exit, sleeping and the random choice between local and remote work: the device may choose
  either at any time, and a broken stream ends only the loops of `Transmit`, not the three-party state machine.
- The enclave formats its response, and so counts it, before it waits for the request (`secure_sgx/enclave.c:45-46`);
  the model does both when it responds, which sends the same counter.
- Fairness: progress means that some party can always go on, not that a scheduler lets it.
