# A verified model of chronyd 1.27

chronyd disciplines a computer's clock from NTP servers and reference clocks in one process around an
event loop. This project models the modules in which its hard guarantees live and proves those
guarantees. Every file holds one module; `dafny verify dfyconfig.toml` checks all of them.

Where the C code changes state in place, the model has a class or an array that is changed in place.
Each such method is proved equal to a function of the old state, or to state the promised property
outright, and lemmas then prove the guarantee about that function for all inputs, all states or all
runs. Arrays of records (`sources`, the timer queue, the kept replies, the client nodes) are fields
of type `seq`, and the trie and the client tree are fields of type `map` that name a node by the digits
leading to it.

Times are exact: doubles are reals, time values are real seconds (integer seconds and microseconds for
log-on stamps). Random numbers, clock readings, the statistics of other modules and the answers of the
kernel are parameters. `util.c` arithmetic on time values has its exact meaning.

## Main results

| area | files | what holds |
|---|---|---|
| selecting a source | `Sweep`, `Selection` | the sweep over the sorted endpoints finds the greatest number of intervals sharing a point and the least and greatest such point; a majority there leaves at least 2d - n intervals containing the whole stretch, so "no selectable sources" is unreachable; the assertion of the score loop holds if and only if there is a selected source or some admissible one lies at a positive weighted distance; every call of the module keeps the indices, the scores and "exactly the selected source is SYNC"; a reselection loses the source unreported if and only if it waits or no offset has a majority |
| median filter | `MedianFilter` | the selected slots are exactly the middle of the offset order, each once, oldest first, whatever order sorting leaves equal offsets in; the cycle-following loop terminates and loses no slot |
| quickselect | `OrderStatistics` | no scan leaves the array, one call from sound flags returns the order statistic of any array, ties included; the two-call median of an even number of values is exact if and only if a condition on the flags and values after the first call holds, and always when no value below the upper middle one is repeated, with a tie that breaks it exhibited |
| regression | `LeastSquares`, `BestRegression` | the fitted line solves the weighted normal equations and no other line reaches its weighted squared error; the search returns the fit of the longest acceptable suffix and its indices stay inside the arrays |
| command protocol | `TokenRegisters`, `CommandProtocol`, `CommandSafety`, `LogonStamps` | the two 32-bit registers represent the set of outstanding tokens; over every run of packets no token executes two commands, kept replies are distinct, and whatever packets come between, a client that asks again gets the very same answer if and only if nobody has acknowledged it, no later command found it too old, and the attempt is new, and nothing is executed; a log-on stamp obtains at most one token if and only if the clock does not overshoot by more than the margins and come back |
| access rules | `AddressFilter` | for every sequence of rules the trie gives the verdict of the deepest surviving rule, the latest at equal depth, and denies by default; a rule settles the subnet it names if and only if its address has no bit set in the rest of its last nibble |
| timers | `Scheduler` | the queue stays sorted, a class delay is the least that keeps clear of its class, classes stay separated over every run, and no entry overtakes another |
| NTP sources | `NtpAssociation`, `NtpWorld`, `NtpMachine` | over every run of all sources' and other modules' events together, a source has exactly one queue entry, the one it remembers, if and only if it is not offline; a burst is bounded |
| source table | `SourceHash` | open addressing with rehash on removal is a finite map keyed by address |
| clock | `LinuxSlew`, `SlewRuns`, `LocalClock` | over every run of calls and passing time, what is outstanding and what was slewed add up to what was accrued, to within a nanosecond for every offset handed to the kernel's PLL; a fast slew that ends on time leaves nothing; a step leaves the cooked time unchanged; frequency changes compose |
| sample store | `SampleRings` | two rings of different size under one cursor are an append and drop-oldest list |
| MD5 | `Md5` | streaming in any parts gives the digest of sections 3.1, 3.2, 3.4 and 3.5 of RFC 1321 |
| client log | `ClientLog` | a client's accesses are all counted or none is, and the counters add up |

Five places where the code does less than its comments or its callers suggest are results here:

* regress.c:344-352 says that flagged entries are in place. With ties the search can settle on a
  stretch that contains a flagged entry, and regress.c:444-445 then averages the wrong two values
  (`OrderStatistics.TiedMedianIsWrong`). `OrderStatistics.EvenMedianExactlyWhen` says exactly when it
  does not, and `OrderStatistics.LowDistinctMedianIsExact` gives a condition on the values alone.
* cmdmon.c:472-508 forgets log-on stamps by the present time, so a stamp can be accepted twice when the
  clock is stepped forth and back (`LogonStamps.SteppedClockReplay`);
  `LogonStamps.OnceExactlyWhenSteady` says for exactly which clocks it cannot.
* sources.c:892-897 forgets the selected source before reselecting, so a reselection that finds none is
  not reported to the reference module. `Selection.TornTableIsLostSilently` exhibits a table on which an
  ordinary round reports the loss and a reselection does not; `Selection.LossIsUnreported` and
  `Selection.SourceTable.ReselectSource` say exactly when that happens.
* sources.c:902-908 accepts a negative reselect distance, with which the assertion of the score loop can
  fail (`Selection.NegativeReselectFails`); `Selection.SomeoneLeads` says exactly when it holds.
* addrfilt.c:203-216 does not mask the address of a rule. With a bit set beyond the subnet's size the
  rule settles the wrong addresses (`AddressFilter.UnalignedRuleIsShifted`) or runs past the children of
  the node (`AddressFilter.UnalignedRuleMayOverrun`);
  `AddressFilter.SettlesSubnetExactlyWhenAligned` says that it is right only without such a bit.

## Model
| member | source | states |
|---|---|---|
| Sweep.FindBestInterval | sources.c:577-606 | the loop returns the largest number of intervals sharing a point and the least and the greatest such point, however qsort orders ties among equal endpoints |
| Sweep.SweepIsDeepest | sources.c:577-606 | the first place the depth reaches its maximum and the last high end met at that depth delimit exactly the points of greatest cover, even when the deepest regions are disjoint |
| Sweep.CutDepth | sources.c:384-400 | with LOW before HIGH at equal offsets, the number of intervals containing any point is the sweep's depth at that point's cut |
| Sweep.DepthAtEndpoint | sources.c:384-400 | no depth of the sweep exceeds the cover of the endpoint it is reached at |
| Sweep.CoverIsBounded | sources.c:585-606 | no point has more cover than best_depth, and a point of that cover lies in [best_lo, best_hi] |
| Sweep.DeepestIsUnique | sources.c:577-606 | depth, lower and upper end are determined by the set of intervals |
| Sweep.SortGivesSortList | sources.c:384-400 | sorting by the comparison yields an arrangement of the endpoints as the sweep needs it |
| Sweep.Pigeonhole | sources.c:613-652 | at least cover(lo) + cover(hi) - n intervals contain the whole of [lo, hi] |
| Sweep.MajorityAgrees | sources.c:613-665 | when best_depth exceeds half of n sources, at least 2*best_depth - n > 0 of them contain the whole best interval |
| Ordering.SortSorts | sources.c:551-552 | sorting by any total preorder gives an ordered rearrangement |
| Ordering.SumRearranged | sources.c:551-552 | a sum over the endpoints does not depend on the order sorting gave them |
| Selection.AdmissibleListIsExact | sources.c:642-665 | the list holds exactly the sources with usable statistics whose interval contains the best one, each once, in order |
| Selection.MajorityIsSelectable | sources.c:867-872 | with a majority the list is never empty: the "no selectable sources" branch cannot be reached |
| Selection.LeapNeedsMajority | sources.c:714-729 | a leap second is accepted if and only if more than half of the selectable sources announce it |
| Selection.LeapCountsExclude | sources.c:714-729 | insertion and deletion votes cannot both have a majority |
| Selection.PreferredIsExact | sources.c:731-740 | narrowing keeps exactly the preferred sources of the list |
| Selection.ReferenceStratumIsLeast | sources.c:731-752 | the stratum used for the penalty is the least among the preferred selectable sources, or among all when none is preferred |
| Selection.ScaleIsSound | sources.c:777-802 | positive root distances and a reselect distance that is not negative leave some admissible source at a positive weighted distance, whatever the strata |
| Selection.SomeoneLeads | sources.c:769-815 | assert(max_score_index != INVALID_SOURCE) holds if and only if there is a selected source or some admissible source has a positive weighted distance |
| Selection.NegativeReselectFails | sources.c:785-815 | one server at distance 1 and a reselect distance of -2: nothing is divided by zero and the assertion fails |
| Selection.NothingIsSelectedWhen | sources.c:532-873 | a round selects nothing if and only if it waits or no offset is shared by more than half of the swept sources |
| Selection.LossIsReported | sources.c:882-885 | a round that starts from a selected source reports "unsynchronised" if and only if no offset has a majority |
| Selection.LossIsUnreported | sources.c:892-897 | a reselection never reports "unsynchronised"; it ends unselected and unreported if and only if it waits or no offset has a majority |
| Selection.TornTableIsLostSilently | sources.c:892-897 | two sources wide apart, one selected: an ordinary round reports the loss, a reselection does not |
| Selection.FirstElectionIsNearest | sources.c:795-813 | without a current source the leader has the least positive weighted distance |
| Selection.ElectionMeaning | sources.c:758-840 | the winner is admissible; the current source is given up exactly when it is not admissible or an admissible rival beats it with a score over the limit |
| Selection.ElectionKeepsInvariant | sources.c:817-840 | after an election exactly the winner is SYNC, its status had been OK, and the indices and scores are in order |
| Selection.RoundKeepsInvariant | sources.c:425-887 | every outcome of a round, including waiting, no sources and no majority, leaves index i at place i, every score at least 1, and exactly the selected source SYNC |
| Selection.RemovedKeepsInvariant | sources.c:241-251 | closing the gap of a destroyed source and shifting the selected index keeps the invariant and points at the same source |
| Selection.SourceTable.constructor | sources.c:156-170 | an empty table without a selected source is in order |
| Selection.SourceTable.BuildIntervals | sources.c:459-525 | every source gets its statistics and status, and the intervals and reachability maxima are those of the sources |
| Selection.SourceTable.MarkAllFalse | sources.c:630-635 | all sources, and nothing else in them, become falsetickers |
| Selection.SourceTable.FindAdmissible | sources.c:642-665 | returns the admissible list and marks exactly the others |
| Selection.SourceTable.MarkSelectable | sources.c:702-711 | the remaining sources become selectable, giving the marking of the whole table |
| Selection.SourceTable.VoteOnLeap | sources.c:714-729 | the loop's verdict is the majority vote |
| Selection.SourceTable.NarrowToPreferred | sources.c:731-740 | the list in place becomes the preferred part if there is one |
| Selection.SourceTable.FindLeastStratum | sources.c:746-752 | the loop finds the least stratum of the list |
| Selection.SourceTable.ScoreOne | sources.c:771-802 | the branches for reset, exponential smoothing and the current source give the new score |
| Selection.SourceTable.UpdateScores | sources.c:758-813 | all scores are updated in place and the leader is the first source of the greatest score |
| Selection.SourceTable.Elect | sources.c:817-840 | keeps the current source or elects the leader and forgets all scores |
| Selection.SourceTable.ElectAmong | sources.c:637-840 | steps 3 to 7 together are one election |
| Selection.SourceTable.SweepAndElect | sources.c:548-873 | sorting, sweep and majority test lead to an election or to no majority, never to an empty list |
| Selection.SourceTable.SelectSource | sources.c:425-887 | the whole function carries out one round and reports the update of that round |
| Selection.SourceTable.Reconsider | sources.c:425-887 | from a table in order to a table in order |
| Selection.SourceTable.CreateNewInstance | sources.c:186-224 | appends one ineligible source and leaves the others alone |
| Selection.SourceTable.AccumulateSample | sources.c:287-316 | records the leap status and selects again for that source |
| Selection.SourceTable.SetSelectable | sources.c:320-331 | changes one flag |
| Selection.SourceTable.UnsetSelectable | sources.c:335-351 | afterwards that source is not selected; a round is held exactly when it was |
| Selection.SourceTable.UpdateReachability | sources.c:355-366 | shifts the register; a round is held exactly when the selected source missed a poll |
| Selection.SourceTable.ReselectSource | sources.c:892-897 | holds a round from scratch and reports the update of that round, never "unsynchronised"; the exact condition of an unreported loss on the table before the call |
| Selection.SourceTable.DestroyInstance | sources.c:232-252 | the remaining records are those of the table before, after the round that was held if the dead source was the selected one, and its update is reported; the selection never points at the dead source or at a shifted neighbour |
| Selection.SourceTable.RemoveRecord | sources.c:242-246 | the later records move down one place and get their new index |
| MedianFilter.Filter.constructor | refclock.c:602-620 | an empty filter of at least one slot |
| MedianFilter.Filter.Reset | refclock.c:632-637 | drops all samples |
| MedianFilter.Filter.AddSample | refclock.c:645-657 | the ring is a list: append, dropping the oldest when full |
| MedianFilter.Filter.LiveAt | refclock.c:645-657 | slot s holds the sample whose age is Rank(s) |
| MedianFilter.Filter.LeastDispersion | refclock.c:704-712 | the first loop finds the least dispersion |
| MedianFilter.Filter.PreciseSlots | refclock.c:714-721 | the second loop collects exactly the slots within the limit |
| MedianFilter.PreciseIsExact | refclock.c:714-721 | a slot is collected if and only if its dispersion is within the limit, each once |
| MedianFilter.Filter.ChooseCandidates | refclock.c:704-728 | falls back to all slots when too few are precise |
| MedianFilter.Filter.SortByOffset | refclock.c:730-732 | the candidates in an offset order |
| MedianFilter.OffsetOrderIsSound | refclock.c:673-732 | sorting by the comparison yields such an order |
| MedianFilter.OffsetOrderShape | refclock.c:673-732 | any order of the candidates by offset names each slot at most once |
| MedianFilter.Filter.MarkMiddle | refclock.c:734-753 | trims both ends and replaces the survivors by their ages |
| MedianFilter.ChainStep | refclock.c:755-763 | each step of the cycle puts one age in its own cell, keeps the others, and lowers the number still out of place |
| MedianFilter.FollowCycle | refclock.c:755-763 | following one cycle terminates with nothing left in hand |
| MedianFilter.PlaceByCycles | refclock.c:755-763 | distinct cell numbers anywhere in a stretch end up each in the cell it names, nothing lost or duplicated |
| MedianFilter.Filter.SortByAge | refclock.c:755-763 | the survivors' ages are in their own cells |
| MedianFilter.Filter.Compact | refclock.c:765-768 | closing the gaps leaves the slots in age order |
| MedianFilter.RankSlotInverse | refclock.c:747-768 | slot and age are computed by remainders and undo each other |
| MedianFilter.Filter.SelectMiddle | refclock.c:702-770 | all steps in place give the middle of the offset order that sorting left |
| MedianFilter.Filter.SelectSamples | refclock.c:688-771 | nothing before enough samples; afterwards exactly the middle of an offset order, each slot once, strictly from oldest to newest |
| MedianFilter.SelectionIsMiddle | refclock.c:702-770 | the selection holds exactly the candidates left after trimming max(1, j/5) from both ends (none for j <= 2), each once, strictly from oldest to newest |
| MedianFilter.FoldIsCongruent | refclock.c:394-399 | folding changes the offset by whole periods and leaves it in [-0.5, 0.5) periods |
| MedianFilter.AlignIsNearest | refclock.c:413-419 | alignment moves by whole periods to within half a period of the reference |
| OrderStatistics.ScansMeet | regress.c:387-389 | with the pivot as sentinel the unguarded downward scan stays inside, and the scans stop next to each other or on a value equal to the pivot |
| OrderStatistics.PartitionBounds | regress.c:386-395 | the partition loop ends with everything left of l at most, and right of r at least, the pivot |
| OrderStatistics.RoundFacts | regress.c:382-396 | after a round the pivot's place separates the stretch |
| OrderStatistics.ApartAfterRound | regress.c:382-404 | both sides stay apart from the rest of the array and the pivot is settled |
| OrderStatistics.SearchSettles | regress.c:374-406 | a search over a stretch that is apart returns a settled, flagged entry and permutes the array, with or without ties |
| OrderStatistics.SearchKeepsFlags | regress.c:344-352 | unless a search went on from a pivot's own place, every flagged entry is settled afterwards |
| OrderStatistics.DistinctNeverTies | regress.c:402-404 | distinct values never take the branch that puts a flagged slot back |
| OrderStatistics.RangeIsApart | regress.c:372-378 | the unflagged stretch around the index lies apart from both sides |
| OrderStatistics.SettledIsSorted | regress.c:344-352 | a settled entry is what the sorted array has in that place |
| OrderStatistics.EntryPermutes | regress.c:359-414 | whatever the flags, a call only permutes the array |
| OrderStatistics.SearchShuffles | regress.c:380-407 | a search only reorders its stretch |
| OrderStatistics.EntryIsOrderStatistic | regress.c:359-414 | from sound flags, cleared ones in particular, the result is the index-th smallest value; flags stay sound unless a tie was taken, never for distinct values |
| OrderStatistics.MedianIsExact | regress.c:434-447 | an odd number of values, or an even one whose first search takes no tie, gives the exact median |
| OrderStatistics.DistinctMedianIsExact | regress.c:434-447 | distinct values give the exact median |
| OrderStatistics.SearchFindsLargest | regress.c:374-406 | a search for a stretch's last entry returns its largest, whatever lies outside |
| OrderStatistics.EvenMedianExactlyWhen | regress.c:434-447 | an even number of values gives the exact median if and only if, after the first call, no entry left of the stretch the second call searches exceeds all of that stretch |
| OrderStatistics.TieIsAtTheEntry | regress.c:402-404 | when a search takes a tie and nothing below the entry found is repeated, the place before holds that entry as well |
| OrderStatistics.LowDistinctMedianIsExact | regress.c:434-447 | the median is exact whenever no value below the upper middle one is repeated |
| OrderStatistics.TiedMedianIsWrong | regress.c:402-445 | 8 1 2 5 5 6 7 9 10 11 gives 6 where the median is 6.5 |
| OrderStatistics.Swap | regress.c:341 | exchanges two entries and leaves the others |
| OrderStatistics.ScanBoth | regress.c:387-388 | both scans, as loops |
| OrderStatistics.PartitionInPlace | regress.c:386-395 | the in-place loop is the partition on values |
| OrderStatistics.RoundInPlace | regress.c:382-396 | one round in place |
| OrderStatistics.FindRange | regress.c:372-378 | both loops over the flags find the unflagged stretch |
| OrderStatistics.FindOrderedEntry | regress.c:359-414 | array, flags and result are those of the search on values |
| OrderStatistics.MedianFrom | regress.c:440-446 | both searches in place, sharing array and flags |
| OrderStatistics.FindMedian | regress.c:434-447 | the median as the code computes it, permuting the array |
| LeastSquares.FitIsLeastSquares | regress.c:73-97 | no line has a smaller weighted squared error than the fitted one, and only the fitted one reaches it |
| LeastSquares.NormalEquations | regress.c:73-91 | the weighted residuals and their moments sum to zero for the fitted line and for no other |
| LeastSquares.ErrorAboveFit | regress.c:73-97 | the error of any line is the fitted line's plus two squares |
| LeastSquares.MeanCancels | regress.c:73-79 | deviations from the weighted mean cancel out |
| LeastSquares.SpreadIsPositive | regress.c:82-88 | V is positive as soon as one x differs from the mean, so the slope is defined |
| LeastSquares.WeightAndMean | regress.c:73-79 | the first loop computes the weighted mean |
| LeastSquares.CentredStatistics | regress.c:82-88 | the second loop computes the centred sums |
| LeastSquares.ResidualVariance | regress.c:93-97 | the third loop computes the weighted squared error |
| LeastSquares.FitLine | regress.c:73-91 | the loops together compute the fitted line |
| LeastSquares.WeightedRegression | regress.c:44-111 | the line is the least-squares one and s2 its scaled squared error |
| BestRegression.CountRuns | regress.c:195-211 | the loop counts the runs of equal sign |
| BestRegression.RunsAreFew | regress.c:195-211 | between one run and one per residual |
| BestRegression.WindowIsInside | regress.c:286-302 | the residual window starts at -m or later and never indexes past the table of critical values |
| BestRegression.FitFrom | regress.c:271-286 | the regression of a suffix |
| BestRegression.RunsOfFit | regress.c:288-300 | the runs of its residuals, the extra samples included |
| BestRegression.SpreadIsNeeded | regress.c:271-286 | the shortest suffix the loop can reach has a defined fit if and only if the last three samples are not all at the same x |
| BestRegression.SuffixIsFittable | regress.c:271-286 | then every suffix the loop reaches has a defined fit |
| BestRegression.Search | regress.c:268-312 | the loop terminates at the first start that passes |
| BestRegression.Statistics | regress.c:302-332 | the statistics ignore the extra samples |
| BestRegression.FindBestRegression | regress.c:220-338 | the result is the least-squares line of the longest acceptable suffix, with its own variance, runs and degrees of freedom |
| TokenRegisters.BitOfSetBit | cmdmon.c:357-421 | setting a bit sets that bit alone |
| TokenRegisters.SetBitExtendsOnes | cmdmon.c:381-383 | issuing extends 2^p - 1 to 2^(p+1) - 1 |
| TokenRegisters.ShiftDescribes | cmdmon.c:357-366 | shifting forgets the oldest token only |
| TokenRegisters.ReturnedMayGo | cmdmon.c:357-366 | a token that is returned may be shifted out |
| TokenRegisters.EvictDescribes | cmdmon.c:375-379 | shifting a full window evicts one outstanding token |
| TokenRegisters.IssueDescribes | cmdmon.c:381-383 | the new token was neither accepted nor evicted before |
| TokenRegisters.AcceptDescribes | cmdmon.c:407-415 | setting a returned bit accepts exactly that token |
| TokenRegisters.WindowIsOutstanding | cmdmon.c:391-421 | the unreturned positions of the window are exactly the tokens issued, not accepted and not evicted |
| TokenRegisters.Registers.constructor | cmdmon.c:277-279 | no token is outstanding |
| TokenRegisters.Registers.FitsInWord | cmdmon.c:357-421 | issued is 2^pointer - 1 with pointer at most 32, returned is a subset of it, both fit in 32 bits |
| TokenRegisters.Registers.ShiftTokens | cmdmon.c:357-366 | the loop ends with bit 0 not set in both registers |
| TokenRegisters.Registers.GetToken | cmdmon.c:370-387 | returns the next token; evicts exactly the token 32 before it if that is still outstanding |
| TokenRegisters.Registers.CheckToken | cmdmon.c:390-421 | succeeds if and only if the token was issued, not yet accepted and not evicted, and then accepts it |
| CommandProtocol.Find | cmdmon.c:600-620 | the first kept reply of that token, sequence and a smaller attempt |
| CommandProtocol.Server.constructor | cmdmon.c:267-300 | the starting state |
| CommandProtocol.Server.CheckUniqueTs | cmdmon.c:472-508 | one pass drops the stale stamps, finds duplicates and adds the new stamp |
| CommandProtocol.Server.TsIsUniqueAndNotStale | cmdmon.c:512-527 | granted if and only if new and within the margin |
| CommandProtocol.Server.LookupReply | cmdmon.c:600-620 | the reply found has its attempt raised; otherwise nothing changes |
| CommandProtocol.Server.TokenAcknowledged | cmdmon.c:627-649 | drops the acknowledged reply and the expired ones, keeping the order of the rest |
| CommandProtocol.Server.SaveReply | cmdmon.c:574-596 | the new reply joins at the front |
| CommandProtocol.Server.Receive | cmdmon.c:1908-2310 | one packet: outcome and new state for every combination of authentication, token and command |
| CommandSafety.StepKeepsSound | cmdmon.c:1968-2306 | every packet keeps tokens and kept replies in order |
| CommandSafety.AnswerKeepsSound | cmdmon.c:1968-2061 | answering with a new token keeps them in order |
| CommandSafety.RunIsSound | cmdmon.c:1908-2310 | so does every run of packets |
| CommandSafety.AtMostOncePerToken | cmdmon.c:1968-2061 | in no run do two packets with the same token both execute |
| CommandSafety.ExecutionSpendsToken | cmdmon.c:1968-2061 | a command executes only with an outstanding token, which is spent by it |
| CommandSafety.AcceptedStays | cmdmon.c:390-421 | a spent token stays spent |
| CommandSafety.KeptRepliesAreDistinct | cmdmon.c:574-649 | kept replies have pairwise distinct tokens and pairwise distinct next tokens; the next token is issued and not yet accepted |
| CommandSafety.ResendRepeatsAnswer | cmdmon.c:1974-1990 | a resend with a higher attempt gets the same message again and changes nothing but the attempt |
| CommandSafety.AnswerIsRepeatedExactlyWhen | cmdmon.c:1974-1990 | over any run, a later packet with the token and sequence of an answered one gets the same message if and only if the answer is undisturbed and the attempt is higher than any before; in no case does it execute |
| CommandSafety.ReplyIsKeptExactlyWhile | cmdmon.c:574-649 | the answer is kept, with the highest attempt seen, exactly while nobody has presented the token it carried and no token was accepted more than 300 seconds after it; then it is gone for good |
| CommandSafety.LookupKeepsReply | cmdmon.c:600-620 | a packet that looks a reply up raises the attempt of that one and keeps every other |
| CommandSafety.AcceptanceKeepsReply | cmdmon.c:627-649 | accepting a token drops exactly the reply that carried it and those too old |
| CommandSafety.GoneStaysGone | cmdmon.c:574-649 | a dropped answer never comes back |
| CommandSafety.PurgeMeans | cmdmon.c:627-649 | what remains after an acknowledgement is exactly what is neither acknowledged nor too old |
| CommandSafety.ReplayOfResendIsRefused | cmdmon.c:606-613 | the same resend twice is refused and executes nothing |
| CommandSafety.AcknowledgedReplyIsDropped | cmdmon.c:627-649 | accepting a token drops the reply that issued it |
| CommandSafety.TokenStaysGood | cmdmon.c:370-421 | an outstanding token stays so until presented or until the 32nd newer one is issued |
| CommandSafety.PurgeIsOrderly | cmdmon.c:627-649 | what remains after an acknowledgement is in order and does not hold the token |
| CommandSafety.FindIsUnique | cmdmon.c:600-620 | at most one kept reply answers a resend |
| LogonStamps.OnceExactlyWhenSteady | cmdmon.c:472-527 | no stamp is granted twice, whatever stamps are sent, if and only if the clock never overshoots and comes back |
| LogonStamps.OvershootGrantsTwice | cmdmon.c:472-527 | any overshooting clock lets some stamp be granted twice |
| LogonStamps.SteadyGrantsOnce | cmdmon.c:472-527 | a steady clock grants every stamp at most once |
| LogonStamps.MonotoneIsSteady | cmdmon.c:472-527 | a clock that never goes back is steady |
| LogonStamps.SteppedClockReplay | cmdmon.c:472-527 | a concrete clock and stamp granted twice |
| LogonStamps.RecordedMeans | cmdmon.c:472-508 | the list remembers exactly the new stamp and the old ones that are not stale |
| LogonStamps.SeenAfterRun | cmdmon.c:472-508 | after any run of packets the list holds the stamps of the log-ons in it |
| LogonStamps.RunGrantsOnce | cmdmon.c:472-527 | over any run of packets under a steady clock no stamp obtains a second token |
| AddressFilter.DeepestRuleDecides | addrfilt.c:306-345 | the verdict is that of the deepest surviving covering rule, the latest at equal depth; without a covering rule, deny; with one, some rule survives and decides |
| AddressFilter.DecisionIsMade | addrfilt.c:306-345 | AS_PARENT is never the verdict |
| AddressFilter.StateOfSurvivor | addrfilt.c:149-222 | the state of the node at depth d towards an address is that of the one surviving rule of depth d |
| AddressFilter.SomeRuleSurvives | addrfilt.c:149-222 | a covered address always has a survivor no earlier than the covering rule |
| AddressFilter.NothingDeeper | addrfilt.c:306-345 | stopping at a node without children loses no rule |
| AddressFilter.PrunedIsWellFormed | addrfilt.c:105-121 | closing a node leaves a well-formed tree |
| AddressFilter.OpenedIsNeutral | addrfilt.c:128-146 | opening a node changes no verdict |
| AddressFilter.WholeNibbles | addrfilt.c:172-187 | a subnet of whole nibbles is settled by one node |
| AddressFilter.PartNibbles | addrfilt.c:189-217 | any other subnet by 8, 4 or 2 neighbouring children from the one its address names on |
| AddressFilter.FirstBitsOf | addrfilt.c:149-222 | two addresses agree in their first bits if and only if their nibbles do |
| AddressFilter.AlignedSettlesSubnet | addrfilt.c:149-222 | a rule without bits beyond its size always fits and settles exactly the addresses that agree with it in its first bits |
| AddressFilter.UnalignedMissesAndStrays | addrfilt.c:203-216 | any other rule that fits misses an address of its subnet and takes in one outside it |
| AddressFilter.SettlesSubnetExactlyWhenAligned | addrfilt.c:203-216 | a rule settles its subnet if and only if no bit is set in the rest of its last nibble |
| AddressFilter.UnalignedRuleIsShifted | addrfilt.c:203-216 | 10.0.0.1/29 leaves out 10.0.0.0 and takes in 10.0.0.8 |
| AddressFilter.UnalignedRuleMayOverrun | addrfilt.c:203-216 | last nibble 9 of a /29: the children to settle are 9 to 16, of 0 to 15 |
| AddressFilter.NumberOfPrefix | addrfilt.c:73-82 | dropping nibbles divides the address by a power of sixteen |
| AddressFilter.NibblesAreDigits | addrfilt.c:73-82 | the nibbles taken from the words are the hexadecimal digits of the address |
| AddressFilter.GetSubnet | addrfilt.c:73-82 | the nibble is within 0 to 15 and the word index within the address |
| AddressFilter.AuthTree.constructor | addrfilt.c:86-100 | an empty tree denies |
| AddressFilter.AuthTree.OpenNode | addrfilt.c:128-146 | the node has its children and no verdict changed |
| AddressFilter.AuthTree.CloseNode | addrfilt.c:105-121 | the recursion removes exactly what lies below the node |
| AddressFilter.AuthTree.Enter | addrfilt.c:174-181 | one step down along the address |
| AddressFilter.AuthTree.Descend | addrfilt.c:172-201 | the walk stops within four bits of the subnet's size |
| AddressFilter.AuthTree.Decide | addrfilt.c:184-187 | one node is settled, with its descendants for an "all" rule |
| AddressFilter.AuthTree.DecideChildren | addrfilt.c:210-216 | the loop settles the neighbouring children and no others |
| AddressFilter.AuthTree.SetFraction | addrfilt.c:203-217 | the branch for sizes that are not a multiple of four |
| AddressFilter.AuthTree.SetNodes | addrfilt.c:172-217 | both branches have the effect of the rule on every verdict |
| AddressFilter.AuthTree.SetSubnet | addrfilt.c:149-222 | an impossible size changes nothing; otherwise the rule joins the log the tree represents |
| AddressFilter.AuthTree.CheckIpInNode | addrfilt.c:306-345 | the walk, staying within the address words, answers what the rule log decides |
| AddressFilter.AuthTable.constructor | addrfilt.c:86-100 | two empty trees |
| AddressFilter.AuthTable.SetSubnet | addrfilt.c:226-293 | a rule joins the tree of its family, or both for an unspecified address of size 0 |
| AddressFilter.AuthTable.IsAllowed | addrfilt.c:350-365 | the verdict of the address's own family; never for an unspecified address |
| Scheduler.InsertIsOrdered | sched.c:290-309 | the queue stays sorted by expiry and identifier, identifiers stay unique |
| Scheduler.ClassDelayIsLeast | sched.c:355-383 | the delay chosen is the least one not below the minimum that keeps the separation from the last dispatch and from every pending entry of the class |
| Scheduler.ScanIsClear | sched.c:365-383 | the single pass over the sorted queue keeps clear of the class |
| Scheduler.ScanIsLeast | sched.c:365-383 | and no smaller delay does |
| Scheduler.InsertSeparate | sched.c:331-402 | an entry that keeps clear keeps its class separated |
| Scheduler.StepIsSound | sched.c:273-533 | every operation leaves the queue sorted |
| Scheduler.StepKeeps | sched.c:273-533 | add, add in class, remove, dispatch and clock step keep every class separated |
| Scheduler.Run | sched.c:273-533 | so does every sequence of them |
| Scheduler.NoOvertaking | sched.c:438-478 | no operation lets a pending entry overtake another |
| Scheduler.TakeOut | sched.c:405-430 | unlinking one entry keeps order and separation of the others |
| Scheduler.ShiftKeeps | sched.c:506-533 | shifting every expiry keeps order and separation |
| Scheduler.StretchGrows | sched.c:346-350 | randomisation never shortens a delay |
| Scheduler.TimerQueue.constructor | sched.c:131-155 | an empty queue, every class apart |
| Scheduler.TimerQueue.Link | sched.c:284-309 | the loop finds the place and the entry gets a new identifier |
| Scheduler.TimerQueue.AddTimeout | sched.c:273-309 | adds exactly that entry |
| Scheduler.TimerQueue.AddTimeoutByDelay | sched.c:315-327 | adds an entry at now plus delay |
| Scheduler.TimerQueue.ClearDelay | sched.c:365-383 | the scanning loop |
| Scheduler.TimerQueue.AddTimeoutInClass | sched.c:331-402 | adds an entry at the least admissible delay |
| Scheduler.TimerQueue.RemoveTimeout | sched.c:405-430 | removes the entry of that identifier and no other |
| Scheduler.EarliestIsFirst | sched.c:449-458 | some entry is due if and only if the first one is |
| Scheduler.DispatchRemovesFirst | sched.c:455-460 | removing the first entry by its identifier takes that entry and no other |
| Scheduler.TimerQueue.DispatchNext | sched.c:438-478 | takes an entry if and only if one is due: the earliest, first in first out at ties |
| Scheduler.TimerQueue.HandleSlew | sched.c:506-533 | a clock step shifts every expiry and the dispatch times; a slew changes nothing |
| Scheduler.DescriptorSet.Add | sched.c:168-192 | one_highest_fd stays one more than the greatest member |
| Scheduler.DescriptorSet.Remove | sched.c:197-225 | the search for the new greatest descriptor ends |
| NtpAssociation.AdjustPollIsExact | ntp_core.c:368-391 | level and score stay in range and their sum changes by exactly the adjustment unless clipped |
| NtpAssociation.StartOwns | ntp_core.c:242-254 | a source without an entry gets exactly one and remembers it |
| NtpAssociation.CancelFrees | ntp_core.c:1565-1587 | removing the remembered identifier leaves the source without an entry and no other source touched |
| NtpAssociation.BackedOffIsFree | ntp_core.c:554-575 | counting unanswered packets leaves no entry |
| NtpAssociation.TransmittedOwns | ntp_core.c:515-635 | after the handler the source owns its entry exactly when not offline |
| NtpAssociation.AnsweredOwns | ntp_core.c:1071-1098 | the end of a burst removes the entry exactly when going offline |
| NtpAssociation.ReceivedOwns | ntp_core.c:1071-1184 | so does every received packet |
| NtpAssociation.TakenOfflineOwns | ntp_core.c:1565-1587 | and the offline command |
| NtpAssociation.TakenOnlineOwns | ntp_core.c:1536-1560 | and the online command |
| NtpAssociation.BurstStartedOwns | ntp_core.c:1660-1701 | and the burst command |
| NtpAssociation.CreatedOwns | ntp_core.c:258-334 | and creation |
| NtpAssociation.DestroyedOwnsNothing | ntp_core.c:338-355 | no entry outlives its instance |
| NtpWorld.DispatchFrees | sched.c:438-478 | a dispatched transmission belongs to an existing source, which then has none |
| NtpWorld.BroadcastKeepsSound | broadcast.c:123-126 | a broadcast server's timeouts belong to no source |
| NtpWorld.ForeignRemoveKeepsSound | sched.c:405-430 | a module that removes an entry of its own, queued or not, removes no transmission |
| NtpWorld.EventKeepsSound | ntp_core.c:242-1701 | every event of any source, of another module, or of the clock keeps the ownership of all sources |
| NtpWorld.Run | ntp_core.c:242-1701 | so does every run |
| NtpWorld.OneTimeoutPerSource | ntp_core.c:515-635 | after every run a source has exactly one transmission queued, the one it remembers, if and only if it is not offline; timer_running says so; absent sources have none |
| NtpWorld.FiresInBurst | ntp_core.c:577-592 | a sent packet counts the burst down and ends it at zero |
| NtpWorld.BurstIsBounded | ntp_core.c:577-592 | however timeouts and packets interleave, a burst sends at most max(1, remaining) packets |
| NtpWorld.BurstOfTotal | ntp_core.c:1660-1701 | a burst sends at most max(1, n_total_samples) packets |
| NtpMachine.Association.constructor | ntp_core.c:258-334 | the new record and its first timeout |
| NtpMachine.Association.StartInitialTimeout | ntp_core.c:242-254 | queues the first transmission |
| NtpMachine.Association.Adjust | ntp_core.c:368-391 | changes level and score as specified |
| NtpMachine.Association.TakeOffline | ntp_core.c:1565-1587 | all four modes |
| NtpMachine.Association.TakeOnline | ntp_core.c:1536-1560 | all four modes |
| NtpMachine.Association.InitiateSampleBurst | ntp_core.c:1660-1701 | clients only, all four modes |
| NtpMachine.Association.TransmitTimeout | ntp_core.c:515-635 | the whole handler, and whether a packet leaves |
| NtpMachine.Association.BackOff | ntp_core.c:554-575 | unanswered packets slow polling down and may take the source offline |
| NtpMachine.Association.CountDown | ntp_core.c:577-592 | one packet of the burst is spent |
| NtpMachine.Association.RestartTimer | ntp_core.c:595-628 | a new timeout unless offline |
| NtpMachine.Association.ReceivePacket | ntp_core.c:1050-1185 | the mode and timer part as a whole |
| NtpMachine.Association.Note | ntp_core.c:985-1049 | reachability counter and polling interval |
| NtpMachine.Association.Kiss | ntp_core.c:1051-1067 | a kiss-of-death raises the polling limits and stops the burst |
| NtpMachine.Association.CountAnswer | ntp_core.c:1072-1099 | the end of a burst |
| NtpMachine.Association.DelayAfter | ntp_core.c:1115-1176 | the delay of the next transmission in each mode |
| NtpMachine.Association.Destroy | ntp_core.c:338-355 | the queue without the source's entry |
| SourceHash.FoldIsXorOfBytes | ntp_sources.c:159-163 | the hash of an IPv4 address is the exclusive or of its bytes |
| SourceHash.SearchDecides | ntp_sources.c:163-184 | a probe that ends at a match or a free slot decides membership |
| SourceHash.NextStep | ntp_sources.c:163-184 | each probe comes closer to a free slot: the loop ends |
| SourceHash.FreeSlot | ntp_sources.c:163-184 | a table that is not full has a free slot |
| SourceHash.InsertIsSound | ntp_sources.c:189-217 | filling the slot found adds one key and leaves no hole on any probe path |
| SourceHash.TakeOut | ntp_sources.c:315-321 | clearing a slot removes one key |
| SourceHash.PartlyFilled | ntp_sources.c:335-343 | during the rehash no entry finds its address present: assert(!found) cannot fail |
| SourceHash.SourceTable.constructor | ntp_sources.c:95-108 | the empty map |
| SourceHash.SourceTable.FindSlot | ntp_sources.c:133-184 | terminates; found is 0 if and only if the address is absent, 2 if and only if the port matches too |
| SourceHash.SourceTable.AddSource | ntp_sources.c:189-217 | every error case and the map afterwards |
| SourceHash.SourceTable.RemoveSource | ntp_sources.c:307-345 | exactly that key goes |
| SourceHash.SourceTable.Rehash | ntp_sources.c:323-343 | restores the probe paths and keeps the map |
| SourceHash.SourceTable.IsKnown | ntp_sources.c:351-369 | a packet belongs to a source if and only if address and port are those of an entry |
| LinuxSlew.SlewTimeIsPositive | sys_linux.c:566-592 | a fast slew always takes a positive time |
| LinuxSlew.SlewFinishes | sys_linux.c:566-592 | a slew that runs for its time leaves nothing; for longer, what the tick does in the rest |
| LinuxSlew.TickGains | sys_linux.c:411-416 | what a changed tick gains on true time is what the driver counts as done |
| LinuxSlew.FrequencyIsExact | sys_linux.c:703-753 | a frequency within the tick's range is set exactly |
| LinuxSlew.Clock.constructor | sys_linux.c:1101-1140 | nothing is outstanding |
| LinuxSlew.Clock.GetOffsetCorrection | sys_linux.c:792-861 | the correction is exactly the outstanding offset, negated, under every mechanism |
| LinuxSlew.Clock.StopFastSlew | sys_linux.c:384-418 | what was not slewed returns to the register |
| LinuxSlew.Clock.AdjustFastSlew | sys_linux.c:425-453 | a slew restarted at a new rate keeps the outstanding offset and is queued to end when all of it is done, or at the limit |
| LinuxSlew.Clock.Advance | sys_linux.c:792-861 | while true time passes the outstanding offset changes by what is slewed and cooked time by the time passed, under every mechanism |
| LinuxSlew.Clock.GetPllConstant | sys_linux.c:360-376 | the smallest time constant slower than asked for, up to the largest |
| LinuxSlew.Clock.CancelKernelSlew | sys_linux.c:475-497 | the kernel's pending adjustment returns to the register |
| LinuxSlew.Clock.SlewByPll | sys_linux.c:499-519 | hands over all but less than a nanosecond |
| LinuxSlew.Clock.SlewByAdjtime | sys_linux.c:519-531 | hands over whole microseconds and keeps the rest |
| LinuxSlew.Clock.ChooseTick | sys_linux.c:539-562 | a tick on the right side of the current one and within limits, or the limit itself |
| LinuxSlew.Clock.SlewSeconds | sys_linux.c:566-592 | positive, at most the limit, and short of it exactly the time after which nothing is left |
| LinuxSlew.Clock.BeginFastSlew | sys_linux.c:566-600 | the register moves to the slew, and the end of the slew is queued |
| LinuxSlew.Clock.SlewByTick | sys_linux.c:532-600 | the fast slew, or none when the tick is already at its limit |
| LinuxSlew.Clock.InitiateSlew | sys_linux.c:459-603 | at most one mechanism becomes active and the outstanding offset is kept |
| LinuxSlew.Clock.LeftAtTheEnd | sys_linux.c:384-418 | a slew handled late, or early, has left what the tick does in between; on time, nothing |
| LinuxSlew.Clock.HandleEndOfSlew | sys_linux.c:610-615 | the end of a slew keeps the outstanding offset; on time, and not cut by the limit, it leaves none |
| LinuxSlew.Clock.AbortSlew | sys_linux.c:620-627 | aborting keeps it |
| LinuxSlew.Clock.AccrueOffset | sys_linux.c:637-653 | it grows by exactly the offset, up to a nanosecond lost to the PLL |
| LinuxSlew.Clock.ApplyStepOffset | sys_linux.c:658-695 | the clock jumps by the offset, the outstanding offset stays |
| LinuxSlew.Clock.SetFrequency | sys_linux.c:702-753 | a frequency change keeps the outstanding offset and the slewing tick |
| SlewRuns.Do | sys_linux.c:384-861 | every event changes outstanding offset and clock together by what it should, up to a nanosecond of each PLL hand-off |
| SlewRuns.Drive | sys_linux.c:384-861 | over every run, outstanding plus slewed equals accrued: exactly without the PLL, else to within a nanosecond per hand-off |
| SlewRuns.LetSlewFinish | sys_linux.c:532-615 | a fast slew left alone until its end takes the whole outstanding offset away |
| LocalClock.CompensationRoundTrip | local.c:363-395 | reading an absolute frequency that was set gives it back, and the other way round |
| LocalClock.FrequencyChangesCompose | local.c:414-441 | two relative changes compose multiplicatively and are read back exactly |
| LocalClock.TempCompKeepsAbsolute | local.c:623-649 | the recorded compensation leaves the absolute frequency as it was, whatever the driver set |
| LocalClock.ExactDriverRecordsComp | local.c:623-649 | an exact driver records the compensation asked for |
| LocalClock.Local.constructor | local.c:560-575 | the frequency read from the driver, no compensation |
| LocalClock.Local.CookTime | local.c:342-350 | raw time minus the outstanding offset, changing nothing |
| LocalClock.Local.AccumulateOffset | local.c:445-465 | the cooked time moves by the offset; handlers get raw, cooked and offset of the moment before |
| LocalClock.Local.ApplyStepOffset | local.c:468-488 | the raw and cooked time move by the offset, up to a nanosecond |
| LocalClock.Local.MakeStep | local.c:588-608 | steps if and only if the correction exceeds the threshold; the cooked time stays and nothing is left outstanding |
| LocalClock.Local.SetAbsoluteFrequency | local.c:382-410 | the driver is asked for the compensated value and a driver that obeys is read back exactly |
| LocalClock.Local.AccumulateDeltaFrequency | local.c:414-441 | the gradient reported is the one asked for when the driver obeys |
| LocalClock.Local.SetTempComp | local.c:623-649 | the absolute frequency does not change |
| SampleRings.IndexMaps | sourcestats.c:278-293 | both index maps count back from the newest sample and agree modulo 64 |
| SampleRings.IndexesDiffer | sourcestats.c:278-293 | no two live entries share a slot |
| SampleRings.EpochAppends | sourcestats.c:251-268 | advancing the cursor and writing appends an epoch and overwrites no live one |
| SampleRings.PeerAppends | sourcestats.c:251-268 | the same for the ring of half the size |
| SampleRings.FewerEntries | sourcestats.c:214-229 | lowering the counters drops the oldest |
| SampleRings.AppendKeeps | sourcestats.c:251-269 | one store is an append in both rings and keeps order and minimum |
| SampleRings.FirstLeastIsLeast | sourcestats.c:357-369 | the index scanned for names the first minimum |
| SampleRings.LeastSlotAppends | sourcestats.c:266-267 | comparing with the old minimum alone finds the new one |
| SampleRings.LeastSlotHolds | sourcestats.c:357-369 | min_delay_sample holds the least live delay and is not the slot written next |
| SampleRings.SampleAt | sourcestats.c:278-293 | the i-th live sample through either map |
| SampleRings.IncreasingMeans | sourcestats.c:246-250 | live epochs increase strictly |
| SampleRings.Stats.constructor | sourcestats.c:175-199 | the empty list |
| SampleRings.Stats.LiveIsNewest | sourcestats.c:284-293 | the live samples are the newest of the history kept for runs |
| SampleRings.Stats.ScanDelays | sourcestats.c:357-369 | the loop finds the least delay |
| SampleRings.Stats.FindMinDelaySample | sourcestats.c:357-369 | the slot of the least live delay |
| SampleRings.Stats.Drop | sourcestats.c:214-229 | n_samples at most 64, runs_samples at most n_samples, minimum renewed |
| SampleRings.Stats.PruneRegister | sourcestats.c:214-229 | exactly the oldest are dropped; they stay available for the runs as far as allowed |
| SampleRings.Stats.Write | sourcestats.c:251-263 | one cursor, one slot in each ring |
| SampleRings.Stats.Append | sourcestats.c:251-269 | the sample joins both lists |
| SampleRings.Stats.MakeRoom | sourcestats.c:242-244 | a full register drops its oldest live sample, which stays in the history as far as allowed |
| SampleRings.Stats.DiscardUnlessNewer | sourcestats.c:246-251 | all samples are discarded, history included, if and only if time went back |
| SampleRings.Stats.AccumulateSample | sourcestats.c:233-270 | live samples and history, with their counters: the newest of the old ones that are kept, and the new sample |
| SampleRings.Stats.DistanceAt | sourcestats.c:331-341 | the root distance of one live sample, its age never negative |
| SampleRings.Stats.ScanDistances | sourcestats.c:331-341 | the loop finds the first least root distance |
| SampleRings.Stats.FindBestSampleIndex | sourcestats.c:316-353 | the first live sample of least root distance |
| Md5.FoldOfPrefix | md5.c:153-170 | whole blocks do not depend on what follows |
| Md5.NextByte | md5.c:153-170 | one byte completes a block or joins the tail |
| Md5.CountAdds | md5.c:147-151 | the pair of words counts bits modulo 2^64, the carry found by comparing |
| Md5.PositionOf | md5.c:145 | the buffer position can be read from the bit count |
| Md5.PaddingIs | md5.c:189-191 | the padding taken from the table is that of section 3.1 of RFC 1321 |
| Md5.WordOfBytes | md5.c:158-164 | reading a word back from its bytes, low-order first |
| Md5.LastBlock | md5.c:184-200 | the padded tail with the saved count completes the digest of the whole message |
| Md5.Context.constructor | md5.c:120-131 | the empty message |
| Md5.Context.Decode | md5.c:158-163 | the words of the buffer |
| Md5.Context.Count | md5.c:147-151 | the bit count grows by the new bytes |
| Md5.Context.Absorb | md5.c:153-169 | the body of the loop |
| Md5.Context.AbsorbAll | md5.c:153-170 | chaining value and buffer are those of the whole message so far |
| Md5.Context.Update | md5.c:137-171 | the bytes join the message, in however many calls |
| Md5.Context.Final | md5.c:176-213 | the digest defined by sections 3.1, 3.2, 3.4 and 3.5 of RFC 1321 |
| Md5.Hash | hash_intmd5.c:47-64 | two parts hash as their concatenation |
| ClientLog.WalkAdds | clientlog.c:235-258 | a walk gives up no leaf, adds at most the one walked to, and fails only at the limit |
| ClientLog.WalkFinds | clientlog.c:235-258 | a known client is found again without allocating |
| ClientLog.MissingTable | clientlog.c:265-283 | a missing table means the client has no node |
| ClientLog.TurnedAwayKeepsSound | clientlog.c:287-386 | an access without a node changes no counter |
| ClientLog.CountKeepsSound | clientlog.c:287-386 | an access with one adds one to one counter |
| ClientLog.NewNodeKeepsSound | clientlog.c:205-229 | a new node starts from nothing, and nothing of its client was ever recorded |
| ClientLog.AfterIsSound | clientlog.c:287-386 | every access keeps the books |
| ClientLog.FirstAccessDecides | clientlog.c:287-386 | whether a client is counted is settled by its first access and never changes |
| ClientLog.AllOrNothing | clientlog.c:287-386 | over every run each client has all its accesses counted, kind by kind, in one node, or none in any; the counters sum to the recorded accesses |
| ClientLog.LeafCount | clientlog.c:205-229 | the side table lists every leaf once |
| ClientLog.ClientTable.constructor | clientlog.c:152-170 | the empty books |
| ClientLog.ClientTable.CheckAllocLimit | clientlog.c:182-190 | the limit flag is only ever set |
| ClientLog.ClientTable.CreateSubnet | clientlog.c:194-201 | one more table |
| ClientLog.ClientTable.CreateNode | clientlog.c:205-229 | one more node, the side table doubling when full |
| ClientLog.ClientTable.FindSubnet | clientlog.c:235-258 | the recursive walk |
| ClientLog.ClientTable.Log | clientlog.c:287-312 | what the three logging functions share |
| ClientLog.ClientTable.LogNtpClientAccess | clientlog.c:287-312 | counts a client access when active |
| ClientLog.ClientTable.LogNtpPeerAccess | clientlog.c:317-342 | counts a peer access when active |
| ClientLog.ClientTable.LogCommandAccess | clientlog.c:347-386 | counts a command access of its kind when active |
| ClientLog.ClientTable.FindNode | clientlog.c:265-283 | the walk that opens nothing finds exactly the clients with a node |
| ClientLog.ClientTable.ReportByIp | clientlog.c:440-475 | status and report of a client's own node |
| ClientLog.ClientTable.ReportByIndex | clientlog.c:479-509 | index i reports the i-th client listed |

## Left out

- Rounding: doubles are exact reals and time values are exact, so no property says anything about the
  last bits; over the reals the slew conservation is exact except where the code itself rounds.
- Pointers: sources, timer entries, kept replies, stamps and client nodes are values in sequences held
  by a class, trie nodes are named by paths. Linking, free lists, reallocation and aliasing of the
  C records are not captured, nor are the pointers back from an instance to its module.
- Wrap-around of command tokens, timeout identifiers and hit counters at the width of a machine word.
- Preferred sources do not always win an election: scores are computed for all selectable sources
  (sources.c:769-813), and the model follows that.
- Resolution of unresolved sources, the online and offline masks over many sources, and the commands
  that change parameters of a source (ntp_sources.c, ntp_core.c): simple loops and assignments.
- RGR_FindBestRobustRegression (regress.c:505-661): its bisection body runs once, so it has no
  convergence to state.
- SST_DoNewRegression, SST_SlewSamples and the averaging of filter samples: floating-point
  bookkeeping around the parts that are modelled.
- Contents of NTP packets and their validity tests; the model takes their outcome as booleans.
- Server-side replies, broadcast, authentication digests of packets; "authenticated" is an input.
- The effects of the individual commands of cmdmon.c, its packet formats and its host access check.
- The transform of MD5: an arbitrary function of chaining value and block.
- Client bitmap lookups (clientlog.c:390-434).
- Dispatch of change handlers in local.c: the values every handler is given are stated, not the loop.
- acquire.c, keys.c, reference.c, manual.c, conf.c, rtc_linux.c, the drivers of other systems and of
  reference clocks, name service, logging, sockets and the select loop.
- Selection.SourceTable.SelectSource: requires that no swept interval is upside down and, in case a majority agrees, that no score is divided by a distance of zero and that the assertion of the score loop holds (Selection.SomeoneLeads); otherwise the arithmetic over the reals is undefined or the program ends at the assertion.
- OrderStatistics.MedianIsExact: for an even number of values states one direction; the exact condition is stated by OrderStatistics.EvenMedianExactlyWhen.
- LeastSquares.WeightedRegression: does not state the standard deviations of intercept and slope, because they need square roots.
- BestRegression.FindBestRegression: the table of critical numbers of runs is a parameter and the standard deviations are not stated; the last three x values are required not to be all equal, without which the shortest suffix has no fit.
- AddressFilter.AuthTree.SetSubnet: requires, for a size that is not a multiple of four, that the last nibble plus the number of children to settle is at most 16, because the code does not mask the nibble and writes past the children otherwise.
- Scheduler.TimerQueue.DispatchNext: one turn of the loop; the handler runs between turns and is an operation of its own.
- NtpMachine.Association.ReceivePacket: covers mode, timer, burst and polling interval; the statistics of the sample are not part of it.
- LinuxSlew.Clock.SetFrequency: requires, during a fast slew, that the new tick differs from the slewing tick, because the code then divides by a tick difference of zero.
- LinuxSlew.Clock.GetOffsetCorrection: the kernel's pending adjustment is one exact number; the error estimate of the slew is not modelled.
- LinuxSlew.Clock.Advance: true time is that of a clock running at the current frequency; drift between frequency changes is not modelled.
- SlewRuns.Drive: a frequency change that would make the slew in progress void is skipped, as LinuxSlew.Clock.SetFrequency is not defined for it.
- LocalClock.Local.MakeStep: in the instant of the call, with no time passing between reading and stepping the clock.
- ClientLog.AllOrNothing: with logging active over the whole run.
