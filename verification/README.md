# EarlyBird: a verified model of its locator, picker, filters, trace buffers and configuration editor

EarlyBird is a seismic early-warning library (`libsrc`) with a control program
for Earthworm (`ew_controller`). This project models the parts of it that decide
something: where an earthquake was and which picks to believe, when a station
has a P-pick or an alarm, how a trace is filtered, stored and repaired, and how
a configuration file survives being edited.

Code that works in place is modelled in place: methods with loops over arrays,
and classes whose methods change their fields. Each such method is proved equal
to a function of its old state, and the properties are proved about that function
for all inputs, all runs or all reachable states.

| file | what it models |
|---|---|
| `Determinant.dfy`, `Elimination.dfy`, `Cramer.dfy`, `LeastSquares.dfy`, `StepWitnesses.dfy` | the determinant by elimination, the linear solver, and one Gauss-Newton step of the locator |
| `BadPicks.dfy`, `PickRemoval.dfy` | the search for one, two or three bad picks, and what it does to the use flags |
| `AzimuthGap.dfy` | the azimuth coverage |
| `ComplexNumbers.dfy`, `BandPass.dfy`, `Bilinear.dfy` | the design of the band-pass filter |
| `Cascade.dfy`, `FilterRun.dfy`, `DesignedFilter.dfy` | the filter at work, packet by packet and on the ring, and with the coefficients designed for it |
| `MovingAverage.dfy`, `PickMachine.dfy`, `PickInvariants.dfy`, `PickHistory.dfy`, `PickRuns.dfy`, `PickAverages.dfy`, `PickDecisions.dfy`, `Station.dfy` | the Veith P-picker: its averages, its three phases, their invariants, the history behind a pick, its runs from packet to packet and from trigger to decision, every decision in terms of the signal, and the station object |
| `RegionAlarm.dfy`, `SeismicAlarm.dfy` | the regional and the single-station alarm |
| `DiskRing.dfy` | the circular trace buffer filled from disk files |
| `GapRepair.dfy` | marking, interpolating and filling gaps, and removing the offset |
| `ConfigLine.dfy`, `ConfigFile.dfy` | the `.d` file editor |
| `Reals.dfy` | absolute value and the cast from double to long |

`dafny verify dfyconfig.toml` checks the whole project.

## How the source is read

- `double` and `float` are real numbers; casts to integers truncate toward zero.
  `sqrt` is a parameter known only to be nonnegative and to square back.
- Raw samples have 32 bits, as every writer of the trace buffer stores them, and pick
  times are seconds since 1970. Results that need either say so.
- Sample times in the trace buffer are whole ticks. The picker and the alarms take
  the time of each sample as a real number.
- The locator inside the bad-pick search is a function of the use flags and of the
  starting locator. A mean residual is below 1e20 seconds; results that need it say so.
- The magnitude routine called by the picker reports one of three outcomes, chosen
  freely for each sample.
- Calls that report a pick or an alarm are results of the methods.

## Where the code does not do what one would expect

The model follows the code. The members named give concrete inputs, and the exact
condition for the expected behaviour.

- The determinant routine leaves early with 0 on a pivot below 1e-12 with zeros
  under it, even when the determinant is not 0 (`DetaIsDetIff`).
  At the sizes the locator uses it can take a regular normal matrix for singular, and
  it can spoil a numerator so that the step is not the best one (`LossyMatrixExists`,
  `LossyNumeratorExists`, `CorrectionMinimisesIff`).
- A genuine first unknown of 111 reads as a failure of the solver
  (`RefusedSolutionExists`, `FirstUnknownIff`).
- The bad-pick search starts from index 0, so it drops pick 0, protected or not, when
  fewer picks may be removed than the stage takes out (`OnlyOnesClearedIff`,
  `FirstPickKeptIff`, `NoneRemovableHarms`, `AllProtected`).
- A disk file too far back drives the ring index below zero, and an oversized file
  moves the window although none of its samples is stored (`FarBackFails`,
  `OversizedFirstFails`, `FitsIff`).
- Removing the offset can make a gap mark out of a sample (`GapCanAppear`,
  `GapPositionsIff`).
- The comment on the second pass of the dropout repair expects long runs to be
  skipped there; no such run is left by then (`ZeroRunIsShort`).
- A NUL, or 1023 characters in a row without a newline and with something after them,
  keep a configuration file from surviving being loaded and saved (`SaveLoadIff`), and
  some new values do not survive being read back (`EditIff`, `EditFileIff`,
  `EditCanFail`).

## Model

| member | source | states |
|---|---|---|
| Elimination.FindPivot | libsrc/locquake.c:910-914 | returns the row below the diagonal with the largest entry of the column in absolute value (the first on a tie), or -1 when all of them are zero |
| Elimination.SwapRows | libsrc/locquake.c:915-920 | exchanges two rows of the leading block and nothing else |
| Elimination.EliminateColumn | libsrc/locquake.c:925-926 | reduces one column below the pivot row by the multiples of the pivot row and leaves every other entry alone |
| Elimination.Eliminate | libsrc/locquake.c:923-926 | leaves, as the rows below the pivot, exactly the block whose determinant times the pivot is that of the block before |
| Elimination.EliminationPass | libsrc/locquake.c:904-928 | one pass either reports a tiny pivot with only zeros below it, or returns the signed pivot and leaves the next trailing block |
| Elimination.EliminationStep | libsrc/locquake.c:904-928 | what every pass keeps: the determinant of the block is the returned factor times the determinant of the trailing block, row exchange included |
| Elimination.QuakeDeta | libsrc/locquake.c:898-931 | the in-place elimination returns the product of the signed pivots met, or 0 at the early exit |
| Elimination.DetaIsDet | libsrc/locquake.c:898-931 | for every size, the routine returns the determinant (expansion along the first column) unless it takes the early exit |
| Elimination.DetaIsDetIff | libsrc/locquake.c:898-931 | it returns the determinant if and only if it does not leave early on a pivot that is tiny but not zero with a regular block beside it |
| StepWitnesses.LossyMatrixExists | libsrc/locquake.c:908-914 | the same for a 3 x 3 normal matrix of four picks whose determinant is above the tolerance of the solver: it is taken for singular |
| Determinant.DetSwap | libsrc/locquake.c:915-921 | exchanging two rows negates the determinant |
| Determinant.DetAddFirstRow | libsrc/locquake.c:923-926 | adding a multiple of the pivot row to a later row keeps the determinant |
| Determinant.DetSchur | libsrc/locquake.c:923-927 | the determinant is the pivot times the determinant of the updated trailing block |
| Cramer.CopyBlock | libsrc/locquake.c:938-939 | copies the leading block |
| Cramer.SetColumn | libsrc/locquake.c:951 | puts the right-hand side into one column of the leading block |
| Cramer.QuakeDets | libsrc/locquake.c:933-955 | with a denominator below 1e-13 the first unknown becomes 111 and nothing else changes; otherwise every unknown is the quotient of the two values that the determinant routine returns |
| Cramer.CramersRule | libsrc/locquake.c:947-954 | a solution of the system times the determinant is the determinant with the column replaced |
| Cramer.QuotientsSolveIff | libsrc/locquake.c:933-955 | with an accepted denominator the unknowns solve the linear system if and only if no numerator determinant makes a lossy early exit |
| Cramer.RegularIsSolvable | libsrc/locquake.c:933-955 | a system with nonzero determinant has a solution, so that the previous row is not vacuous |
| LeastSquares.FillColumns | libsrc/locquake.c:1048-1095 | the flattened columns hold, pick by used pick, the design entries and the residual, the residual standing in column 3 as well when the depth is fixed |
| LeastSquares.BuildNormal | libsrc/locquake.c:1108-1124 | builds exactly the normal matrix and right-hand side of the design columns, for 3 unknowns and for 4 |
| LeastSquares.Correct | libsrc/locquake.c:1103-1141 | the step is refused if and only if the denominator is below the tolerance or the first numerator is 111 times it; otherwise the undamped step is that of QuakeDets on the normal equations, and each component is damped exactly so |
| LeastSquares.NormalEquationsMinimise | libsrc/locquake.c:1108-1124 | a solution of the normal equations has a sum of squared residuals no larger than that of any other step, for any number of picks |
| LeastSquares.CorrectionMinimises | libsrc/locquake.c:1108-1124 | the step QuakeDets returns minimises the sum of squared residuals over all steps when no numerator makes a lossy exit |
| LeastSquares.CorrectionMinimisesIff | libsrc/locquake.c:1108-1124 | and then only: with a lossy numerator some other step is better |
| LeastSquares.SolveStep | libsrc/locquake.c:1048-1141 | from the picks to the step: when it is refused, its damping, and that undamped it leaves the least sum of squares if and only if no numerator makes a lossy exit; what a step leaves of a pick is written out in the fields of the pick: dRes - dt - dlat dadd dCooze + dlon dadd dSnooze dSinlat + ddepth 0.1 dadh, the last term only with a free depth |
| LeastSquares.FirstUnknownIff | libsrc/locquake.c:1126-1128 | the first unknown is 111 if and only if its numerator is 111 times the denominator |
| StepWitnesses.LossyNumeratorExists | libsrc/locquake.c:947-954 | four picks whose step is accepted although a numerator makes a lossy exit, and is not the best one |
| StepWitnesses.RefusedSolutionExists | libsrc/locquake.c:1126-1128 | four picks whose step is refused although the matrix is regular and (111, 0, 0) solves the equations |
| BadPicks.CountUsed | libsrc/locquake.c:116-118 | counts the picks in use that have a P time |
| BadPicks.Try | libsrc/locquake.c:140-159 | tries one set of picks: the flags come back as they were, and the better of the set and the best so far is kept, with the locator that was used |
| BadPicks.SearchOne | libsrc/locquake.c:136-160 | finds the first minimiser of the residual among all single picks that may be removed, if one comes out below 1e20 |
| BadPicks.SearchTwo | libsrc/locquake.c:174-205 | the same among all pairs, in the order of the nested loops |
| BadPicks.SearchThree | libsrc/locquake.c:221-257 | the same among all triples |
| BadPicks.FindBadPs | libsrc/locquake.c:98-265 | the flags that are left behind, stage by stage, with the gates on the number of used picks, the verdict on the solution, and the restoring of the flags between the stages |
| BadPicks.RemovesFirstMinimiser | libsrc/locquake.c:98-265 | when every stage that ran found a set below 1e20, the picks removed are exactly the first set of the last stage with the least residual, the residual being that of the second locator exactly when both are asked for and the verdict on the first is bad; every other flag (protected and manual ones included) is untouched |
| BadPicks.OthersUnharmed | libsrc/locquake.c:98-265 | on every outcome without any premise, a pick other than the first one is only ever changed from 1 to 0 |
| PickRemoval.FirstPickKeptIff | libsrc/locquake.c:98-265 | a first pick that must not be removed survives if and only if every stage that will run, foreseen from the flags, the verdicts and the residuals, has a set below 1e20 |
| PickRemoval.RunsAsForeseen | libsrc/locquake.c:98-265 | as long as every stage finds a set, how many stages run is foreseen from the number of picks in use and the verdicts, of the second locator where it was tried |
| PickRemoval.FirstStageEmpty | libsrc/locquake.c:162-172 | when the first stage finds no set it drops pick 0, and the verdict of the first locator decides whether a second stage follows |
| PickRemoval.SecondStageEmpty | libsrc/locquake.c:207-219 | when only the second stage finds none it drops pick 0 with the choice of the first, and the locator kept for that choice decides |
| PickRemoval.LocatableIff | libsrc/locquake.c:136-257 | with residuals below 1e20 a stage finds a set exactly when enough picks may be removed |
| PickRemoval.OnlyOnesClearedIff | libsrc/locquake.c:98-265 | for every flag of the first pick and residuals below 1e20: only picks in use are dropped and nothing else changes, exactly when the first pick need not be kept or as many picks may be removed as the last stage takes out, a number foreseen from the flags, the verdicts and the residuals |
| PickRemoval.UnusedStaysOff | libsrc/locquake.c:167-218 | with residuals below 1e20 an unused first pick never comes back in use, although the restoring between the stages can switch it on |
| PickRemoval.EnoughPicksAreSafe | libsrc/locquake.c:98-265 | with as many removable picks as the last stage takes out, the removal is exactly the first minimiser of that stage |
| PickRemoval.FourPicksRemain | libsrc/locquake.c:98-265 | it drops as many used picks as the last stage takes out, and at least four used picks remain |
| PickRemoval.ThreeRemovableAreSafe | libsrc/locquake.c:98-265 | three removable picks are always enough |
| PickRemoval.NoneRemovableHarms | libsrc/locquake.c:112-114 | with five used picks and none that may be removed, a first pick that must be kept always loses its flag |
| BadPicks.AllProtected | libsrc/locquake.c:112-114 | with nothing but protected picks the first one is dropped |
| AzimuthGap.Collect | libsrc/locquake.c:861-868 | gathers the azimuths of the usable picks in order |
| AzimuthGap.SortAzimuths | libsrc/locquake.c:873-883 | the exchange sort yields a sorted permutation |
| AzimuthGap.LargestGap | libsrc/locquake.c:886-894 | returns the largest of the gaps between neighbours, the gap through north included |
| AzimuthGap.QuakeAzimuthSort | libsrc/locquake.c:853-896 | returns 0 without usable picks and otherwise 360 less the largest empty arc, truncated |
| AzimuthGap.MaxGapIsLargest | libsrc/locquake.c:886-895 | the largest neighbour gap is the length of the largest arc of the circle with no azimuth inside |
| AzimuthGap.GapsMakeCircle | libsrc/locquake.c:886-893 | the gaps of the sorted azimuths add up to 360 |
| AzimuthGap.CoverageBounds | libsrc/locquake.c:853-896 | with n usable picks the result lies between 0 and 360 - 360/n |
| ComplexNumbers.CsqrtSquares | libsrc/complex.c:105-142 | Csqrt squares back to its argument and lies in the right half-plane |
| ComplexNumbers.CdivMul | libsrc/complex.c:62-86 | Cdiv followed by Cmul gives the dividend back |
| ComplexNumbers.NoZeroDivisors | libsrc/complex.c:35-43 | a product vanishes exactly when a factor does |
| BandPass.BandRootsSumAndProduct | libsrc/filters.c:581-589 | the two roots computed for a complex pole have sum b p and product a |
| BandPass.BandSectionsMeaning | libsrc/filters.c:567-619 | the sections of any pole list multiply to the low-pass transfer function at (s^2+a)/(b s), for every s |
| Bilinear.Lptbpa | libsrc/filters.c:567-619 | the loop writes exactly those sections into the coefficient arrays |
| Bilinear.Bilin2 | libsrc/filters.c:191-215 | the in-place transform replaces every section by its bilinear image |
| Bilinear.DigitalMeaning | libsrc/filters.c:191-215 | the bilinear image of a cascade, evaluated at w = 1/z, is the cascade at (1-w)/(1+w), up to one factor common to numerator and denominator |
| Bilinear.DesignMeaning | libsrc/filters.c:567-619 | both passes together preserve the transfer function: denominator = low-pass denominator times numerator at u = (s^2+a)/(b s) |
| Bilinear.DesignTransfer | libsrc/filters.c:437-454 | the same as an equality of quotients wherever the cascade denominator does not vanish |
| Bilinear.DesignStable | libsrc/filters.c:567-619 | for poles in the left half-plane and 0 < low < high, every emitted section lies in the stability triangle and has numerator g (1 - 1/z^2) with g > 0 |
| Bilinear.TriangleHasNoRoot | libsrc/filters.c:197-214 | a section in the triangle has no pole on or outside the unit circle |
| Bilinear.CascadeHasNoPole | libsrc/filters.c:437-454 | nor has any cascade of such sections |
| Bilinear.DesignFilter | libsrc/filters.c:437-454 | the two passes run on the coefficient arrays leave only stable sections, those of the design |
| Cascade.OrderDoesNotMatter | libsrc/filters.c:44-68 | taking each sample through all sections equals running each section over the whole signal, outputs and memories alike |
| Cascade.CascadeRunSplits | libsrc/filters.c:44-68 | the run over two pieces with the memory carried over is the run over both |
| Cascade.SectionTransfer | libsrc/filters.c:662-671 | one section from any memory obeys its transfer function: D Y = N X + I(before) - w^n I(after) |
| Cascade.RunTransfer | libsrc/filters.c:44-68 | the whole cascade, before truncation, obeys the product transfer function of its sections |
| FilterRun.FilterState.SectionStep | libsrc/filters.c:662-671 | one second-order step on the saved state of one section |
| FilterRun.FilterState.Apiir | libsrc/filters.c:44-68 | overwrites the packet with its filtered samples, saves the state and counts the samples |
| FilterRun.FilterState.ApiirG | libsrc/filters.c:115-149 | filters a segment of the ring as apiir filters the unrolled segment, from cleared state when asked to, and touches no other cell |
| FilterRun.CuttingDoesNotMatter | libsrc/filters.c:44-68 | any cutting of the signal into packets gives the same samples |
| DesignedFilter.DesignedRun | libsrc/filters.c:278-315 | from any saved state and for any signal the designed sections, before truncation, obey the low-pass prototype at u = (s^2+a)/(b s) |
| DesignedFilter.FilterPacket | libsrc/filters.c:278-315 | coefficients first, then the packet: the samples written are those of a stable cascade that obeys the low-pass prototype |
| DiskRing.Channel.ScrollBack | libsrc/diskrw.c:243-259 | bookkeeping for a file that starts before the window |
| DiskRing.Channel.ScrollForward | libsrc/diskrw.c:260-281 | bookkeeping for a file that ends after the window |
| DiskRing.Channel.MoveWindow | libsrc/diskrw.c:233-294 | window, index, write position and next index after any file, whether it fits or not |
| DiskRing.Channel.WriteSamples | libsrc/diskrw.c:298-350 | the samples land in consecutive cells round the ring, in one piece or two; a file with more samples than cells is refused and changes no cell |
| DiskRing.Channel.ReadDiskData | libsrc/diskrw.c:233-352 | the whole load of one channel, a refused file included |
| DiskRing.FitsIff | libsrc/diskrw.c:244-281 | the index stays inside the buffer and the window within its length if and only if the jump and a first file are within stated bounds |
| DiskRing.FarBackFails | libsrc/diskrw.c:243-251 | for every buffer and sound window, a backward jump one tick too far leaves the index at -1 |
| DiskRing.OversizedFirstFails | libsrc/diskrw.c:300-306 | an oversized first file is refused and changes no cell, but leaves a window longer than the buffer |
| DiskRing.FirstFileRestores | libsrc/diskrw.c:233-242 | the next first file that fits makes the window sound again |
| DiskRing.SmallJumpsAllFit | libsrc/diskrw.c:243-281 | files of at most a buffer with jumps of at most a buffer always fit |
| DiskRing.UnwrappedStartsAtZero | libsrc/diskrw.c:241-276 | the wrap flag is set exactly when the start of the window has moved since the first file; until then the window starts at cell 0 and its samples lie in order from there |
| DiskRing.WindowIsShown | libsrc/diskrw.c:233-281 | what a load that fits shows: a first file alone, and otherwise the old stretch drawn out to where the file begins or, if it does not begin earlier, to where it ends, cut to one buffer counted from there |
| DiskRing.RunIsShown | libsrc/diskrw.c:233-281 | the same over any sequence of loads that fit |
| DiskRing.KnownAfterLoadIff | libsrc/diskrw.c:243-281 | how much a load keeps: a known time is lost exactly when a first file is read, or it lies a buffer or more after the start of a file that begins earlier, or a buffer or more before the last tick of another file that ends later |
| DiskRing.KnownIff | libsrc/diskrw.c:233-352 | over any sequence of loads that fit, a time is known if and only if its sample arrived and no later load displaced it in that way |
| DiskRing.LoadHolds | libsrc/diskrw.c:233-350 | one load keeps the ring in step with a map from time to sample |
| DiskRing.RunHolds | libsrc/diskrw.c:233-350 | over any sequence of loads every recorded time still in the window is in cell (index + t - start) mod C |
| DiskRing.CellIsRemainder | libsrc/diskrw.c:278-281 | the cell arithmetic by conditional subtraction is the remainder |
| DiskRing.LatestFileWins | libsrc/diskrw.c:298-350 | the sample found for a time is that of the last file that covered it |
| DiskRing.RunIsFull | libsrc/diskrw.c:233-350 | with contiguous files every time in the window can be read back |
| DiskRing.NextFollowsNewest | libsrc/diskrw.c:289-294 | the mark for the next packet is one past the newest sample |
| GapRepair.MarkLongRuns | libsrc/dataprocessing.c:173-190 | the first pass marks exactly the runs of zeros that reach the threshold |
| GapRepair.ZeroRunIsShort | libsrc/dataprocessing.c:198-202 | after the first pass no run of zeros reaches the threshold, so the test for it in the second pass is never true |
| GapRepair.RepairShortRuns | libsrc/dataprocessing.c:192-218 | the second pass interpolates a short run between valid neighbours and marks any other |
| GapRepair.RunRepaired | libsrc/dataprocessing.c:192-218 | a short run of zeros between valid samples becomes the straight line between its neighbours, truncated, and every other run is marked |
| GapRepair.MarkZeroDropouts | libsrc/dataprocessing.c:166-219 | the two in-place passes equal one function of the original array, cell by cell |
| GapRepair.RepairedIsMonotone | libsrc/dataprocessing.c:211-216 | interpolated samples form a monotone path between their two original neighbours |
| GapRepair.GapIff | libsrc/dataprocessing.c:166-219 | exactly which samples read as a gap afterwards |
| GapRepair.FillInternalGaps | libsrc/dataprocessing.c:103-151 | the three in-place loops equal one function of the original array |
| GapRepair.GapFilled | libsrc/dataprocessing.c:134-139 | a gap between two valid samples is filled by the straight line between them, the step truncated |
| GapRepair.FilledPath | libsrc/dataprocessing.c:134-139 | an inner gap is filled by a monotone path between its valid neighbours |
| GapRepair.EdgesFilled | libsrc/dataprocessing.c:120-149 | the first and the last valid value reach out to the edges |
| GapRepair.GapLeftIff | libsrc/dataprocessing.c:103-151 | exactly which samples read as a gap after the filling |
| GapRepair.NoGapLeft | libsrc/dataprocessing.c:103-151 | given one valid sample, no gap mark is left; samples have at most 32 bits, as every writer of the buffer stores them |
| GapRepair.DemeanTrace | libsrc/dataprocessing.c:224-243 | the output is the truncated distance to the mean of the valid samples, gaps staying gaps |
| GapRepair.DemeanedIs | libsrc/dataprocessing.c:224-243 | a valid sample becomes its distance to the mean of the valid samples, truncated |
| GapRepair.OffsetRemoved | libsrc/dataprocessing.c:224-243 | the residuals of the valid samples add up to less than their number |
| GapRepair.GapPositionsIff | libsrc/dataprocessing.c:236-242 | a sample reads as a gap exactly when it was one or its distance to the mean reaches the mark |
| GapRepair.GapCanAppear | libsrc/dataprocessing.c:236-241 | two 32-bit samples for which the second case happens |
| ConfigLine.ParseLine | ew_controller/ew_controller.c:499-568 | the pointer scans split a line as the specification does, quotes honoured |
| ConfigLine.RenderParse | ew_controller/ew_controller.c:646-657 | writing a parsed line gives back the line |
| ConfigLine.ParseIsWellFormed | ew_controller/ew_controller.c:499-568 | which field combinations parsing can give |
| ConfigLine.ParseRenderIff | ew_controller/ew_controller.c:499-568 | a line written and parsed again is unchanged if and only if it is such a combination |
| ConfigLine.EditIff | ew_controller/ew_controller.c:1229-1234 | with one value replaced the line reads back with only that change if and only if the value fits between its neighbours |
| ConfigLine.EditCanFail | ew_controller/ew_controller.c:1229-1234 | a value with a leading blank, or a bare hash, does not survive |
| ConfigFile.CfgFile.Load | ew_controller/ew_controller.c:577-604 | the reading loop yields one line per buffer and notes whether the last one ended with a newline |
| ConfigFile.CfgFile.Save | ew_controller/ew_controller.c:634-660 | the bytes written |
| ConfigFile.CfgFile.SetValues | ew_controller/ew_controller.c:1229-1234 | every line with an entry field takes its value, the others stay |
| ConfigFile.CfgFile.Rewrite | ew_controller/ew_controller.c:577-660 | loading and saving gives back every byte if and only if there is no NUL and no line too long for the buffer |
| ConfigFile.SaveLoadIff | ew_controller/ew_controller.c:577-660 | the same for the model |
| ConfigFile.LoadSavedIff | ew_controller/ew_controller.c:577-660 | saving and loading gives back the same lines if and only if each is well formed and fits the buffer |
| ConfigFile.EditFileIff | ew_controller/ew_controller.c:1229-1234 | after any edits, saving and loading gives back the model with only those values changed if and only if each value fits its line and the line the buffer |
| ConfigFile.CfgFile.SaveEdits | ew_controller/ew_controller.c:1222-1235 | the save button: the edited values are in the model, and the bytes written read back as the model exactly under that condition |
| RegionAlarm.Alarms.MatchPick | libsrc/get_pick.c:50-84 | a pick of a station of the region: the list, its count and the alarm; every slot written is inside the array of 50 |
| RegionAlarm.Alarms.ScanRegion | libsrc/get_pick.c:47-85 | the loop over the stations of a region, left early at a station already alarmed |
| RegionAlarm.Alarms.CheckForAlarm | libsrc/get_pick.c:40-88 | the loop over the regions, which that jump leaves too; each list stays distinct, of its region, and below the threshold |
| RegionAlarm.FreeSlot | libsrc/get_pick.c:63-64 | pigeonhole: a station of the region that is not yet listed finds a free slot |
| RegionAlarm.RunOk | libsrc/get_pick.c:46-86 | over any sequence of picks the lists stay sound and stand for picks of the history |
| RegionAlarm.AlarmIsWitnessed | libsrc/get_pick.c:67-74 | every alarm rests on exactly as many picks as the threshold asks, in order, of distinct stations of the region, each strong enough, within the time limit |
| RegionAlarm.BurstRaisesAlarm | libsrc/get_pick.c:47-82 | and conversely, whatever list the region holds: strong picks of distinct stations within the limit after a first one for which the list is out of date raise the alarm at the pick that completes the threshold |
| RegionAlarm.AlarmIff | libsrc/get_pick.c:47-74 | from any list and whatever weak, foreign or repeated picks come between: as long as the picks that count are in time, the alarm is raised at exactly the pick that brings the stations up to the threshold, and leaves the list empty |
| RegionAlarm.LatePickStartsList | libsrc/get_pick.c:76-82 | a pick that counts and comes too late for the list starts a new one |
| RegionAlarm.RegionsInTurn | libsrc/get_pick.c:40-88 | several regions are served in turn, each as if it were alone, up to the first that has the pick on its list already; the others then miss it |
| RegionAlarm.WitnessesAreClose | libsrc/get_pick.c:54-55 | when the first of them is not earlier than time zero, all of them lie less than the limit after it |
| RegionAlarm.FarPairIff | libsrc/get_pick.c:54-74 | with a threshold of 2, a pick can be joined by one outside the limit if and only if it is earlier than time zero, which a time since 1970 is not |
| SeismicAlarm.Detector.Evaluate | libsrc/get_pick.c:1002-1061 | one pass of the sample loop |
| SeismicAlarm.Detector.Packet | libsrc/get_pick.c:975-1063 | a packet is a run of samples, and the alarms reported are those of the run |
| SeismicAlarm.AlarmIff | libsrc/get_pick.c:1002-1051 | over any run an alarm is raised at a sample if and only if the first sample over the threshold after a point at which the station was watching begins a chain of answers, each the first of the other sign over the threshold and in time, that with this sample and not before has lasted longer than dAlarmDur |
| SeismicAlarm.ChainRaisesAlarm | libsrc/get_pick.c:1002-1051 | and such a chain raises no earlier alarm |
| SeismicAlarm.QuietStays | libsrc/get_pick.c:1016-1022 | a station that watches goes on watching while no sample is over the threshold |
| SeismicAlarm.StaleChainEnds | libsrc/get_pick.c:1031-1034 | a link that is not answered in time ends phase 1 without an alarm, and the station watches again |
| SeismicAlarm.PauseEnds | libsrc/get_pick.c:1002-1012 | an alarm begins a pause in which nothing changes, and the first sample later than the timeout makes the station watch again |
| SeismicAlarm.PhaseEndsWhenStale | libsrc/get_pick.c:1031-1034 | phase 1 ends without an alarm only when its last link was not answered in time |
| SeismicAlarm.AlarmsAreApart | libsrc/get_pick.c:1002-1012 | two alarms of a station are more than the timeout apart |
| SeismicAlarm.RunJoins | libsrc/get_pick.c:975-1063 | two packets in turn are one run over both |
| MovingAverage.BlockEndHasCycles | libsrc/get_pick.c:303-324 | the divisor of the half-cycle average is positive at every block end |
| MovingAverage.AvgStepInv | libsrc/get_pick.c:279-379 | every call keeps the counters in range and the averages and thresholds from going negative |
| MovingAverage.SignalIsBooked | libsrc/get_pick.c:279-379 | over any signal the averages, thresholds, counters and status are those of books kept on the signal itself: half-cycles closed by a change of sign or after N differences, block means at every L samples, midpoints once there is an average |
| MovingAverage.OpenHalfCycle | libsrc/get_pick.c:345-379 | the half-cycle in progress holds at most N differences, all of one sign |
| PickAverages.RunAverages | libsrc/get_pick.c:511-796 | over any run of PickV, with its triggers, resets, picks and restarts, the averages are those of MovingAvg alone over the samples since the last start |
| PickAverages.RunIsBooked | libsrc/get_pick.c:279-379 | so over any run of PickV they are those of the books of the samples since the last start |
| PickInvariants.PhaseStepInv | libsrc/get_pick.c:683-752 | Phase 3 implies Phase 2 implies Phase 1, hits and misses match the counter of the phase, and the age of a trigger grows by one a sample |
| PickInvariants.AgeBound | libsrc/get_pick.c:684-722 | a trigger under test is younger than 15 N samples |
| PickInvariants.OscCycle | libsrc/get_pick.c:576-600 | the half-cycles booked cover the reversals counted and the one in progress |
| PickInvariants.CountAtPhase3 | libsrc/get_pick.c:754-762 | so the divisor of the strength is at least 6 |
| PickInvariants.FrequencyBound | libsrc/get_pick.c:745-747 | a frequency measured over at most 16 N samples is at least 3 fs / (8 N) |
| PickInvariants.SampleInv | libsrc/get_pick.c:511-796 | every sample keeps all invariants, whatever the calibration test reports |
| PickHistory.DecidedInTime | libsrc/get_pick.c:634-752 | a trigger stays undecided for at most 15 N - 1 samples in a row |
| PickHistory.RunWitnessed | libsrc/get_pick.c:634-752 | along every run the phase counters are those of a stretch of consecutive samples since the trigger |
| PickHistory.PickIsWitnessed | libsrc/get_pick.c:634-779 | every pick declared is witnessed by consecutive samples: at most 3 N of Phase 2 with at least N hits, never more misses than hits and one exceedance, then at most 12 N of Phase 3 with six reversals; its frequency is at least 3 fs / (8 N) |
| PickRuns.RunWaitedNothing | libsrc/get_pick.c:916-950 | along every run the wait counter, which the reset of a candidate leaves alone, is zero until Phase 3 is passed |
| PickRuns.DecidedAfterPhase3 | libsrc/get_pick.c:624-632 | from the sample that passes Phase 3 on, and while nothing points to a calibration, the pick is declared or rejected on exactly the sample that completes three seconds |
| PickDecisions.DeclaredIff | libsrc/get_pick.c:754-790 | and that sample declares the pick if and only if its strength exceeds dSNLocal or its frequency is below dMinFLoc, and rejects it otherwise; the strength is the mean absolute half-cycle booked since the trigger over the threshold saved at the trigger, or over 1 when that is below 0.0001 |
| PickDecisions.DecisionIs | libsrc/get_pick.c:754-790 | the same for every decision of any run, with the strength and the frequency reported |
| PickDecisions.RunRemembers | libsrc/get_pick.c:576-747 | over any run: the running half-cycle, the half-cycles booked since the trigger, the thresholds and the time that the trigger saved, and six half-cycles over the samples counted as the frequency, all in terms of the signal |
| PickDecisions.SenseIs | libsrc/get_pick.c:634-701 | what a tested sample is taken for: the half-cycle in progress against the saved threshold, its sign, and the sample against the amplitude threshold |
| PickDecisions.TestedIff | libsrc/get_pick.c:634-752 | a tested sample triggers, fails, goes on or passes Phase 2 and Phase 3 exactly as the samples since the trigger call for, in hits, misses and reversals |
| PickDecisions.RestartsIff | libsrc/get_pick.c:560-600 | the station starts over exactly when it has been picked longer than both limits, or a calibration is over; then everything but the last frequency is cleared |
| PickDecisions.CalibrationHolds | libsrc/get_pick.c:586-602 | a calibration is noted exactly when it is reported at a change of sign after the trigger, and nothing is declared or rejected while it lasts |
| PickRuns.TriggerIsSettled | libsrc/get_pick.c:634-790 | while nothing points to a calibration, at most 15 N samples and three seconds after a trigger the pick has been declared or rejected, or the candidate reset |
| PickRuns.PacketsJoin | libsrc/get_pick.c:511-796 | packets can be cut anywhere |
| PickRuns.EventsJoin | libsrc/get_pick.c:511-796 | the events of a packet are those of the whole signal at the same samples |
| Station.Station.MovingAvg | libsrc/get_pick.c:279-379 | the update of the averages |
| Station.Station.Reset | libsrc/get_pick.c:916-950 | the fields that the reset clears, and those it leaves |
| Station.Station.InitVar | libsrc/filters.c:462-548 | the modelled fields as at the start, but for the frequency last measured |
| Station.Station.UpdateCycle | libsrc/get_pick.c:576-602 | the half-cycle bookkeeping |
| Station.Station.CheckTrigger | libsrc/get_pick.c:634-679 | Phase 1 |
| Station.Station.TryPhase2 | libsrc/get_pick.c:683-716 | Phase 2, its jump to the reset included |
| Station.Station.TryPhase3 | libsrc/get_pick.c:718-752 | Phase 3, its jump to the reset included |
| Station.Station.RunPhases | libsrc/get_pick.c:634-752 | the three phases with their jumps |
| Station.Station.DeclarePick | libsrc/get_pick.c:754-790 | the strength, the last test, and the pick or the reset |
| Station.Station.ProcessSample | libsrc/get_pick.c:511-796 | one pass of the sample loop |
| Station.Station.PickV | libsrc/get_pick.c:471-798 | a packet: the state and the events are those of the run over its samples |

## Left out

- Bilinear.Bilin2: requires a nonzero sum of denominator coefficients in every section, because the source divides by it; stable analog sections always have one.
- DiskRing.Channel.ReadDiskData: one channel and whole ticks; the loop over channels, the header fields that do not move the window, short reads, and the last channel's missing copy to the filtered buffer are not modelled.
- DiskRing.RunHolds: requires that each file fits, since otherwise the source indexes outside its buffer or, after an oversized first file, shows a window longer than it; `OversizedFirstFails` and `FirstFileRestores` cover that file.
- RegionAlarm.AlarmIsWitnessed: assumes thresholds of at least 2 and region lists of at most 50 stations, the size of the array.
- GapRepair.NoGapLeft: assumes samples of at most 32 bits, as the trace files hold.
- LeastSquares.Correct: one iteration; the travel-time table, the iteration around it, the update of the hypocenter and the test for NaN are not part of this model.
- BadPicks.FindBadPs: the hypocenter computed along the way is not modelled, only flags, residuals and locators.
- PickRemoval.UnusedFirstPickSwitchedOn: its residuals reach 1e20 seconds, which no locator returns; `UnusedStaysOff` shows that below that an unused first pick stays off.
- BadPicks.RemovesFirstMinimiser: says nothing about runs where a stage finds no set below 1e20; `OthersUnharmed` and `FirstPickKeptIff` cover those.
- Elimination.LossyExitExists: a 2 x 2 matrix; the sizes that the locator uses are covered by `LossyMatrixExists` and `LossyNumeratorExists`.
- GapRepair.GapCanRemain: its input holds a sample above 32 bits, which no writer of the buffer stores.
- RegionAlarm.EarlyPicksCount: its input holds a time before 1970, which the picker does not produce.
- PickRemoval.FirstPickKeptIff: about a first pick whose flag is neither 0 nor 1; `OnlyOnesClearedIff` covers every flag.
- PickRuns.TriggerIsSettled: assumes that nothing points to a calibration; the source leaves a calibration only when the magnitude routine reports its end.
- DesignedFilter.FilterPacket: without the taper over the first samples of a station.
- Station.Station.MovingAvg: the averages of the raw signal and the noise range are not modelled.
- Station.Station.Reset: the magnitude and first-motion fields are not modelled.
- Station.Station.InitVar: the magnitude, first-motion and raw-signal fields are not modelled.
- Station.Station.CheckTrigger: first motion and the filling of the Mwp buffer are not modelled.
- Station.Station.DeclarePick: the pick index and the call of the regional alarm are not modelled.
- Station.Station.ProcessSample: the raw buffer, the Mwp computation and first motion are not modelled.
- Station.Station.PickV: the real-time path only; first motion, magnitudes, raw-signal averages, the noise range, the Mwp buffer and the call of the regional alarm are not modelled.
- MovingAverage.SignalIsBooked: the levels of the signal and of its size divide by a count that is one off in the first block and in every later one, as in the source.
- FilterRun.FilterState.Apiir: forward passes only, for apiir and for apiirG.
- ComplexNumbers.CsqrtSquares: the modulus routine of the complex library is not modelled, and Csqrt is extended by tests for zero that an exact square root never meets.
- Butterworth poles, the tangent warp and the cosine taper: their values are inputs.
- FilterPacket and FilterPacketG: segmentation and tapering of the ring.
- Spherical geometry, region tables, travel-time tables, magnitude averages and hypocenter copying.
- Floating-point rounding, overflow, NaN and infinities.
- Reading files, logging, the user interface, Earthworm rings and the database.
- The backup copy and the rename when a configuration file is saved; its failure paths.
