# FluxTrack, modelled and proved in Dafny

FluxTrack keeps a campus timetable, the dated class sessions made from it, who occupies which
room, modality-shift tickets, class suspensions, checker verifications and utilization reports.
This project models the services that decide and write those things, and proves what they keep,
call by call and over whole runs.

How it is modelled:

- A table is a sequence of rows and a primary key is an index into it (`Tables`). `Database` is a
  class with one field per table; a service is a method that updates those fields in place, as
  one atomic step. `Campus` bundles every table except the sessions, so that the rules about
  sessions can be functions of values.
- The campus runs on Asia/Manila time, a fixed offset, so an instant is a whole number of
  microseconds from local midnight of date 0, a Monday (`Calendar`). Clocks, policies, the user
  at the keyboard, the answer of the rate limiter and the order in which the generator's query
  returns shifts of equal decision time are parameters.
- A method that loops or writes is proved against a function of the old state; what the service
  promises is then proved about that function, as lemmas.

The parts, hardest first:

| files | subject |
|---|---|
| `Availability`, `Foresight`, `ForesightLimits`, `Materialization` | the occupancy oracle, the session generator, and exactly when one foresees the other |
| `ShiftApproval`, `ShiftOutcome`, `ShiftSafety`, `ShiftTickets`, `TicketGuards`, `Clashes` | the approval transaction, where it puts each session, why it creates no clash or is denied, and the ticket's life |
| `Contribution`, `Distribution`, `Buckets`, `Ladder`, `Capacity`, `Utilization`, `HeatGrid`, `GridReconciliation`, `CellMeaning`, `Percentage`, `RoomReports`, `Rollup`, `HeatSteps`, `Readings` | the reports, their exact reconciliation, and what their figures, order and shades say |
| `ScheduleOps`, `EditSafety`, `Suspensions`, `Jobs`, `MergeFill`, `FacultyScan`, `SessionMoves`, `SessionRuns`, `ConflictFlags` | the services that write sessions, when an edit is safe, and their laws over every interleaving |
| `Duty`, `CheckerGate`, `CheckerReplay`, `OnlineVerification`, `RoundRobin`, `OnlineAssignment` | checkers: gating, exactly-once replay, online verdicts, fair assignment |
| `Tables`, `Calendar`, `Excusal`, `Queries`, `Slots`, `Sorting`, `Text`, `Wrappers` | shared vocabulary |

Where the code differs from what its documentation or its tests suggest, the code is modelled and
the difference is stated as a lemma:

- Oracle and generator break a tie of decision times differently, so a room the oracle calls free
  can be filled (`TiesDefeatForesight`). They honour the same row exactly when the latest decision
  is not shared (`PicksAgreeIff`); that a run leaves a room reading as before needs less, and
  `ForesightIsRightIff` and, for a whole term, `TermIsForeseenIff` give the exact condition.
- The oracle knows the classes of running terms only, while a draft can be materialized; the same
  two conditions cover that.
- The oracle looks at the first date of a slot only: every slot that reaches into the next date
  can read free and then be filled (`OvernightSlotsAreNotForeseen`), so foresight is right for
  the slots inside one date and for no others (`ForesightReachesOneDate`).
- The search for alternative slots never ends for a session that does not end after it starts,
  and a submitted time move may make one (`SearchNeverEndsIff`).
- An approval never clears an earlier release, so a session brought back from Online holds no
  room (`HoldsUnlessReleased`, both directions).
- An edit is checked only if it changes room or time, the class is not Online, and the date is
  not excused; unchecked, it still rewrites every future session (`InstructorChangeCanClash`,
  `OnlineEditCanClash`). `AcceptedEditIsSafeIff` gives the exact condition, for all three.
- Lifting a suspension reinstates whatever carries the same reason in its reach, also what
  another declaration cancelled (`LiftCanUndoAnother`; `LiftUndoesOnlyItsOwnIff`).
- Merging is not transitive (`MergingIsNotTransitive`); a fill misses a row at the
  end of a chain of siblings only where the links are of different kinds
  (`FillMissesOnlyOverMixedLinks`), and covers the merge group exactly when one link joins the
  anchor to each row (`FillCoversGroupIff`).
- Finished sessions are not quite history: the online assignment fills in a missing owner on them
  too, and an absence can be corrected (`FinishedSessionsAreFinal` says that nothing else can).
- A cancelled class at its own hour is offered for verification (`CancelledClassReadsActive`,
  from `GateMeans`), and a cancelled online class can be verified (`VerifyRevivesCancelled`).
- The heat grid leaves out classes that end no later than they start (`GridEqualsCardIff`), and
  the room rows leave out rooms that are out of service while the card does not
  (`RollupEqualsCardIff`).

## Model

| member | source | states |
|---|---|---|
| Availability.FreeMeans | ops/availability.py:61-227 | a room is free exactly when no other SCHEDULED or ACTIVE, unreleased, in-person session, no active booking, no class without a session and no other class's approved reservation has it at some point of the slot |
| Calendar.OverlapIsSharedMoment | ops/availability.py:71-85 | two slots of positive length overlap exactly when they share a moment |
| Excusal.BreakExcusesEveryBuilding | scheduling/suspensions.py:30-50 | a break excuses its term in every building from its first date to its last |
| Availability.LatestShiftIsLatest | ops/availability.py:153-168 | the shift the oracle honours is a latest-decided one and, among equals, the row of largest key |
| Availability.LatestShifts | ops/availability.py:153-175 | the dictionary of first rows per class holds, for every class of the room, the shift that counts on the date, or nothing |
| Availability.ScanSchedules | ops/availability.py:123-194 | the scan answers true exactly when some active class of the room, not yet materialized or excused, keeps its timetabled slot and that slot overlaps |
| Availability.FirstFreeRoom | ops/availability.py:294-310 | the first room offered is the preferred one when free, else the free room of least code in the building |
| Availability.AvailableTimes | ops/availability.py:259-291 | the stepping search returns exactly the acceptable slots of the day and terminates for a positive length |
| Availability.OffersAreExact | ops/availability.py:259-291 | a slot is offered if and only if it keeps the class length, lies on the grid within opening hours, differs from the current slot and has a free room and a free instructor |
| Availability.OffersAreDisjoint | ops/availability.py:273-290 | offered slots never overlap one another and come in order |
| Availability.SearchNeverEndsIff | ops/availability.py:273-291 | the search's test to go on holds after every number of rounds exactly when the session does not end after it starts |
| Materialization.MaterializeTerm | scheduling/materialization.py:91-159 | refuses missing, archived, unpublished-draft and empty windows with nothing written; otherwise leaves the sessions and the three counts of the walk over the clipped window, and audits one release per newborn born Online, in order |
| Materialization.MaterializeDate | scheduling/materialization.py:117-152 | one date adds a session for every matching, unexcused class without one, counts each matching class once, and audits the releases |
| Materialization.WalkGrows | scheduling/materialization.py:102-159 | a walk adds newborns of due pairs and nothing else, covers every due pair, keeps one session per class and date, and its counts partition the matching pairs |
| Foresight.MaterializationIsComplete | scheduling/materialization.py:102-159 | after a run every active, in-term, unexcused (class, date) of the window has a session; nothing but newborns of such pairs was added; created + existing + skipped = matching pairs, and skipped are the excused ones |
| Foresight.RunsBearWell | scheduling/materialization.py:33-88 | every session a run adds is its class's, untouched, and as a latest approved shift of its date decided: of its target modality, released exactly when that is Online, in its reserved room and time and with its stamp; or as the timetable says when there is none |
| Foresight.RerunChangesNothing | scheduling/materialization.py:102-110 | a second run at any later time, however its queries then break ties, creates nothing and changes no row |
| Foresight.AdjacentWindowsCompose | scheduling/materialization.py:102-159 | materializing two adjacent windows leaves the same sessions and summed counts as their union |
| Foresight.FreeSlotGetsNoNewborn | ops/availability.py:123-227 | no session the generator makes holds a room during a slot inside one date that the oracle called free, if oracle and generator agree about the classes due in it |
| Foresight.ForesightIsRightIff | ops/availability.py:88-227 | whatever sessions exist, whichever window is run and whichever latest row the generator's query puts first, a room is as free for a slot inside one date after materializing as before, exactly when the slot is booked or reserved anyhow or, for each class due in it, the latest decisions are of one mind about its own room and a class that keeps it is of a running term |
| Foresight.UnseenIffForetold | ops/availability.py:88-227 | for one given order of the query's answer: no run ever changes how free the slot reads, exactly when it is booked or reserved anyhow or oracle and generator agree about each class due in it |
| Foresight.TermIsForeseenIff | ops/availability.py:88-227 | that holds for all rooms and slots of the term's dates exactly when, for each due class and date, the latest decisions agree or the class's hours are booked or reserved throughout |
| Foresight.CoveredMomentByMoment | ops/availability.py:88-227 | for a class that starts before it ends, covered throughout means booked or reserved at every moment of its hours |
| Foresight.PicksAgreeIff | scheduling/materialization.py:33-48 | oracle and generator honour the same shift of a class on a day, whichever latest row the generator's query puts first, exactly when the latest decision is not shared by two rows |
| ForesightLimits.TiesDefeatForesight | scheduling/materialization.py:33-48 | a concrete campus with tied decisions where a room reads free and is then filled |
| ForesightLimits.OvernightSlotsAreNotForeseen | ops/availability.py:123-150 | for every slot that ends after the midnight that follows its start, a campus without shifts in which the room reads free and is then filled |
| ForesightLimits.ForesightReachesOneDate | ops/availability.py:123-150 | a slot is foreseen wherever oracle and generator agree about rooms, for every room and every run of the generator, exactly when it lies inside one date |
| ShiftApproval.ResolveShiftRoom | scheduling/services.py:432-448 | the class keeps its own room when free, else gets a free room of its building; none only when no room of the building is free |
| ShiftOutcome.PreferredRoomComesNext | scheduling/services.py:432-448 | a class that cannot keep its own room gets the preferred one, when that is of the building and free |
| ShiftApproval.ApplySession | scheduling/services.py:470-497 | one session is reseated, or the transaction is to be denied and the session is untouched |
| ShiftApproval.ApplyF2F | scheduling/services.py:451-503 | the nested loops over items and sessions do what the item-by-item specification says, each move seeing the earlier ones, and stop at the first failure |
| ShiftApproval.ApplyOnline | scheduling/services.py:506-521 | exactly the listed sessions go Online, release their rooms and are audited, in order |
| ShiftApproval.ApplyApproval | scheduling/services.py:524-614 | refused with nothing written, or APPROVED with every consequence written, or DENIED with every session, item and audit entry as at the start however far the loop had come |
| ShiftOutcome.ShiftOneSucceedsIff | scheduling/services.py:463-497 | one session can be moved exactly when the item carries no time or no other SCHEDULED or ACTIVE session of the instructor overlaps it, and some room of the building is free; a refusal says which failed, and a success keeps the own room when free and changes place, time, modality and stamp only |
| ShiftOutcome.ApprovalPlacesEverySession | scheduling/services.py:451-503 | each affected session starts and ends as the last item with a time move for it says, or as before when there is none, in a room of its class's building, with the target modality and the decision's stamp; every other session is as it was |
| ShiftOutcome.OnlineApprovalOnlyReleases | scheduling/services.py:506-521 | an approval to Online never fails, keeps place and time, and releases and stamps exactly the affected sessions |
| ShiftOutcome.EachReleaseIsAuditedOnce | scheduling/services.py:506-521 | a ticket to Online that asks for each class once leaves one release entry per affected session and no other |
| ShiftOutcome.DenialHasCause | scheduling/services.py:470-485 | a ticket is denied only when, some of its sessions being placed as an approval places them, the next one had a busy instructor at its new time, or no free room in its building; the reason says which |
| ShiftOutcome.ApprovalReservesLastRoom | scheduling/services.py:499-503 | the item of each class asked for once reserves the room its last session was seated in; items of other tickets are left alone |
| ShiftSafety.ApprovalNeverClashes | scheduling/services.py:451-503 | after an approval no affected session shares its room with an overlapping room-holding session or active booking, and every clash that remains existed before |
| ShiftSafety.ApprovalReachesEverySession | scheduling/services.py:524-589 | every in-window session of the ticket has the target modality; every other session is as it was |
| ShiftSafety.RetimedInstructorsAreFree | scheduling/services.py:463-485 | an approved time move leaves no session it moves over another SCHEDULED or ACTIVE session of its instructor, whatever the ticket's other items do |
| ShiftSafety.HoldsUnlessReleased | scheduling/services.py:486-497 | an approved room shift holds its room if and only if the room had not been released before |
| ShiftTickets.Submit | scheduling/services.py:192-333 | the first guard that fails is reported with nothing written; otherwise one PENDING ticket and one item per class are appended |
| TicketGuards.SubmissionRefusedFor | scheduling/services.py:206-300 | a submission goes through exactly when every guard is met (lead time in whole days before each affected session, cooldown, one unarchived term, a free instructor and the rest), and a refusal names the first that is not |
| TicketGuards.TicketAsksForSubmission | scheduling/services.py:301-333 | the new ticket affects exactly the sessions the submission was judged on, in the submitter's name and towards the modality and time asked for, and no other ticket's reach changes |
| TicketGuards.PreferenceSurvivesIff | scheduling/services.py:280-300 | a preferred room is kept exactly when it is of the class's building and free for each of the class's affected sessions, of which there is one |
| TicketGuards.DecisionRefusedFor | scheduling/services.py:535-542 | only a Dean of the ticket's department decides, only a PENDING ticket of one term that takes writes; each refusal says which fails |
| TicketGuards.WithdrawalRefusedFor | scheduling/services.py:340-362 | likewise only the requester withdraws |
| ShiftTickets.Withdraw | scheduling/services.py:340-362 | only the requester's PENDING ticket becomes WITHDRAWN, with no decision time |
| ShiftTickets.Reject | scheduling/services.py:365-400 | only the routed Dean turns a PENDING ticket REJECTED, stamped with time, decider and reason |
| ShiftTickets.SubmissionKeepsMovesWhole | scheduling/services.py:301-333 | a submitted item carries both ends of a time move or neither, which the foresight theorem relies on |
| ShiftTickets.StepKeepsLaws | scheduling/services.py:224-238 | every step keeps: decided means stamped, and a later ticket for a class comes after the earlier one closed, strictly more than two days after a decision |
| ShiftTickets.LawsHoldAlongEveryRun | scheduling/services.py:192-614 | those laws hold in every state of every run; SubmitIsStep, DecisionIsStep, RejectIsStep and WithdrawIsStep tie each service to its step, with the Dean's stamp on a decision |
| ShiftTickets.ClosedTicketsAreFinal | scheduling/services.py:340-589 | a ticket that left PENDING is the same row for ever |
| ShiftTickets.NeverTwoOpenTickets | scheduling/services.py:224-238 | no requester ever has two PENDING tickets for one class |
| ScheduleOps.AddWeeklyDates | scheduling/schedule_ops.py:57-66 | stepping by weeks finds every date of the weekday from today to term end and no other |
| ScheduleOps.FirstConflict | scheduling/schedule_ops.py:46-83 | reports the earliest remaining date on which the target room is taken, and none only when every remaining date is clear; an Online class is not checked |
| ScheduleOps.UpdateSchedule | scheduling/schedule_ops.py:86-145 | refused with nothing written, for an archived term or a named taken date; it succeeds exactly when nothing moved, the class is Online, or every remaining date is excused or clear, and then rewrites the row and exactly the class's future SCHEDULED sessions |
| ScheduleOps.CancelSchedule | scheduling/schedule_ops.py:148-180 | archives the class and cancels exactly its future SCHEDULED sessions, one audit entry each |
| ScheduleOps.DropReasonMeans | scheduling/schedule_ops.py:163 | the reason kept is the one given, or the standing one, stripped of blanks and cut to 200 characters |
| EditSafety.EditTakesWhatItGives | scheduling/schedule_ops.py:107-127 | an edit takes each field it gives and no other, and giving the old values back undoes it |
| EditSafety.EditReachesFutureSessions | scheduling/schedule_ops.py:129-140 | after an edit every future SCHEDULED session is on the new row and under its instructor; all else is as it was |
| EditSafety.ClearIff | scheduling/schedule_ops.py:66-83 | a date is clear exactly when its session is past changing, it is excused, or nothing but the class itself has the room then |
| EditSafety.CheckedEditIsClear | scheduling/schedule_ops.py:46-83 | after a checked edit nothing else has the target room on any remaining, unexcused date: no session, no booking, no other class without a session, no other class's reservation |
| EditSafety.CheckedEditLeavesNoClash | scheduling/schedule_ops.py:86-145 | each moved session on an unexcused date is in no clash |
| EditSafety.AcceptedEditIsSafeIff | scheduling/schedule_ops.py:46-145 | an accepted edit creates no clash, whatever the rooms are booked for, exactly when every room-holding session that it moves unchecked (nothing moved, Online class, excused date) stays inside the slot it held |
| EditSafety.InstructorChangeCanClash | scheduling/schedule_ops.py:110-144 | a concrete change of instructor alone that puts a shifted session back into a room booked meanwhile |
| EditSafety.OnlineEditCanClash | scheduling/schedule_ops.py:46-49 | a concrete edit of an Online class, accepted unchecked, that moves its in-person session into a booked room |
| Suspensions.FlipInChunks | scheduling/suspensions.py:101-110 | flipping in chunks of 900 equals one update of all rows, audit included |
| Suspensions.SuspendClasses | scheduling/suspensions.py:66-128 | cancels exactly the SCHEDULED sessions in reach, with the truncated reason, and records the suspension |
| Suspensions.LiftSuspension | scheduling/suspensions.py:131-170 | reinstates exactly the CANCELLED sessions in reach that carry the reason, once; a second lift writes nothing |
| Suspensions.LiftUndoesSuspendIff | scheduling/suspensions.py:66-170 | declaring and lifting gives a session back as it was exactly when it had no earlier reason on it, if cancelled, and was not already cancelled for the same one |
| Suspensions.CancelsWhatItExcuses | scheduling/suspensions.py:30-128 | a suspension cancels exactly the SCHEDULED sessions that it alone would excuse |
| SessionRuns.CancellationsNeverOutliveTheirCause | scheduling/suspensions.py:66-170 | over every interleaving of suspend, lift, sweep, edit, drop, merge fills, attendance, release, absence correction, online assignment, approval and materialization, a session cancelled by a suspension stays under it: un-lifted, in reach and with its reason |
| SessionRuns.LiftingReinstates | scheduling/suspensions.py:131-170 | lifting in any order returns every session whose cause is lifted, and whose cause's term is not archived, to SCHEDULED with an empty reason |
| SessionRuns.FinishedSessionsAreFinal | web/ifo.py:2056-2087 | in any run of those moves a COMPLETED session, and an ABSENT one that is not corrected, keeps every column but a missing online owner; a correction turns ABSENT into COMPLETED and nothing turns it back |
| SessionRuns.LiftUndoesOnlyItsOwnIff | scheduling/suspensions.py:131-170 | a lift in an unarchived term changes its own cancellations, and only those, exactly when no other cancelled session in its reach carries the same reason |
| SessionRuns.LiftCanUndoAnother | scheduling/suspensions.py:148-170 | a concrete lift that reinstates a class another suspension, still in force, had cancelled |
| Jobs.SweepNoShows | scheduling/jobs.py:48-122 | marks exactly the unexcused SCHEDULED no-shows of the running term; count, audit rows and collected floors agree one for one |
| Jobs.SweepIsIdempotent | scheduling/jobs.py:48-122 | sweeping again at the same or an earlier time marks nothing |
| FacultyScan.AdmissionIsSound | scheduling/resolver.py:55-115 | a scan that admits names an in-person session of this room, its window open and within grace, while none of the member's runs; it is a takeover exactly when the room is occupied |
| FacultyScan.AdmissionIsComplete | scheduling/resolver.py:55-115 | with nothing running, the first open session of this room that is admissible is the one admitted |
| FacultyScan.OutcomesMean | scheduling/resolver.py:55-125 | each of the nine outcomes arises exactly when its facts hold of the day's sessions: checked out or an early end by the margin before the end of the first running one, absent past grace, online, wrong room, room taken, checked in, too early, no schedule |
| FacultyScan.RescanMeans | scheduling/resolver.py:71-79 | a rescan names the first running session |
| FacultyScan.ScanMeans | scheduling/resolver.py:81-125 | any other scan names the first open session in the room, or the first open one when none is there, and a takeover names who is taken over |
| MergeFill.MergedSiblingIds | scheduling/merge.py:36-76 | the loop collects exactly the candidates that merge with the anchor: same instructor and instant, and both online or one room or one course |
| MergeFill.PropagatePresent | scheduling/merge.py:116-164 | makes exactly the SCHEDULED siblings present, one audit entry each |
| MergeFill.PropagateAbsent | scheduling/merge.py:167-219 | inside grace writes nothing; after it marks exactly the SCHEDULED siblings absent |
| MergeFill.FillIsComplete | scheduling/merge.py:116-164 | a fill leaves no SCHEDULED sibling, so a second one writes nothing |
| MergeFill.MergingIsNotTransitive | scheduling/merge.py:36-76 | three concrete sessions of which the ends do not merge, so a fill from one end misses the other |
| MergeFill.FillMissesOnlyOverMixedLinks | scheduling/merge.py:36-76 | along a chain of siblings of any length, a fill misses the SCHEDULED row at its end exactly when no kind of link (both online, one room, one course) joins it to the anchor, and then no one kind runs all along the chain |
| MergeFill.FillCoversGroupIff | scheduling/merge.py:36-76 | a fill leaves no SCHEDULED row of the anchor's transitive merge group exactly when a kind of link joins the anchor to each such row |
| ConflictFlags.ConflictedIffTwoHolders | scheduling/jobs.py:142-150 | a room is in conflict exactly when two different running sessions of the term hold it unreleased |
| ConflictFlags.FlagTable.DetectRoomConflicts | scheduling/jobs.py:125-178 | with no running term nothing happens; otherwise cleared flags are stamped, missing ones raised, and count and collected floors are those of the new flags |
| ConflictFlags.FlagsIndexConflicts | scheduling/jobs.py:152-178 | after a run there is exactly one open flag per room in conflict and none for any other; a flag is raised only where none was open |
| ConflictFlags.OneFlagPerStretch | scheduling/jobs.py:125-178 | over a whole run a room is flagged once per maximal stretch of sweeps that see it in conflict |
| ConflictFlags.SweepTouchesOnlyCleared | scheduling/jobs.py:152-178 | a sweep stamps exactly the open flags whose conflict has cleared, with its own time, and adds open flags of rooms in conflict only |
| ConflictFlags.ResolvedFlagsAreFinal | scheduling/jobs.py:125-178 | a resolved flag is the same row after any later sweeps |
| Contribution.UsedWithinBooked | scheduling/reporting.py:743-798 | no session uses more than it booked, and booked less used is wasted time, or time of a class not yet held |
| Contribution.UsedMeansPresent | scheduling/reporting.py:788-798 | used time is the part of the booked window during which somebody was checked in |
| Contribution.UsedIffPresent | scheduling/reporting.py:743-798 | time counts as used exactly when somebody was there for a second of the booked window, of a session neither cancelled nor absent |
| Contribution.BookedMeans | scheduling/reporting.py:743-786 | a session books its whole seconds unless cancelled or running, and it runs while ACTIVE, started and not ended |
| Distribution.DistributeConserves | scheduling/reporting.py:1008-1024 | the parts add up to the total for every nonempty weight list |
| Distribution.DistributeIsProportional | scheduling/reporting.py:1008-1024 | every part is non-negative; all but the last are their exact shares rounded down, and the last exceeds its own by less than a second per other part |
| Ladder.BlockDuration | scheduling/reporting.py:297-310 | the chosen length is the most frequent and, on a tie, the longest |
| Ladder.RungsAreExact | scheduling/reporting.py:318-343 | the rungs ascend, are exactly the starts of active classes, and each has its modal length |
| Ladder.CellsAreExact | scheduling/reporting.py:346-385 | the cells are exactly the timetabled (day, start) pairs, each once and as long as its rung |
| Capacity.WeekdayOccurrences | scheduling/reporting.py:992-1005 | the walk counts each weekday of the clipped range |
| Capacity.OccurrencesAreDates | scheduling/reporting.py:992-1005 | that count is the number of dates of the range on the weekday |
| Capacity.RangeCellShape | scheduling/reporting.py:816-846 | the calendar walk sums teaching days, cells and seconds over the dates of the clipped range |
| Capacity.WalksAgree | scheduling/reporting.py:816-846 | pricing cells by weekday counts and summing them date by date give the same total |
| Capacity.TeachingDaysAreDates | scheduling/reporting.py:816-846 | teaching days are the dates of the range on which the timetable has a cell |
| Capacity.CellsCountedByDate | scheduling/reporting.py:816-846 | the cell count is how often the cells come up in the range |
| Utilization.ScopeSharesTheCut | scheduling/reporting.py:388-408 | the sessions counted and the capacity end on the same day, the as-of day included |
| Utilization.RoomUtilization | scheduling/reporting.py:849-926 | the card's totals are those of the sessions in scope, a running one counting as in flight only |
| Utilization.UnusedIsAccountedFor | scheduling/reporting.py:849-926 | campus booked less used equals wasted plus the unused time of classes still SCHEDULED, and used never exceeds booked |
| HeatGrid.PostSessions | scheduling/reporting.py:1083-1106 | the accumulators hold, per (block, day), exactly the parts the sessions post there |
| HeatGrid.RoomHeatGrid | scheduling/reporting.py:1027-1132 | no grid without a ladder; otherwise one row per rung and one cell per weekday with used, booked, available, percent and whether it is timetabled |
| CellMeaning.TimeGoesToItsOwnCells | scheduling/reporting.py:1083-1106 | a session's time goes to cells of its class's weekday on rungs that start within its hours, each getting its own part of the split, and to no other |
| CellMeaning.PartsFollowRungLengths | scheduling/reporting.py:1083-1106 | each part but the last is the exact share of its rung's length rounded down |
| CellMeaning.CellMeans | scheduling/reporting.py:1108-1131 | a cell is timetabled exactly when an active class starts then; its capacity is every physical room for the rung's length on each such date, else nothing; its times are never negative |
| Percentage.PercentIsNearest | scheduling/reporting.py:227-238 | the percentage is the whole number nearest to the used share, the upper one of two, and no other |
| Percentage.PercentFollowsShare | scheduling/reporting.py:227-238 | a larger used share never shows as less |
| Readings.GridShowsUse | scheduling/reporting.py:1108-1131 | every cell of the grid shows its own used share |
| GridReconciliation.HeatGridReconciles | scheduling/reporting.py:1046-1052 | booked and used seconds over all cells equal the card's, short of exactly the time of classes that end no later than they start |
| GridReconciliation.GridEqualsCardIff | scheduling/reporting.py:1090-1099 | booked time agrees to the second exactly when no session of such a class in range booked any, and used time exactly when none used any |
| GridReconciliation.OccupiesUnlessBackwards | scheduling/reporting.py:1092-1097 | a class occupies some rung exactly when it starts before it ends |
| GridReconciliation.CapacityReconciles | scheduling/reporting.py:1108-1131 | available seconds over all cells equal the physical rooms times one room's seconds over the range |
| RoomReports.RoomBreakdown | scheduling/reporting.py:1238-1320 | one row per physical room with its own used, booked and wasted seconds, least used first |
| RoomReports.BreakdownIsComplete | scheduling/reporting.py:1262-1320 | the rows are ordered by percent and code, and are exactly the physical rooms' rows, used or not |
| RoomReports.RowsNameTheirRooms | scheduling/reporting.py:1238-1320 | a row names a physical room, its building and its floor |
| Readings.LeastUsedComeFirst | scheduling/reporting.py:1262-1320 | of two rows that do not show the same percentage the earlier one was used less, and rows that do come by code |
| RoomReports.GhostsWereNeverUsed | scheduling/reporting.py:1323-1354 | a ghost is a physical room that some session in range booked and none used |
| RoomReports.RoomsReconcileWithCard | scheduling/reporting.py:1238-1320 | the rows add up to the card, short of exactly the time spent in out-of-service rooms |
| Rollup.BuildingFloorRollup | scheduling/reporting.py:1357-1419 | each building's row followed by its floors in order, each priced by its own room count |
| Rollup.RollupConserves | scheduling/reporting.py:1357-1419 | rooms, used, booked and wasted of a building's floors add up to its row, and the buildings to the room rows |
| Rollup.RollupIsComplete | scheduling/reporting.py:1357-1419 | there is a row for each building and floor that some room row is of, and no other, with the totals of those room rows |
| Readings.ScopesShowUse | scheduling/reporting.py:1357-1419 | each building and floor row shows the used share of as many rooms as it counts |
| Rollup.RollupEqualsCardIff | scheduling/reporting.py:1357-1366 | the rollup equals the card exactly when no session in range has such time in an out-of-service room |
| HeatSteps.AnnotateHeatSteps | web/ifo.py:1517-1556 | every cell object gets no step when untimetabled and the step of its reading otherwise |
| HeatSteps.StepIsQuarter | web/ifo.py:1545-1550 | the clamp never bites; a used cell is on step k or lower exactly when at most k quarters of the used cells read the same or less |
| HeatSteps.StepsFollowReadings | web/ifo.py:1536-1550 | a cell that reads more is never painted lighter |
| HeatSteps.HighestIsDarkest | web/ifo.py:1545-1550 | the highest reading is on the top step |
| HeatSteps.ShadesFollowReadings | web/ifo.py:1517-1556 | over the grid: order is kept among timetabled cells, zero is step 0 and any other reading step 1 to 4 |
| Readings.ShadesFollowUse | web/ifo.py:1517-1556 | of two timetabled cells the one used for a larger share is at least as dark, and one never used is on step 0 |
| CheckerGate.GateMeans | verification/resolver.py:38-60 | each of the six outcomes of a room scan arises exactly when its facts hold; a room is open to verification when its class runs, or was cancelled and its hour is now |
| CheckerGate.ShownSessionMeans | web/checker.py:241-273 | the session shown is in the room today, in person, of the running term, not completed, and running or due now |
| CheckerGate.ScanSessionIsFirst | web/checker.py:276-301 | an old scan never misses the session it was of, and of several takes one that started first |
| CheckerGate.CurrentClassIsShown | web/checker.py:241-273 | a stale session of the day never hides the class that runs, or is due, right now |
| CheckerGate.CancelledClassReadsActive | web/checker.py:253-273 | a cancelled class alone in its room at its hour is offered for verification |
| CheckerReplay.Desk.ClaimReceipt | web/checker.py:475-489 | a receipt is claimed exactly when the uuid has none |
| CheckerReplay.Desk.ReplayItem | web/checker.py:519-645 | one item is ignored when its uuid is missing or known, else judged against the current state, receipted and, if it passes, recorded and logged |
| CheckerReplay.Desk.Replay | web/checker.py:494-645 | a batch is its items in order, and its answers and log are theirs; a batch of known uuids writes nothing |
| CheckerReplay.Desk.Act | web/checker.py:392-471 | a live action writes and logs one validation when the gate, the action and the note allow it and it is the first this minute, and replies accordingly |
| CheckerReplay.LiveRecordMeans | web/checker.py:392-471 | a live action is written exactly when the checker is on duty there, the action suits what the room holds, a flag has its note and it is the first this minute; and it is of the session the room holds |
| CheckerReplay.AppliedIff | web/checker.py:560-603 | a fresh item is applied exactly when its room is found, the checker is on duty on its floor, the item's own session is the current one, and the action fits it and carries its note |
| CheckerReplay.ReplayedRecordMeans | web/checker.py:604-617 | an applied item is recorded for the very session, room, action, note and scan time it was queued with, in the sender's name, with the identity check its action implies |
| CheckerReplay.AppliedVerificationCounts | web/checker.py:604-617 | an applied verification leaves the session it was queued for verified |
| CheckerReplay.FlaggedBecause | web/checker.py:545-603 | a flagged item is flagged for the first thing found wrong with it |
| CheckerReplay.AnswerIsReceipt | web/checker.py:475-645 | the answer to a fresh item is the status of the one receipt it gets, applied exactly when a validation is written |
| CheckerReplay.WrittenIsLogged | web/checker.py:318-325 | each validation is logged with its action, session and room, and nothing else is logged as an action |
| CheckerReplay.ReplayIsExactlyOnce | web/checker.py:475-645 | over any events, a uuid offered at least once ends with one receipt, and one validation is written for it if that receipt says applied, none otherwise |
| CheckerReplay.ReplayAgainChangesNothing | web/checker.py:494-645 | sending a batch again at any later time, in any state, changes nothing and logs nothing |
| CheckerReplay.OneVerificationPerSession | verification/resolver.py:38-60 | room scans, live and replayed, verify a session at most once over any run, and never one already verified |
| OnlineVerification.OnlineAction | web/checker.py:649-697 | refused with nothing written unless the session is the checker's own, on duty and unfinished; otherwise the session and its merged siblings are written, each sibling filled is audited, and one validation is recorded |
| OnlineVerification.VerdictAllowedIff | web/checker.py:663-686 | a verdict goes through exactly for an online session of one's own, on duty, unfinished, verified or flagged with a note; each refusal says why |
| OnlineVerification.NotPresentMeans | web/checker.py:346-368 | a flag marks the class ABSENT, and past grace exactly its SCHEDULED siblings with it |
| OnlineVerification.VerifiedGroupIsNeverSwept | web/checker.py:331-347 | after an online verification the class and its scheduled siblings are present and no later sweep marks any of them |
| OnlineVerification.VerifyRevivesCancelled | web/checker.py:659-661 | a suspended online class can be verified, and lifting its suspension then leaves it alone |
| RoundRobin.GroupByPool | verification/services.py:111-118 | grouping keeps, per roster, exactly its sessions in order |
| RoundRobin.MapOwners | verification/services.py:119-122 | distributing group by group gives each session the seat of its rank within its own roster, and none to an empty roster |
| RoundRobin.LoadsAreEven | verification/resolver.py:87-97 | no seat of a pool gets more than one key more than another, and it is the earlier seat that does |
| Duty.DatedPostingIsAWindow | verification/resolver.py:63-84 | a dated posting covers the instants from its start to its end on its date, both included |
| OnlineAssignment.AssignOnlineSessions | verification/services.py:76-153 | hands every candidate its round-robin owner, audits each, and assigned plus unassigned are the candidates |
| OnlineAssignment.AssignedMeans | verification/services.py:36-91 | an owner is given only to an unowned online session of the term and date, and has an active online posting that covers its start |
| OnlineAssignment.OwnersAreEligible | verification/services.py:79-91 | an owner's posting covers the session's start, a candidate stays unowned exactly when no posting does, and nothing else changes |
| OnlineAssignment.SharesAreEven | verification/services.py:108-122 | among the sessions one roster covers, no two of its checkers differ by more than one |
| OnlineAssignment.RerunMovesNoOwner | verification/services.py:36-52 | a later run, under any roster, moves no owner; under the same roster it changes nothing |

## Left out

- HTTP views, templates, role decorators, sessions, pagination, PDF and CSV rendering, QR images: input and output.
- Notifications, web push and the guard alerts: who is told what; the collected floor lists are kept as results.
- Locking, isolation and concurrent writers: each service call is one atomic step, so a claimed receipt never loses a race.
- The user table: who may act is a parameter, and the Dean a ticket is routed to is given with the submission.
- Policies (grace, lead days, windows) and the manual-code rate limit: parameters; the limit is an arbitrary yes or no per item.
- Row deletion, the term lifecycle, imports, admin probes: the tables modelled here are only appended to and updated.
- Audit entries that describe a whole call (an edit, a decision): only the entries written per session are kept.
- Decimal hours: every report is kept in whole seconds; the percentage is modelled exactly, rounded half up.
- Order of rows with equal sort keys: queries without a full tie-breaker are taken in primary-key order, but for the generator's, whose order is a parameter.
- Unicode white space and digits: stripping knows blanks, tabs and line ends, a manual code is six ASCII digits.
- Invalid modality names: the modality is a type, so the refusal of an unknown one cannot arise.
- Early ends, overruns, early arrivals and the split of wasted time into absent and unused: further counters of the campus card with the same shape as the ones kept.
- The ranking of blocks by saturation: a reduction of the grid's rows.
- Early check-out and hand-over as operations of their own: the runs know attendance as one step that sets status and times.
- Refusals inside runs, other than a lift's on an archived term: they change nothing, and the runs without them are more, so what holds along all of them holds along the program's.
- BuildingFloorRollup: buildings are ordered by key where the source orders them by their unique code.
- AvailableTimes: needs a class of positive length; for any other the search it models does not end, which SearchNeverEndsIff states.
- RoomHeatGrid: does not count the sessions and distinct rooms of a cell; accumulators are keyed by the rung's start, which identifies the rung.
- RoomBreakdown: does not count the sessions and absences of a room.
- ForesightIsRightIff: assumes that a time move carries both ends, which SubmissionKeepsMovesWhole and ApprovalKeepsMovesWhole show every ticket keeps; it quantifies over the sessions, so under one fixed set of sessions a disagreement may happen to be hidden.
- ApprovalNeverClashes: speaks of the sessions that exist when the ticket is decided; the reserved room is not checked on dates materialized later.
- CheckedEditIsClear: assumes one session per class and date and that a session of the date is SCHEDULED, and says nothing of excused dates, which the check skips and AcceptedEditIsSafeIff covers.
- CheckedEditLeavesNoClash: assumes one session per class and date, as AcceptedEditIsSafeIff does below.
- AcceptedEditIsSafeIff: assumes one session per class and date; the table has no such constraint, but the generator keeps it, as MaterializationIsComplete states, and no other modelled service adds rows. It quantifies over the bookings; under one fixed set of bookings a session may leave its slot for a place that happens to be free.
- SubmitIsStep: assumes that a ticket's row is stamped no earlier than the time it was judged at; the two are separate readings of the clock.
- FlagsIndexConflicts: assumes at most one open flag per room before the run, the table's unique constraint; manual resolution between sweeps is not a step.
- VerifiedGroupIsNeverSwept: covers siblings found from the verified session; merging is not transitive.
- RoomVerifications counts room scans only; an online verification may be repeated.
