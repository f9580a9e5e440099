# uACPI-NT: verified models of its allocators and protocols

This project models the parts of uACPI-NT where most can go wrong and proves
what they promise. The sources are C; the models take the same form: objects
that are updated in place are classes or arrays, loops are loops, and the
protocols that several processors run at once are state machines over their
atomic steps.

| modules | what they model |
|---|---|
| `Words`, `RangeLists` | machine words; the kernel's range list |
| `ArbiterTypes`, `Descriptors`, `Walker`, `Placement`, `Ledger`, `Attempts`, `Premises`, `Solver`, `Soundness`, `Search`, `TwinRun` | the arbiter's backtracking search |
| `ArbitrationLists`, `Stacks`, `Arbiters`, `Retesting`, `Transactions` | test, retest, commit, rollback, boot, conflict queries, and whole runs of them |
| `Orderings`, `Seeding` | the ordering policy; the inversion of decode windows |
| `Vectors`, `VectorTables` | the IDT vector allocator |
| `WireFormat`, `WireDecoder`, `WireEncoder` | the evaluation wire codec |
| `Deferral`, `Thermal`, `GlobalLock` | DIRQL deferral, the thermal zone, the global lock |
| `PowerResources` | shared power resource counts |

`dafny verify dfyconfig.toml` checks all of it.

## What stands for the environment

- `RTL_RANGE_LIST` is a kernel type whose code is not part of the repository.
  `RangeLists.RangeList` gives it a plain body. `Find` searches from the top of
  the window down, which is what a retry below the last placement relies on
  (reactos-libs/arbiter/entry.c:297-309). The contract of `Delete` does not say
  which of several ranges with equal bounds and owner goes.
- `KeQueryInterruptTime`, the answer whether two devices share a driver, the
  outcome of `_ON` and `_OFF`, and the staleness of a thermal stamp are
  arbitrary. Pool allocations succeed, except for the thermal work item.
- The registry policy, the HAL's vector grant, the decoded windows and the
  resolved power resource packages are parameters.
- One build is modelled: Windows 10, 64-bit lengths, APIC interrupt model.
- The bit test for a power of two in the message run allocator is modelled by
  its meaning.

## Where a promise holds only under a condition

- The tentative list keeps its bounds and owners without any condition. Its
  sharing flags, and with them the claim that two devices' placements and decode
  mirrors meet only where both are shared, are followed when no listed device
  owns anything at the start (`Premises.Foreign`), nothing is shared by driver
  (`Premises.Plain`), and no two requirements of one device are twins
  (`Premises.NoTwins`): a fixed alternative of one, or at the ports any
  alternative of no device, can come to hold, as its range or a mirror of it,
  exactly the bounds that an alternative of the other can hold with the other
  sharing flag. Only such a pair puts two ranges with equal bounds, equal owner
  and different flags into the list, and then taking one back can delete the
  other. A device with a shared and an exclusive requirement is covered as long
  as a fixed one of them is not also a placement of the other. The failure is
  real: in `TwinRun` device 1 asks for 0x10-0x1F exclusively, again for the same
  range shared or else 0x40-0x4F, and device 2 for 0x10-0x1F shared; when the
  first of two matching ranges is the one deleted, the search ends with both
  devices on 0x10-0x1F. Whether a list with twins comes to harm depends on what
  the search has to take back and on the kernel's choice, so the condition is
  sufficient only.
- A trimmed window admits exactly the placements of the raw one if and only if
  rounding its bottom up carries no bit out of 64 (`Walker.TrimExact`). With a
  carry the window restarts at address 0, below its alternative
  (`Walker.CarryRestartsAtZero`), so a placement is claimed to lie above the
  alternative's minimum only where no window of it carries (`Premises.Floor`).
  All else of solution soundness asks this of fixed alternatives alone. They do
  need it: a fixed 2 KB at the top of memory, aligned to a page and put over its
  own device, is given nearly all of memory (`Soundness.CarriedFixedOverruns`).
- Before the whole-window pass a window with a reserved address in it is offered
  if and only if the bottom of the raw window carries when it is aligned and a
  reserved address lies below it (`Orderings.ReservedIsLastResort`). With a
  preferred window in the top 2 KB of the address space and the bottom page
  reserved, a page-aligned request is offered that page
  (`Orderings.CarryOffersReserved`).
- The port arbiter, when the mirrors of a placement are taken, looks above it.
  Its range search being downward there is nothing up there, so a request that
  is not fixed and shares with no driver is placed if and only if the highest
  clear placement of its window has its mirrors free (`Placement.PortFind`).
  With another device on 0x508-0x50F, eight ports with a ten-bit decoder are not
  found in 0x100-0x10F although 0x100-0x107 and all its mirrors are free
  (`Placement.LowerPlacementIsMissed`).
- A commit that does not directly follow a successful test or retest installs
  the empty list (`Transactions.UndisciplinedCommitLosesAll`).
- A test withdraws exactly the listed devices' ranges if and only if no request
  of no device is listed or one of them comes after a request of a device
  (`Arbiters.TestWithdrawsDevices`). A test of a single request of no device
  withdraws nothing (`Arbiters.NullSurvives`).
- A repeated message resolve finds its run again if and only if the run was not
  degraded to one vector, which happens when no base suits the full count
  (`VectorTables.VectorTable.ResolveTwice`). A degraded run is recorded with
  count one, so the repeat takes another slot and vector. It also takes over the
  key of a single-vector run of the same owner and placement if and only if the
  first free slot comes before that run's (`VectorTables.VectorTable.Resolve`);
  `VectorTables.SingleVectorIsLost` has a table on which it does. No other key is
  affected.
- A new message run has its base in use afterwards if and only if its count is at
  most 2^32 - 0x50 (`VectorTables.VectorTable.Resolve`). A larger count wraps. It
  does not suit where the HAL keeps vector 0 (`VectorTables.WrappedRunMeetsZero`);
  where the HAL gives vector 0 away it can, the claimed range runs backwards and
  is refused, and the next line is given the vector the run begins at
  (`VectorTables.WrappedRunIsNotClaimed`). Such a run holds no vector, so all
  that is said of the others stands.
- Away from the ports, and with no sharing by driver, a conflict query names
  nothing if and only if the request fits once its own device's ranges are gone
  (`Arbiters.Arbiter.QueryConflict`, `Arbiters.FittingIsNotRefused`). At the ports
  a failed search can leave the window narrowed to the placement whose mirrors
  were taken, so what is named after the first conflict may be in the way of that
  placement only.
- The flag of a power resource says what its references did. Waking from
  hibernation evaluates `_ON` again for every resource that is on and changes no
  flag when that fails (`PowerResources.PowerManager.Resume`).
- For an accepted object the size pass reports the true size if and only if
  that size fits 32 bits (`WireEncoder.SizeAgreement`); a package of 2^29
  integers is accepted with size 8 (`WireEncoder.OverflowIsAccepted`).
- A waiting thermal IRP has somebody at work on it unless a work item could not
  be allocated and nothing has been asked of the zone since
  (`Thermal.WaitersAreServed`).

## Model

| member | source | states |
|---|---|---|
| `RangeLists.WithoutOwners` | shim-headers/rtlrangelist.h:112-118 | deleting owners keeps exactly the ranges of everybody else |
| `RangeLists.WithoutOwnersTwice` | shim-headers/rtlrangelist.h:112-118 | deleting owners one after the other is deleting them together |
| `RangeLists.RangeList.Add` | shim-headers/rtlrangelist.h:89-100 | a range is added exactly when it runs forwards and conflicts are allowed or absent |
| `RangeLists.RangeList.Delete` | shim-headers/rtlrangelist.h:102-110 | one range with these bounds and owner goes, if there is any; the contract leaves open which |
| `RangeLists.RangeList.DeleteOwner` | shim-headers/rtlrangelist.h:112-118 | one owner's ranges go, the rest keeps its order |
| `RangeLists.RangeList.FirstBlocker` | shim-headers/rtlrangelist.h:136-149 | a range is available exactly when nothing untolerated meets it |
| `RangeLists.RangeList.Find` | shim-headers/rtlrangelist.h:120-134 | the highest aligned clear start in the window, or none when there is none |
| `Descriptors.PackRoundTrip` | sys/resarb.c:66-181 | an assignment unpacks to the start it was packed with and the length that was asked for |
| `Descriptors.BuildAlternative` | reactos-libs/arbiter/transaction.c:41-99 | an alternative is built exactly from the descriptors that can be unpacked; it is bad exactly when its window runs backwards, and a good one is fixed exactly when the window holds its length in one place only |
| `Descriptors.ScoreRequirement` | sys/resarb.c:183-206 | the size of the window saturated at 2^31 - 1, and -1 exactly for a requirement nothing can meet |
| `Walker.WritePriority` | reactos-libs/arbiter/range.c:111-186 | the next priority is the first later ordering window that can hold the alternative, then the whole window, then exhausted |
| `Walker.AdvanceLowersRank` | reactos-libs/arbiter/range.c:111-186 | every advance leaves fewer windows to come |
| `Walker.AdvanceIsLater` | reactos-libs/arbiter/range.c:111-186 | priorities move from ordering windows to the whole window to exhausted, ordinary windows in list order |
| `Walker.PickLowest` | reactos-libs/arbiter/range.c:437-445 | the first alternative of lowest priority is chosen |
| `Walker.TrimNoneMeansNoPlacement` | reactos-libs/arbiter/range.c:476-503 | a window given up for its size held no aligned placement |
| `Walker.TrimKeepsPlacements` | reactos-libs/arbiter/range.c:476-503 | a trimmed window admits exactly the aligned placements of the raw one when nothing is carried out |
| `Walker.CarryRestartsAtZero` | reactos-libs/arbiter/range.c:486-487 | a carry out of 64 bits restarts the window at zero |
| `Walker.TrimEndsFit` | reactos-libs/arbiter/range.c:476-503 | both ends of a trimmed window are placements of their own |
| `Walker.TrimExact` | reactos-libs/arbiter/range.c:476-503 | trimming is exact if and only if nothing is carried out |
| `Walker.Advance` | reactos-libs/arbiter/range.c:419-435 | on entry all alternatives are seeded, afterwards only the one last worked on moves, to exactly its next window |
| `Walker.Offer` | reactos-libs/arbiter/range.c:437-515 | the lowest priority becomes a window, or is passed over because it is stale, too small or the window just tried |
| `Walker.PassedOverHeldNothing` | reactos-libs/arbiter/range.c:476-515 | a window passed over was the one just tried or held no placement |
| `Walker.GetNextAllocationRange` | reactos-libs/arbiter/range.c:403-517 | each call ends, by a chain of such turns, with the window of the lowest priority or with every alternative exhausted; windows come in phase and list order and cost rank |
| `Placement.OverrideConflict` | reactos-libs/arbiter/range.c:43-93 | a fixed requirement is placed over conflicts exactly when there are some and all are its own device's |
| `Placement.ShareDriverExclusive` | reactos-libs/arbiter/range.c:306-380 | driver-exclusive sharing hands out the whole window and needs a candidate range in it |
| `Placement.Escape` | reactos-libs/arbiter/range.c:594-623 | an occupied window is used only by driver sharing or by reclaiming; failing means nothing could be reclaimed |
| `Placement.LibraryFind` | reactos-libs/arbiter/range.c:543-627 | the highest clear placement is taken if there is one; failing means no clear placement and nothing to reclaim, and names a range in the way unless the window has no place at all; only declared attributes are opened up |
| `Placement.ResourceFind` | sys/resarb.c:708-748 | the same, with boot allocated and undecoded space opened up for boot configurations |
| `Placement.NextAlias` | sys/resarb.c:752-774 | the next mirror of a ten or twelve bit decoder is 0x400 or 0x1000 ports up, and there is none exactly past the 16-bit space or for a full decoder |
| `Placement.NextIsMirror` | sys/resarb.c:752-774 | it is the lowest of the ports the card also answers to |
| `Placement.PortAliasesAvailable` | sys/resarb.c:776-821 | the mirrors are available exactly when each is clear or only its own device stands on it |
| `Placement.PortFind` | sys/resarb.c:825-850 | a port placement has all its mirrors available; a request no escape can help is placed exactly when the highest clear placement has its mirrors free; failing means no room or a placement whose mirrors are taken |
| `Placement.FirstFoundDecides` | sys/resarb.c:825-850 | the first placement found decides: nothing else of the window is reached |
| `Placement.SecondSearch` | sys/resarb.c:838-848 | a second search above it finds nothing |
| `Placement.LowerPlacementIsMissed` | sys/resarb.c:825-850 | a concrete request whose lower placement and all its mirrors are free and which is not placed |
| `Ledger.AddAllocation` | reactos-libs/arbiter/range.c:647-669 | the placement and, for ports, all its mirrors are appended |
| `Ledger.LayMirrors` | sys/resarb.c:853-890 | every mirror of a port placement is claimed for the same device |
| `Ledger.WithdrawMirrors` | sys/resarb.c:891-916 | every mirror is withdrawn and the books balance without them |
| `Ledger.BacktrackAllocation` | reactos-libs/arbiter/range.c:685-698 | withdrawing a placement restores the multiset of ranges it was added to, sharing flags included when ranges with its bounds and owner carry its flag |
| `Attempts.FindInWindow` | sys/resarb.c:708-850 | the arbiter's own search, thorough in the sense of its kind, with the mirrors of a port placement free |
| `Attempts.PlaceNext` | reactos-libs/arbiter/entry.c:319-334 | windows are tried until one holds a placement; giving up means every window is exhausted; a new placement is strictly later |
| `Attempts.TakeBack` | reactos-libs/arbiter/entry.c:265-317 | the old choice is withdrawn and the window shrunk below it only when it is not fixed and there is room |
| `Attempts.Attempt` | reactos-libs/arbiter/entry.c:265-345 | one visit leaves the list without the old choice and with the new one, lowers the entry's weight, or gives the entry up |
| `Premises.TwinsAreSeen` | reactos-libs/arbiter/range.c:43-93 | away from the ports a fixed alternative has a twin exactly when its range is also a placement of the other alternative, with the other sharing flag |
| `Solver.HornerLess` | reactos-libs/arbiter/entry.c:240-369 | the stack's weights read as digits decrease when the first differing one does |
| `Solver.Onward` | reactos-libs/arbiter/entry.c:240-369 | moving forward resets later levels to the top and moving back to the bottom, and the measure still decreases |
| `Solver.KeptForward` | reactos-libs/arbiter/entry.c:336-345 | laying an entry down extends the books by exactly its ranges and keeps coinciding ranges of one owner equal in their sharing flags |
| `Solver.ListMatches` | reactos-libs/arbiter/range.c:685-698 | whichever range with an entry's bounds and owner is deleted, it carries the entry's sharing flag |
| `Solver.StillAccounted` | reactos-libs/arbiter/entry.c:282-286 | withdrawing one device's ranges leaves the starting ranges alone |
| `Soundness.PlacementFitsRequest` | reactos-libs/arbiter/range.c:543-627 | a placement is aligned, has exactly the requested length and lies inside its alternative, or below its minimum if a window of it carries |
| `Soundness.FixedWindowIsWhole` | reactos-libs/arbiter/transaction.c:82-83 | a fixed alternative is offered as a whole or not at all |
| `Soundness.CarriedFixedOverruns` | reactos-libs/arbiter/range.c:476-503 | a concrete fixed request whose window carries is placed over its own device on far more than it asked for |
| `Soundness.PlacementIsSound` | reactos-libs/arbiter/range.c:543-627 | a placement and its mirrors meet outside ranges only where both are shared or the range was declared available, and other devices' ranges only where both are shared, for every stack without twins |
| `Soundness.LaidTolerates` | reactos-libs/arbiter/range.c:543-627 | whatever a placement or a mirror meets is tolerated, unless the request is fixed and meets its own device |
| `Soundness.NoTwinsNoMismatch` | reactos-libs/arbiter/range.c:43-93 | requirements without twins never coincide with different sharing flags |
| `Soundness.NewcomerMatches` | reactos-libs/arbiter/entry.c:336-345 | a new placement agrees on sharing with every placed range of its device that it coincides with |
| `Search.HeadForward` | reactos-libs/arbiter/entry.c:336-345 | placing an entry keeps everything that holds at the loop head |
| `Search.HeadBack` | reactos-libs/arbiter/entry.c:347-369 | going back an entry keeps everything that holds at the loop head |
| `Search.MovesOn` | reactos-libs/arbiter/entry.c:240-369 | every turn lowers the measure of the search, whatever the clock says |
| `Search.Turn` | reactos-libs/arbiter/entry.c:240-369 | one turn keeps the tentative list equal to the starting list plus the placements below, or finds even the first entry given up |
| `Search.Solve` | reactos-libs/arbiter/entry.c:220-369 | the search ends without the clock; success leaves the starting list plus the full solution, failure at the first entry the starting list, and a search cut short the starting list plus the placements so far |
| `Search.Report` | reactos-libs/arbiter/entry.c:371-393 | every requester is told its alternative and packed position, and the mark of a null request stays |
| `Search.ReportKeepsSolution` | reactos-libs/arbiter/entry.c:371-393 | the report moves nothing |
| `Search.AllocateEntry` | reactos-libs/arbiter/entry.c:220-394 | a success is a complete solution, sound for plain stacks; a search cut short leaves the books as they stood; the status follows the outcome of the search |
| `TwinRun.TheyAreTwins` | reactos-libs/arbiter/range.c:43-93 | a concrete list whose only fault is a pair of twins |
| `TwinRun.TheyAreSorted` | reactos-libs/arbiter/entry.c:68-108 | its scores leave it in that order |
| `TwinRun.TwinsShareAnExclusiveRange` | reactos-libs/arbiter/entry.c:265-345 | on it the search ends with an exclusive range of one device given to another as well |
| `ArbitrationLists.ArbitrationList.Sort` | reactos-libs/arbiter/entry.c:68-108 | ascending by score, same entries, equal scores in their old order |
| `ArbitrationLists.SortIsUnique` | reactos-libs/arbiter/entry.c:49-66 | order and stability determine the sorted list |
| `Stacks.BuildStack` | reactos-libs/arbiter/transaction.c:121-201 | one unplaced state per entry with alternatives, in list order, or a failure exactly when a requirement cannot be unpacked |
| `Stacks.ScoreEntry` | reactos-libs/arbiter/transaction.c:290-304 | the score is the 32-bit sum, and fails exactly on a requirement nothing can meet |
| `Stacks.WriteBackAll` | reactos-libs/arbiter/entry.c:371-393 | every entry of the list receives what its state was told |
| `Arbiters.TestOwnersAreDevices` | reactos-libs/arbiter/transaction.c:279-288 | handling a run of one device's entries once withdraws every listed device but possibly the one taken to stand before the list |
| `Arbiters.TestWithdrawsDevices` | reactos-libs/arbiter/transaction.c:279-288 | exactly the listed devices' ranges are withdrawn if and only if no request of no device is listed or one comes after a request of a device |
| `Arbiters.NullSurvives` | reactos-libs/arbiter/transaction.c:279-288 | a test of one request of no device leaves all committed ranges in place |
| `Arbiters.Arbiter.Prepare` | reactos-libs/arbiter/transaction.c:258-306 | the scratch list is the committed one without the withdrawn owners, the entries are scored, failing exactly on an unmeetable requirement |
| `Arbiters.Arbiter.Test` | reactos-libs/arbiter/transaction.c:230-323 | a success leaves a solution over the vacated committed ranges, a failure an empty scratch list, and the committed ranges are untouched |
| `Arbiters.Arbiter.Retest` | reactos-libs/arbiter/transaction.c:352-450 | succeeds exactly when every entry is a null request or carries an outcome, and lays the recorded positions over the vacated committed ranges |
| `Arbiters.Arbiter.Commit` | reactos-libs/arbiter/transaction.c:540-555 | the two lists trade places and the new scratch list is empty |
| `Arbiters.Arbiter.Rollback` | reactos-libs/arbiter/transaction.c:568-579 | the scratch list is emptied and nothing else changes |
| `Arbiters.Arbiter.Boot` | reactos-libs/arbiter/transaction.c:607-697 | exactly the sane fixed configurations are added to the committed ranges and written back |
| `Arbiters.Arbiter.QueryConflict` | reactos-libs/arbiter/transaction.c:801-949 | ends; names only other owners' committed ranges, no owner twice; once they are gone the request fits in its own window, mirrors included; away from the ports it did not fit before the last of them was named, and each is in its way; the committed ranges are untouched |
| `Arbiters.FittingIsNotRefused` | reactos-libs/arbiter/transaction.c:880-888 | away from the ports and without driver sharing, fitting and being refused exclude each other, so an empty answer means that the request fits and any other that it does not |
| `Retesting.StackIsPlain` | reactos-libs/arbiter/transaction.c:230-323 | the conditions on a list carry over to the stack built from it |
| `Retesting.TwinFreeReordered` | reactos-libs/arbiter/entry.c:68-108 | sorting makes no twins |
| `Retesting.StackHasNoTwins` | reactos-libs/arbiter/transaction.c:121-201 | a list without twins builds a stack without twins |
| `Retesting.RetestRebuildsEntry` | reactos-libs/arbiter/transaction.c:398-433 | an entry told of its placement is laid down again on exactly the same ranges |
| `Retesting.RetestRebuildsTest` | reactos-libs/arbiter/transaction.c:352-450 | a retest after a successful test succeeds, lays down the very ranges the test placed, and rebuilds the same multiset of start, end and owner, and of sharing too when the list has no twins; only fixed alternatives are asked not to carry |
| `Transactions.Handle` | reactos-libs/arbiter/handler.c:161-280 | every request, with the list it came with, is the step of its own name; a test succeeds exactly with a solution and tells it to its requesters; the two lists never alias |
| `Transactions.ProposalIsScratch` | reactos-libs/arbiter/transaction.c:230-450 | a successful test or retest leaves the committed ranges minus the listed devices' plus the ones found for them |
| `Transactions.PlainIsExact` | reactos-libs/arbiter/transaction.c:230-450 | with exact sharing flags for a plain list without twins |
| `Transactions.BalancedWithout` | reactos-libs/arbiter/transaction.c:279-288 | withdrawing owners from two equal multisets of ranges leaves equal multisets |
| `Transactions.CommittedIsRecord` | reactos-libs/arbiter/transaction.c:540-579 | over every disciplined run the committed ranges are the first ones, minus the devices of each committed list plus the ranges found for them, plus the configurations of each boot list, in order |
| `Transactions.PlainRunIsExact` | reactos-libs/arbiter/transaction.c:540-579 | with exact sharing flags over runs of plain lists without twins |
| `Transactions.RecordIsTold` | reactos-libs/arbiter/transaction.c:540-579 | for plain lists that is what the requesters could work out from the assignments they were told |
| `Transactions.UndisciplinedCommitLosesAll` | reactos-libs/arbiter/transaction.c:540-555 | a commit that does not follow a proposal installs the empty list |
| `Orderings.OrderingTable.Add` | reactos-libs/arbiter/ordering.c:83-124 | a forward window is appended while fewer than 1024 are held |
| `Orderings.OrderingTable.Exclude` | reactos-libs/arbiter/ordering.c:151-203 | the hole is cut out of every window in order, or nothing changes when the result would not fit |
| `Orderings.PruneCovers` | reactos-libs/arbiter/ordering.c:151-203 | pruning removes the hole's addresses and no others |
| `Orderings.PruneKeepsOrder` | reactos-libs/arbiter/ordering.c:151-203 | surviving addresses are offered in the order they were |
| `Orderings.AddReserved` | reactos-libs/arbiter/ordering.c:459-474 | a reserved window is recorded and pruned away |
| `Orderings.LoadPolicy` | reactos-libs/arbiter/ordering.c:585-622 | when the tables have room, the windows are the preferred ones pruned of every reserved one |
| `Orderings.PolicyMeans` | reactos-libs/arbiter/ordering.c:585-622 | the loaded windows cover exactly preferred minus reserved, in the order of preference |
| `Orderings.ReservedIsLastResort` | reactos-libs/arbiter/range.c:450-503 | before the whole-window pass an offered window touches a reserved address if and only if its bottom carried and a reserved address lies below it |
| `Orderings.CarryOffersReserved` | reactos-libs/arbiter/range.c:476-503 | a concrete policy and request for which it does |
| `Seeding.Insert` | reactos-libs/arbiter/handler.c:362-372 | a window is inserted in place, lowest start first |
| `Seeding.Collect` | reactos-libs/arbiter/handler.c:344-373 | exactly the windows of the arbiter's own type, lowest first |
| `Seeding.BlockIsSound` | reactos-libs/arbiter/handler.c:393-399 | the stretch below the next window lies in no window |
| `Seeding.Seed` | reactos-libs/arbiter/handler.c:316-419 | an address is blocked exactly when there are windows and it lies in none; overlapping, nested, unsorted and wrapped windows included |
| `Vectors.SeedIdt` | sys/irqlib.c:446-479 | exactly the vectors the HAL did not grant are used |
| `Vectors.AddedUses` | sys/irqlib.c:571-585 | claiming free vectors makes them used and no others |
| `Vectors.DeletedUses` | sys/irqlib.c:670-691 | deleting a run frees its vectors and no others |
| `Vectors.LineAdded` | sys/irqlib.c:588-625 | a line allocation keeps processor 0's set the disjoint union of seed, lines and runs |
| `Vectors.RunAdded` | sys/irqlib.c:629-668 | so does a message run |
| `Vectors.WrappedRunAdded` | sys/irqlib.c:650-663 | a run that wraps changes nothing in the set |
| `Vectors.RunFlagged` | sys/irqlib.c:1507-1512 | so does claiming or unclaiming a run |
| `Vectors.RunDropped` | sys/irqlib.c:1561-1598 | so does freeing one |
| `VectorTables.VectorTable.constructor` | sys/irqlib.c:522-536 | the seeded tables satisfy the exclusivity invariant, whatever the HAL granted |
| `VectorTables.VectorTable.FreeEverywhere` | sys/irqlib.c:539-568 | free means free on every tracked processor |
| `VectorTables.VectorTable.AllocateLine` | sys/irqlib.c:588-625 | a known line keeps its vector, a new one gets the lowest free one, and failing means none is free; exclusivity is kept |
| `VectorTables.VectorTable.FindRun` | sys/irqlib.c:629-668 | the lowest aligned base from which the run ends in the band and is free everywhere, or none when none exists, for every 32-bit count and grant |
| `VectorTables.WrappedRunMeetsZero` | sys/irqlib.c:650-657 | a count that wraps 32 bits suits no base when vector 0 is kept |
| `VectorTables.WrappedRunSuits` | sys/irqlib.c:650-657 | and suits the bottom of the band when the HAL gives vector 0 and the band away |
| `VectorTables.WrappedRunIsNotClaimed` | sys/irqlib.c:571-668 | the run is then recorded without being claimed, and the next line gets its first vector |
| `VectorTables.VectorTable.Resolve` | sys/irqlib.c:694-788 | a known run is found again, a new one goes into the first free slot with the lowest base for its count or degraded to one vector; fails exactly for want of a slot or vector; a repeat finds it exactly when it was not degraded; a known single vector is lost exactly when a degraded run goes in before it, and no other key changes |
| `VectorTables.AfterResolve` | sys/irqlib.c:745-766 | what every key finds once a run has been recorded |
| `VectorTables.VectorTable.ResolveTwice` | sys/irqlib.c:694-788 | the same resolve twice gives the same base exactly when the first was not degraded |
| `VectorTables.SingleVectorIsLost` | sys/irqlib.c:713-766 | on a full table the same single-vector resolve is answered differently before and after a degraded one |
| `VectorTables.VectorTable.HalClaim` | sys/irqlib.c:1451-1558 | the owner's lowest unclaimed run is claimed, or a new one is placed in the first free slot at the lowest base |
| `VectorTables.VectorTable.HalFree` | sys/irqlib.c:1561-1598 | arbiter placed runs persist, HAL placed ones are freed |
| `VectorTables.VectorTable.AddProcessor` | sys/irqlib.c:482-520 | a hot-added processor starts from a fresh seed and exclusivity is kept |
| `VectorTables.TableAndRunsApart` | sys/irqlib.c:1376-1445 | table entries are distinct and in no run |
| `VectorTables.VectorTable.GetVectorInput` | sys/irqlib.c:1376-1445 | the exact inverse of the line table, and a message exactly for the vectors of live runs |
| `WireDecoder.CountIsSkip` | sys/ioctl.c:169-194 | the count is exactly the number of arguments that fit with less than a header left |
| `WireDecoder.PassesAgree` | sys/ioctl.c:196-317 | the convert pass takes exactly the arguments the count pass counted |
| `WireDecoder.CountArguments` | sys/ioctl.c:169-194 | the cursor loop computes the count and reads inside its input |
| `WireDecoder.ArgumentToObject` | sys/ioctl.c:196-270 | the decoder computes the object of the first argument and its wire length |
| `WireDecoder.ArgumentsToObjects` | sys/ioctl.c:273-317 | the loop computes the objects of exactly that many arguments |
| `WireDecoder.RoundTrip` | sys/ioctl.c:196-460 | whatever follows it, an object's wire form decodes to the object |
| `WireDecoder.RoundTripAll` | sys/ioctl.c:196-460 | so does a whole argument list, nested and empty packages included |
| `WireEncoder.WireSizeExact` | sys/ioctl.c:319-385 | without overflow the size pass accepts exactly what can be sent, with its true size |
| `WireEncoder.SizeAgreement` | sys/ioctl.c:319-385 | an accepted size is the true one if and only if the true one fits 32 bits |
| `WireEncoder.OverflowIsAccepted` | sys/ioctl.c:367-378 | a package of 2^29 integers is accepted as if it were empty |
| `WireEncoder.ObjectWireSize` | sys/ioctl.c:319-385 | the recursive loop computes the size pass |
| `WireEncoder.ObjectToArgument` | sys/ioctl.c:387-460 | the bytes written are a wire form of the object, exactly as many as the size pass said, and nothing beside them changes |
| `WireEncoder.ElementsToArguments` | sys/ioctl.c:432-452 | elements are written back to back |
| `WireEncoder.WriteEvalOutput` | sys/ioctl.c:609-681 | each status exactly in its case, the header for two pass callers, and a reply that holds every object and does not pass its reported length |
| `WireEncoder.ReplyReadsBack` | sys/ioctl.c:609-681 | a reply reads back as the objects it was made from |
| `Deferral.NextKeepsInv` | uacpi-host/uacpi_isr.c:81-199 | every atomic step keeps the deferral invariant |
| `Deferral.UnitsConserved` | uacpi-host/uacpi_isr.c:151-167 | in every reachable state units given are units released plus units still owed |
| `Deferral.ExactlyOneResponsible` | uacpi-host/uacpi_isr.c:265-284 | an entry is listed at most once, non-zero deferred units have exactly one responsible party, and zero means nobody refers to the semaphore |
| `Deferral.PendingIsSeen` | uacpi-host/uacpi_isr.c:169-199 | whatever is listed has a DPC queued, about to be queued, or still in its loop |
| `Deferral.DrainMeansDone` | uacpi-host/uacpi_isr.c:286-323 | a drain returns only when no item is deferred, queued or running |
| `Thermal.NextKeepsInv` | drivers/thermal.c:684-899 | every atomic step keeps the zone invariant |
| `Thermal.OneWorker` | drivers/thermal.c:818-860 | at most one worker is queued or running, and one is exactly when the zone says so |
| `Thermal.CompletedOnce` | drivers/thermal.c:684-754 | no IRP is completed twice, and a pended one is on the queue or in exactly one pair of hands |
| `Thermal.DoneForGood` | drivers/thermal.c:881-898 | a completed IRP stays completed, once |
| `Thermal.StrandedSinceFailure` | drivers/thermal.c:818-860 | work is pending without a worker only since a work item could not be allocated |
| `Thermal.PassServesAll` | drivers/thermal.c:684-754 | after a completion pass no IRP without a cancel routine is queued |
| `Thermal.WaitersAreServed` | drivers/thermal.c:937-1106 | while a non-query IRP waits a completion step is pending, held by the worker or owed by a stop, and somebody will take it unless a work item could not be had and nothing has been asked since |
| `GlobalLock.AttemptedBits` | uacpi/source/mutex.c:21-43 | an attempt sets owned, and pending exactly when it was owned |
| `GlobalLock.NeverBoth` | uacpi/source/mutex.c:21-54 | the two sides never own the lock together and the upper 30 bits never change |
| `GlobalLock.ContendedIsHistory` | uacpi/source/mutex.c:21-43 | the owner is contended exactly when the other side failed an attempt during the tenure, the firmware's from before the run included |
| `GlobalLock.NotifiesExactlyWhenContended` | uacpi/source/mutex.c:106-117 | GBL_RLS is written exactly when the other side failed an attempt during the tenure, the firmware's from before the run included |
| `GlobalLock.NoLostNotification` | uacpi/source/mutex.c:56-104 | a waiting side has been told of a release or the owner will tell it |
| `PowerResources.Resolve` | sys/powerres.c:200-249 | known resources without duplicates, at most as many as fit, sorted by resource order with equal orders in the sequence of the package |
| `PowerResources.SortByOrder` | sys/powerres.c:240-247 | the in-place sort keeps the list, orders it and is stable |
| `PowerResources.HoldersUpdate` | sys/powerres.c:283-348 | one device's change changes the number of holders by exactly its own part |
| `PowerResources.PowerManager.Reference` | sys/powerres.c:157-173 | one reference is recorded; `_ON` is evaluated exactly for the first reference of a resource that is off, and the record accounts for every resource |
| `PowerResources.PowerManager.Dereference` | sys/powerres.c:176-194 | one reference is given back; `_OFF` is evaluated exactly when none is left on a resource that is on, and the record accounts for every resource |
| `PowerResources.PoweredStep` | sys/powerres.c:157-194 | every lawful call keeps a referenced resource on unless its last `_ON` failed |
| `PowerResources.DroppedStep` | sys/powerres.c:176-194 | dropping references evaluates `_OFF` for idle resources only and turns nothing else off |
| `PowerResources.PowerManager.AcquireForState` | sys/powerres.c:283-315 | what the new state needs and the device lacks is referenced in order, counts stay exact, nothing goes off, and everything needed is on unless its last recorded `_ON` failed |
| `PowerResources.PowerManager.ReleaseDelta` | sys/powerres.c:318-348 | what the new state does not need is dropped in reverse order, counts stay exact, and every recorded `_OFF`, failed or not, was on a resource that nobody holds or needs any more |
| `PowerResources.PowerManager.AcquireWake` | sys/powerres.c:354-388 | wake references are taken in order and counted on top, and everything on the list is on unless its last recorded `_ON` failed |
| `PowerResources.PowerManager.ReleaseWake` | sys/powerres.c:391-407 | wake references are given back in reverse, and every recorded `_OFF`, failed or not, was on a resource that nobody holds or needs any more |
| `PowerResources.PowerManager.Resume` | sys/powerres.c:409-431 | `_ON` is evaluated exactly for the resources that are on, in order, and nothing else changes |
| `PowerResources.CountIsBalance` | sys/powerres.c:157-194 | no drop ever meets a count of zero, so a count is the references taken less those dropped |
| `PowerResources.PowerManager.UnusedIsUnheld` | sys/powerres.c:176-194 | a count of zero means no holder, no device in transition and no wake acquisition |

## Left out

- PnP and power dispatch, device creation and interface tables: plumbing over kernel calls.
- The interrupt arbiter sys/irqarb.c: its placements depend on PCI configuration reads and AML.
- The no-retry state flag, which only the interrupt arbiter sets, and unowned-conflict tolerance, which nothing sets.
- Secondary interrupt vectors, connection data and IRQL computation in sys/irqlib.c.
- `AllocateFrom` lists in a test: only the committed list is modelled as the starting point.
- Reservations and releases outside a transaction (reactos-libs/arbiter/handler.c:515-580).
- The registry walk and translation of policy descriptors: the policy windows are parameters.
- The failure path of pool allocations other than the thermal work item.
- Input headers of the evaluation IOCTLs before the argument list, and the choice of status codes for malformed arguments.
- The order in which a completion pass completes thermal IRPs, and the contents of the replies.
- Wake arming in sys/power.c: wake acquisitions are opaque tokens here.
- The recursive and read-write locks and the sequence numbers in uacpi/source/mutex.c.
- Placement.ShareDriverExclusive: whether two device stacks share a driver is left open, because it depends on device objects outside the repository.
- Search.Solve: does not state that a failure rules every solution out, because the deadlines and the skipped repeated window give up some placements on purpose.
- WireEncoder.WriteEvalOutput: asks for a result whose true size fits 32 bits, because the write pass relies on the reported size, which is the true one exactly then (`WireEncoder.SizeAgreement`).
- Walker.GetNextAllocationRange: does not state that every window is offered, because the walker drops a window equal to the last one.
