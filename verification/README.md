# Ordinary forms, verified

A Dafny model of the parts of `onec-form-native` where state, traversal and arithmetic are hard to get
right, with machine-checked proofs of what they promise. `dafny verify dfyconfig.toml` checks it all.

What is modelled, and where:

- **The ownership tree of a form** (`FormModel`, `FormGraph`, `FormWalk`, `FormValidation`). Validation
  counts parents and searches for cycles in three colours; listing the form's items walks the same graph
  with a stack. Both accept the same documents.
- **Placement** (`Placement`, `TabOrder`, `Regrouping`, `ZOrder`, `FormDocument`, `MixedPanel`,
  `PlacementRuns`, `PlacementGroups`). The group of a control, the sparse orders of its members, and the
  setters for TabOrder, ZOrder and DefaultControl. `FormDocument` is the object whose lists and positions the
  setters change in place; each method is proved equal to a function of the old state, and the lemmas are
  about those functions. `PlacementRuns` mixes the setters in runs of any length.
- **Calendar fields** (`SelectedDates`, `CalendarField`). Spans of days refine a sequence of dates in three
  selection modes.
- **Charts** (`ChartModel`, `ChartBudget`, `ChartResize`, `ChartDocument`, `ChartRuns`). Resizing the dense
  matrix, the shared budget, and the IDs issued over whole runs.
- **Typed values and value lists** (`TypedValue`, `TypedValueVisits`, `ValueListIdentity`). The node budget, and row references
  that survive whole-list replacement.
- **Decimals** (`Decimal`, `DecimalPolicy`, `DecimalGrammar`). Canonical texts, comparison, clamping, rounding with wrap-around.
- **The output transaction** (`OutputTransaction`). Writing a set of files under arbitrary faults.
- **Type sets** (`TypeItems`, `TypeSets`). Memoised expansion over possibly cyclic references.
- **The metadata index** (`MetadataContext`, `MetadataPaths`). Encoded composite keys, and paths by name and by key.
- **Text** (`Utf8`, `JsonText`). Well-formed UTF-8, and printing any bytes as a JSON string.

A function that stands in for a table or a choice of the source (which kind may hold what, which entry a
name stands for, what is stored) has a lemma beside it that says the same by cases, without naming it.

Conventions. Code that updates fields is a class or a loop, proved against a specification function; code
that computes a value is a function. Exceptions and error results are option or status values. 64-bit and
32-bit limits are written out where the source relies on them. Two choices of the outside world are
parameters: `FileSystem` takes the schedule of failing file operations, and a random sample value is any
number in its range. Many proofs start by hiding definitions they do not need, and automatic induction is
off throughout, so that each proof is the one written.

## Where the code does less than one might expect

Each of these has a concrete example and an exact condition among the rows below.

- Setting ZOrder in a shared panel that mixes controls and pages can end in an exception, after the list was
  already rotated (`ZOrderThrowsIff`, `MixedPanelThrows`).
- A staged file whose write fails is removed, but a failure of that removal is ignored: a transaction can
  report a clean rollback and leave a file behind. `Stranded` computes from the schedule, the initial files
  and the requests whether it does (`WriteFileSet`, `NeverStranded`, `StrayExample`).
- A form without an ID does not list its controls, but it lists the pages of its panels (`PagesListedIff`,
  `NamelessFormPages`).
- Validation does not look at a chart's ActiveSeries, and resizing compares its series ID but not its owner:
  a dangling or foreign value survives (`ActiveSeriesLiveIff`, `DanglingActiveSeriesStays`,
  `ForeignActiveSeriesStays`).
- Resizing a chart to the count it has leaves a matrix that is not in rows as it is (`RowMajorIff`,
  `UnorderedCellsStay`).
- Looking up a member by name under an owner that contains the separator can find another owner's member
  (`LookupNameExact`, `SeparatorExample`). No registered owner contains it.

## Model

| member | source | states |
|---|---|---|
| FormValidation.CheckIds | sidecars/onec-form-native/src/model/ordinary_form.cpp:3371-3405 | Recording IDs category by category reports a null ID exactly if the form, a control or a page has one, and a duplicate exactly if two controls or two pages share an ID, which it names. |
| FormValidation.CheckChild | sidecars/onec-form-native/src/model/ordinary_form.cpp:3726-3831 | One child reference: what it adds to the report, and that its parent count grows by one only if it resolves. |
| FormValidation.CheckChildren | sidecars/onec-form-native/src/model/ordinary_form.cpp:4022-4043 | One child list: exactly which violations it adds, each with owner and child: a dangling child, a child the kind forbids, and a child listed before; the counts become those of all lists so far. |
| FormValidation.CheckOwnership | sidecars/onec-form-native/src/model/ordinary_form.cpp:3806-3835 | Over form, controls and pages: exactly these violations, and the counts are the numbers of places that refer to each object. |
| FormValidation.CheckOrphans | sidecars/onec-form-native/src/model/ordinary_form.cpp:4533-4552 | An orphan is reported, by name, exactly if some control or page is listed nowhere. |
| FormValidation.Visit | sidecars/onec-form-native/src/model/ordinary_form.cpp:4559-4591 | One call of the three-colour search: finished objects stay in an order in which children come first, open ones form a path, and a cycle is reported only if there is one. |
| FormValidation.FindCycles | sidecars/onec-form-native/src/model/ordinary_form.cpp:4554-4602 | The search over all controls and pages reports a cycle if and only if the resolved child graph has one, and every report names an edge of a cycle. |
| FormValidation.Validate | sidecars/onec-form-native/src/model/ordinary_form.cpp:4482-4602 | Each of the seven structural defects is reported if and only if the document has it, and every violation names the objects it is about; for all but cycles and parents too many, all of them. Which children a control may have is said by kind: a leaf none, a usual group and a page no page, a panel and the form any. |
| FormGraph.MisplacedByKind | sidecars/onec-form-native/src/model/ordinary_form.cpp:4022-4043 | The table of child policies forbids exactly what does not belong there by kind. |
| FormGraph.AcyclicReachesAll | sidecars/onec-form-native/src/model/ordinary_form.cpp:4533-4602 | Acyclic and exactly one parent each: every control and every page can be reached from the form. |
| FormWalk.FormItemRefs | sidecars/onec-form-native/src/model/ordinary_form.cpp:1642-1691 | The stack loop ends on every graph and returns what the recursive walk in document order returns, for controls and for a panel's pages (what that is, the rows below say without the walk). |
| FormWalk.ListItems | sidecars/onec-form-native/src/model/ordinary_form.cpp:1654-1684 | The loop alone: it completes exactly if the walk succeeds and meets as many controls and pages as there are. |
| FormWalk.WalkIsPreorder | sidecars/onec-form-native/src/model/ordinary_form.cpp:1654-1683 | A successful walk is the preorder of a finite tree that unfolds the child lists. |
| FormWalk.ControlsListedIffSound | sidecars/onec-form-native/src/model/ordinary_form.cpp:1642-1686 | The walk lists the form's controls if and only if validation finds none of the seven structural defects: two algorithms, the same documents. |
| FormWalk.ControlsListedInPreorder | sidecars/onec-form-native/src/model/ordinary_form.cpp:1654-1685 | On a sound document every control is listed, once, in preorder. |
| FormWalk.ControlsOfForm | sidecars/onec-form-native/src/model/ordinary_form.cpp:1642-1691 | The form's controls are listed exactly for its own ID and on a sound document. |
| FormWalk.PagesListedIff | sidecars/onec-form-native/src/model/ordinary_form.cpp:1647-1690 | A panel's pages are listed exactly for a panel with a page, on a document that is sound apart from the form's own ID; they are its page references in their order. |
| FormWalk.NamelessFormPages | sidecars/onec-form-native/src/model/ordinary_form.cpp:1644-1648 | A form without an ID: its controls are not listed, the pages of its panel are. |
| Placement.IndexOwners | sidecars/onec-form-native/src/model/ordinary_form.cpp:839-853 | After indexing every list, each child has its number of places and the last owner that lists it. |
| Placement.OwnerOfIff | sidecars/onec-form-native/src/model/ordinary_form.cpp:854-861 | A child has an owner exactly if one place in the whole document refers to it, and then it is the list that holds it. |
| Placement.PlacementControlGroup | sidecars/onec-form-native/src/model/ordinary_form.cpp:833-906 | The method with its two owner maps computes the placement group: the own list, or a shared panel with its pages in order (which controls that is, `PlacementGroups` says by kinds and lists). |
| Placement.GroupsAgree | sidecars/onec-form-native/src/model/ordinary_form.cpp:833-906 | With unique IDs, every member of a control's group has the same group in the same order. |
| Placement.InOwnGroup | sidecars/onec-form-native/src/model/ordinary_form.cpp:833-906 | With unique IDs, a control that has a group is in it. |
| Placement.GroupDistinct | sidecars/onec-form-native/src/model/ordinary_form.cpp:883-905 | No control is in a group twice. |
| PlacementGroups.GroupByPlace | sidecars/onec-form-native/src/model/ordinary_form.cpp:864-906 | The group of every control of a sound document, by kinds and lists: the controls of its own list in their order; in a panel whose pages share one area, the panel's own controls and then those of its pages, page by page. |
| PlacementGroups.NoGroupIff | sidecars/onec-form-native/src/model/ordinary_form.cpp:864-885 | On a sound document a control has no group exactly if it is in a panel, or on a page of one, whose SeparateByPage has a wrong type. |
| PlacementGroups.SomePlace | sidecars/onec-form-native/src/model/ordinary_form.cpp:4533-4545 | On a sound document every control is in some list, so the laws about the controls of a list speak of every control. |
| PlacementGroups.GroupMembersIff | sidecars/onec-form-native/src/model/ordinary_form.cpp:864-906 | Two controls of a sound document share a group exactly if they are in one list or in lists of one shared area. |
| PlacementGroups.UntouchedReads | sidecars/onec-form-native/src/model/ordinary_form.cpp:914-932 | Orders that were never set number a group from 1 in the order of its list. |
| PlacementGroups.UntouchedSupported | sidecars/onec-form-native/src/model/ordinary_form.cpp:914-932 | So on a sound document with untouched positions no order of a control with a group is refused. |
| TabOrder.ReadOrders | sidecars/onec-form-native/src/model/ordinary_form.cpp:922-930 | Reading the sparse orders of a group gives a numbering of 1 to n, or nothing if they are none. |
| TabOrder.FindGroup | sidecars/onec-form-native/src/model/ordinary_form.cpp:914-932 | The tab-order group of a control: its members, their orders, and its own place. |
| TabOrder.ShiftNumbers | sidecars/onec-form-native/src/model/ordinary_form.cpp:2757-2763 | Moving one order and shifting those between keeps a numbering of 1 to n and the relative order of the rest. |
| TabOrder.StoredReads | sidecars/onec-form-native/src/model/ordinary_form.cpp:2764-2768 | Orders stored sparsely, with the default for a member in its own place, read back as they were. |
| TabOrder.TabOrderTakesEffect | sidecars/onec-form-native/src/model/ordinary_form.cpp:2739-2770 | Setting TabOrder to k within 1 to n: the group stays, the orders number 1 to n, the target reads k and the others keep their relative order. |
| TabOrder.TabOrderElsewhere | sidecars/onec-form-native/src/model/ordinary_form.cpp:2739-2770 | Setting TabOrder changes no order read outside the target's group. |
| TabOrder.TabOrderStored | sidecars/onec-form-native/src/model/ordinary_form.cpp:2757-2768 | What setting TabOrder stores: a member whose order stays keeps its stored value, any other stores its shifted order, as the default if that is its place; no other position changes. |
| TabOrder.DefaultOpReads | sidecars/onec-form-native/src/model/ordinary_form.cpp:2864-2876 | Which controls read as default after one assignment of DefaultControl. |
| TabOrder.DefaultStored | sidecars/onec-form-native/src/model/ordinary_form.cpp:2864-2876 | What an assignment of DefaultControl stores, and that it stores nothing else. |
| TabOrder.DefaultOpKeeps | sidecars/onec-form-native/src/model/ordinary_form.cpp:2864-2876 | One assignment or reset keeps at most one default control per group. |
| TabOrder.DefaultRunKeeps | sidecars/onec-form-native/src/model/ordinary_form.cpp:2864-2876 | So does every run of assignments and resets. |
| TabOrder.CountDefaults | sidecars/onec-form-native/src/model/ordinary_form.cpp:4507-4509 | The count of default controls in a group is over one exactly if two members are default. |
| TabOrder.CheckDefaults | sidecars/onec-form-native/src/model/ordinary_form.cpp:4498-4512 | Validation reports nothing exactly if no group has two default controls; it looks at each group once, and names a default control of every group that has two. |
| FormDocument.OrdinaryFormDocument.SetTabOrder | sidecars/onec-form-native/src/model/ordinary_form.cpp:2739-2770 | The in-place setter: unsupported without a group, invalid for no number, otherwise the positions become the shifted ones, and stay as they are for k outside 1 to n. |
| FormDocument.OrdinaryFormDocument.ShiftTabOrders | sidecars/onec-form-native/src/model/ordinary_form.cpp:2757-2768 | The loop over the group stores exactly the orders that changed. |
| FormDocument.OrdinaryFormDocument.SetZOrder | sidecars/onec-form-native/src/model/ordinary_form.cpp:2660-2738 | The in-place setter does to lists, positions and status what the specification says, error cases included, on every document: repeated IDs never make it leave the group or its orders. |
| FormDocument.OrdinaryFormDocument.MoveSibling | sidecars/onec-form-native/src/model/ordinary_form.cpp:2682-2737 | The choice between the target's own list, merged pages and no list at all. |
| FormDocument.OrdinaryFormDocument.GatherOnFirstPage | sidecars/onec-form-native/src/model/ordinary_form.cpp:2712-2713 | The first page takes the children of all, the other pages lose theirs. |
| FormDocument.OrdinaryFormDocument.PermuteSiblings | sidecars/onec-form-native/src/model/ordinary_form.cpp:2719-2736 | The rotation and the loop that stores each sibling's old order at its new place. |
| FormDocument.OrdinaryFormDocument.SetDefaultControl | sidecars/onec-form-native/src/model/ordinary_form.cpp:2865-2876 | The in-place setter clears the group and selects the target. |
| FormDocument.FindSiblings | sidecars/onec-form-native/src/model/ordinary_form.cpp:2682-2691 | The last list considered that holds the target, if any does. |
| FormDocument.FindGatherable | sidecars/onec-form-native/src/model/ordinary_form.cpp:2693-2717 | The first panel whose pages together list exactly the group. |
| Regrouping.GroupsAfter | sidecars/onec-form-native/src/model/ordinary_form.cpp:833-906 | After children move between the lists of one scope, that scope's group is the new list and every other group is unchanged. |
| ZOrder.MovedAt | sidecars/onec-form-native/src/model/ordinary_form.cpp:2719-2726 | The rotation takes one element to its new place and shifts those between by one. |
| ZOrder.MovedMultiset | sidecars/onec-form-native/src/model/ordinary_form.cpp:2719-2726 | The rotation conserves the children. |
| ZOrder.GatherCounts | sidecars/onec-form-native/src/model/ordinary_form.cpp:2694-2713 | Merging pages refers to every child as often as before. |
| ZOrder.ZOrderTakesEffect | sidecars/onec-form-native/src/model/ordinary_form.cpp:2660-2738 | After a successful assignment the group is the old one with the target moved to place clamp(k, 1, n), ZOrder reads that place, and every child is referred to as often as before. |
| ZOrder.ZOrderKeepsTabOrders | sidecars/onec-form-native/src/model/ordinary_form.cpp:2727-2735 | After a successful assignment the TabOrder of every control reads as before. |
| ZOrder.MoveStored | sidecars/onec-form-native/src/model/ordinary_form.cpp:2727-2735 | What a move stores: each member keeps the order it read, as the default if that is now its place; no other position changes. |
| ZOrder.ZOrderRefused | sidecars/onec-form-native/src/model/ordinary_form.cpp:2660-2664 | A control without a readable group, or in a group with a stored ZOrder, is not moved. |
| ZOrder.ClampedNearest | sidecars/onec-form-native/src/model/ordinary_form.cpp:2679-2679 | The place a number asks for is the nearest one there is. |
| ZOrder.ZOrderSupported | sidecars/onec-form-native/src/model/ordinary_form.cpp:2682-2718 | The assignment succeeds for a group held in one control-only list or in a shared panel whose children are all pages. |
| ZOrder.ZOrderThrowsIff | sidecars/onec-form-native/src/model/ordinary_form.cpp:2692-2728 | It ends in an exception exactly when the target moves and the list that holds it is as long as the group yet holds a page. |
| PlacementRuns.ZOrderReshuffles | sidecars/onec-form-native/src/model/ordinary_form.cpp:2682-2737 | However it ends, setting ZOrder keeps all objects and every child's number of places, and either every list keeps its members or pages of one panel give theirs to the first. |
| PlacementRuns.ZOrderKeepsSound | sidecars/onec-form-native/src/model/ordinary_form.cpp:2660-2738 | However it ends, setting ZOrder on a document that passes validation leaves one that does: merging pages makes no cycle. |
| PlacementRuns.RunSound | sidecars/onec-form-native/src/model/ordinary_form.cpp:2660-2876 | Any run of TabOrder, ZOrder and DefaultControl assignments, even one ended by an exception, leaves a document that passes validation. |
| PlacementRuns.RunKeepsDefaults | sidecars/onec-form-native/src/model/ordinary_form.cpp:2660-2876 | Any such run without an exception keeps at most one default control in every group, while groups are reordered and pages merged. |
| PlacementRuns.RunKeepsTabOrders | sidecars/onec-form-native/src/model/ordinary_form.cpp:2660-2876 | Assignments of ZOrder and DefaultControl, in any number and order without an exception, change no readable TabOrder. |
| MixedPanel.MixedPanelThrows | sidecars/onec-form-native/src/model/ordinary_form.cpp:2692-2728 | A concrete shared panel with one control and one page on which the assignment throws after the rotation. |
| OutputTransaction.FileSystem.Create | sidecars/onec-form-native/src/cli/main.cpp:350-415 | A staged or backup file is created whole, or not at all, or is left behind as a stray; which of these, and after how many operations, is an exact function of the schedule and the size. |
| OutputTransaction.BackUp | sidecars/onec-form-native/src/cli/main.cpp:452-456 | Backing up keeps the original bytes at the output or in the backup in every state; whether it succeeds or leaves a stray is an exact function of the schedule. |
| OutputTransaction.InstallOne | sidecars/onec-form-native/src/cli/main.cpp:448-461 | Installing one output, whichever operation fails: its original bytes are secured in every state and no other output is touched. Success and stray depend on the schedule and on whether the output existed, exactly. |
| OutputTransaction.StageOne | sidecars/onec-form-native/src/cli/main.cpp:443-447 | Making the directory and staging one output: nothing but its temporaries changes, and success and stray are an exact function of the schedule. |
| OutputTransaction.UndoOne | sidecars/onec-form-native/src/cli/main.cpp:465-477 | Undoing one write: it succeeds exactly if none of its operations fails, and then the original is back; otherwise its bytes are still in the backup. A failed removal does not keep the backup from being moved back. |
| OutputTransaction.StageAll | sidecars/onec-form-native/src/cli/main.cpp:443-447 | Staging changes no output; it stops at the first failure, and whether that leaves a stray is an exact function of the schedule and the sizes. |
| OutputTransaction.InstallAll | sidecars/onec-form-native/src/cli/main.cpp:448-461 | Every state while the outputs are installed one after another keeps all original bytes; success and stray are an exact function of the schedule, the initial files and the outputs. |
| OutputTransaction.RollBack | sidecars/onec-form-native/src/cli/main.cpp:462-477 | Rolling back in reverse keeps all original bytes in every state; it succeeds exactly if none of its operations fails, and then every output is the original. |
| OutputTransaction.CleanUp | sidecars/onec-form-native/src/cli/main.cpp:426-441 | Cleaning up touches nothing but the transaction's temporaries, and no backup after a failed rollback; it succeeds exactly if no removal fails, and then none is left but a stray. |
| OutputTransaction.WriteFileSet | sidecars/onec-form-native/src/cli/main.cpp:417-492 | The whole transaction under every schedule of faults: each state it passes through changes no other file and keeps the original bytes until all outputs are new. Its outcome and its number of operations are an exact function of schedule, initial files and requests. Rolled back exactly if something fails on the way and nothing fails after it; then the files are the initial ones if and only if the run is not stranded. |
| OutputTransaction.FinalMeans | sidecars/onec-form-native/src/cli/main.cpp:417-492 | What that function says: everything is installed or not, and a rollback or a clean-up is complete if and only if none of the operations that follow fails. |
| OutputTransaction.ForwardHonest | sidecars/onec-form-native/src/cli/main.cpp:442-461 | On its way forward the transaction stops only at an operation that fails or writes nothing, and never goes on after one. |
| OutputTransaction.CommitCount | sidecars/onec-form-native/src/cli/main.cpp:417-491 | A transaction that installs everything makes every operation there is to make: their number is given for each output, by whether it existed and whether it is empty. |
| OutputTransaction.RollbackCount | sidecars/onec-form-native/src/cli/main.cpp:462-487 | So do undoing and cleaning, whichever of their operations fail. |
| OutputTransaction.NeverStranded | sidecars/onec-form-native/src/cli/main.cpp:402-413 | If no operation fails right after one that failed or wrote nothing, no transaction leaves a file behind, whatever the files and the requests. |
| OutputTransaction.CommittedExactly | sidecars/onec-form-native/src/cli/main.cpp:488-491 | All outputs new and all temporaries gone: the file map is the initial one with the outputs replaced. |
| OutputTransaction.RolledBackExactly | sidecars/onec-form-native/src/cli/main.cpp:478-487 | All outputs original and all temporaries gone but a stray: the file map is the initial one, or the initial one with the stray. |
| OutputTransaction.StrayExample | sidecars/onec-form-native/src/cli/main.cpp:402-413 | A rolled-back run that leaves a file: writing the first staged file and removing it both fail. |
| OutputTransaction.BackupStranded | sidecars/onec-form-native/src/cli/main.cpp:452-455 | A schedule under which the stray is a backup: closing the empty file made for the backup and removing it both fail. |
| SelectedDates.AddKeeps | sidecars/onec-form-native/src/model/ordinary_form.cpp:1418-1442 | Adding keeps days distinct and representable, single mode at one day, interval mode consecutive. |
| SelectedDates.AddDays | sidecars/onec-form-native/src/model/ordinary_form.cpp:1428-1440 | Adding selects the day alone, the day as well, or every day between the interval and it. |
| SelectedDates.AddOrder | sidecars/onec-form-native/src/model/ordinary_form.cpp:1428-1440 | The dates there were stay together in their order, a list grows at its end, and every date that comes with another has its time. |
| SelectedDates.DeleteKeeps | sidecars/onec-form-native/src/model/ordinary_form.cpp:1444-1476 | Deleting keeps the same. |
| SelectedDates.DeleteDays | sidecars/onec-form-native/src/model/ordinary_form.cpp:1454-1474 | Deleting takes away the day and, in interval mode, every later one. |
| SelectedDates.DeleteOrder | sidecars/onec-form-native/src/model/ordinary_form.cpp:1454-1474 | What is left keeps its order: the dates of other days, or in an interval those before. |
| SelectedDates.ModeKeeps | sidecars/onec-form-native/src/model/ordinary_form.cpp:144-159 | A change of mode ends in the shape of the new mode. |
| SelectedDates.ModeDays | sidecars/onec-form-native/src/model/ordinary_form.cpp:144-159 | A change of mode keeps the last date, every date, or all days between the earliest and the latest. |
| SelectedDates.ModeTimes | sidecars/onec-form-native/src/model/ordinary_form.cpp:149-159 | An interval made of dates runs from the earliest of them and takes its time from it. |
| SelectedDates.ModeDates | sidecars/onec-form-native/src/model/ordinary_form.cpp:144-148 | Single mode keeps the last date, multiple mode all of them. |
| SelectedDates.CurrentAfter | sidecars/onec-form-native/src/model/ordinary_form.cpp:1375-1485 | What each operation makes of the current date: initialised at midnight, set to the midnight of a date that is selected as it is, forgotten by a reset alone. |
| SelectedDates.DatesAfterMode | sidecars/onec-form-native/src/model/ordinary_form.cpp:144-159 | Setting the mode that is stored changes nothing; another one converts the dates, even after a mode of no known kind; a reset is single mode. |
| SelectedDates.ModeAfter | sidecars/onec-form-native/src/model/ordinary_form.cpp:1375-1485 | Only setting and resetting the mode change it; a malformed date changes nothing. |
| SelectedDates.RunKeeps | sidecars/onec-form-native/src/model/ordinary_form.cpp:1375-1485 | Every run of operations keeps the selected days distinct, representable and in the shape of the mode. |
| CalendarField.SpansDisjoint | sidecars/onec-form-native/src/model/ordinary_form.cpp:1375-1485 | While no day is selected twice, no two spans share a day. |
| CalendarField.CoveredIff | sidecars/onec-form-native/src/model/ordinary_form.cpp:1413-1415 | A day is selected exactly if some span covers it. |
| CalendarField.AddSpan | sidecars/onec-form-native/src/model/ordinary_form.cpp:1427-1440 | The span list after adding stands for the dates after adding; every day computed by one day more or less is one a date can have. |
| CalendarField.DeleteSpan | sidecars/onec-form-native/src/model/ordinary_form.cpp:1453-1474 | The span list after deleting, be it cut, shortened, split or shorter, stands for the dates after deleting. |
| CalendarField.HullOf | sidecars/onec-form-native/src/model/ordinary_form.cpp:149-155 | The loop finds the earliest first date and the latest last date. |
| CalendarField.ChangeMode | sidecars/onec-form-native/src/model/ordinary_form.cpp:144-159 | The span list after a change of mode stands for the dates after it. |
| CalendarField.CalendarFields.Initialize | sidecars/onec-form-native/src/model/ordinary_form.cpp:1375-1382 | Initialising selects one date at midnight, for this control alone. |
| CalendarField.CalendarFields.SetCurrentDate | sidecars/onec-form-native/src/model/ordinary_form.cpp:2624-2631 | Setting CurrentDate selects that date and makes its midnight current. |
| CalendarField.CalendarFields.ResetCurrentDate | sidecars/onec-form-native/src/model/ordinary_form.cpp:3166-3170 | Resetting CurrentDate forgets it and keeps the selection. |
| CalendarField.CalendarFields.AddSelectedDate | sidecars/onec-form-native/src/model/ordinary_form.cpp:1418-1442 | Adding through the reference does what adding does to the dates, with every refusal, and leaves other calendars alone. |
| CalendarField.CalendarFields.DeleteSelectedDate | sidecars/onec-form-native/src/model/ordinary_form.cpp:1444-1476 | The same for deleting. |
| CalendarField.CalendarFields.ClearSelectedDates | sidecars/onec-form-native/src/model/ordinary_form.cpp:1478-1485 | The same for clearing. |
| CalendarField.CalendarFields.SetSelectionMode | sidecars/onec-form-native/src/model/ordinary_form.cpp:2958-2963 | The same for a new mode. |
| CalendarField.CalendarFields.ResetSelectionMode | sidecars/onec-form-native/src/model/ordinary_form.cpp:3271-3275 | The same for a reset, which returns to single mode. |
| CalendarField.CalendarFields.SelectedDateCount | sidecars/onec-form-native/src/model/ordinary_form.cpp:1384-1392 | The count is the number of dates. |
| CalendarField.CalendarFields.SelectedDateAt | sidecars/onec-form-native/src/model/ordinary_form.cpp:1394-1405 | The date at an index is that one of the dates, and none outside. |
| CalendarField.CalendarFields.Contains | sidecars/onec-form-native/src/model/ordinary_form.cpp:1407-1416 | A day is contained exactly if one of the dates has it. |
| ChartBudget.ChartBudgetFits | sidecars/onec-form-native/src/model/ordinary_form.cpp:1805-1829 | True exactly when series, points, cells, bands and trendlines of all charts and the extra ones are at most the limit; no 64-bit operation overflows. |
| ChartBudget.ChargeMatrix | sidecars/onec-form-native/src/model/ordinary_form.cpp:1819-1823 | The division guard keeps the product in range and refuses exactly the matrices that are too large. |
| ChartBudget.OverShare | sidecars/onec-form-native/src/model/ordinary_form.cpp:1819-1821 | One count over the limit's share of the other is the product over the limit. |
| ChartBudget.TotalIsItems | sidecars/onec-form-native/src/model/ordinary_form.cpp:1809-1829 | The budget counts the items that all valid charts store, each once: series, points, cells, bands and trendlines. |
| ChartModel.PairsMembers | sidecars/onec-form-native/src/model/ordinary_form.cpp:4746-4748 | The rows hold every series with every point, and nothing else. |
| ChartModel.PairsAt | sidecars/onec-form-native/src/model/ordinary_form.cpp:4760-4776 | The place of a pair: row by series, column by point. |
| ChartResize.MatrixComplete | sidecars/onec-form-native/src/model/ordinary_form.cpp:4364-4370 | A valid dense matrix has a cell for every pair, whatever its order. |
| ChartResize.ResizeKeepsValid | sidecars/onec-form-native/src/model/ordinary_form.cpp:4673-4780 | A resize of a valid chart gives a valid chart: IDs, trendlines, matrix, last-assigned IDs and ActivePoint. |
| ChartResize.ResizeKeepsCells | sidecars/onec-form-native/src/model/ordinary_form.cpp:4744-4750 | Every cell whose series and point are still there is still there. |
| ChartResize.RowMajorIff | sidecars/onec-form-native/src/model/ordinary_form.cpp:4711-4712 | The early return for an unchanged count, seen from the result: it is the one path that leaves the order of the cells alone (that the others build rows is `ChartDocument.BuildCells`). |
| ChartResize.UnorderedCellsStay | sidecars/onec-form-native/src/model/ordinary_form.cpp:4711-4712 | A valid chart whose cells are not in rows, resized to the count it has. |
| ChartResize.ResizeActivePoint | sidecars/onec-form-native/src/model/ordinary_form.cpp:4713-4722 | ActivePoint stays absent, undefined or naming a point of the chart. |
| ChartResize.ActiveSeriesLiveIff | sidecars/onec-form-native/src/model/ordinary_form.cpp:4743-4750 | When ActiveSeries is sound after a resize: an exact condition on the chart before and the new count. If the series change, it is unsound only for a reference to another chart whose series ID this chart keeps or issues; otherwise exactly if it was unsound. |
| ChartResize.ActiveSeriesAfter | sidecars/onec-form-native/src/model/ordinary_form.cpp:4743-4750 | Which series ActiveSeries names after a resize: none if none is left, the one it named if the chart keeps or issues its ID, otherwise the last one. |
| ChartResize.ForeignActiveSeriesStays | sidecars/onec-form-native/src/model/ordinary_form.cpp:4743-4750 | A chart whose ActiveSeries names series 2 of another chart, by an ID that it has, too: adding a series leaves the foreign reference. |
| ChartResize.DanglingActiveSeriesStays | sidecars/onec-form-native/src/model/ordinary_form.cpp:4673-4780 | A valid chart whose ActiveSeries names no series, still so after its points are resized. |
| ChartResize.ResizeIssues | sidecars/onec-form-native/src/model/ordinary_form.cpp:4723-4758 | New series and point IDs ascend above every ID ever issued. |
| ChartResize.HighestIssued | sidecars/onec-form-native/src/model/ordinary_form.cpp:4723-4726 | The highest ID issued is the least bound of the stored one (or one, or zero) and the IDs in use. |
| ChartResize.SeriesAfter | sidecars/onec-form-native/src/model/ordinary_form.cpp:4734-4742 | The series after a change of their number, one by one: IDs, captions and trendlines of the new ones, and the last-assigned ID. |
| ChartResize.PointsAfter | sidecars/onec-form-native/src/model/ordinary_form.cpp:4750-4757 | The same for points. |
| ChartResize.RestAfter | sidecars/onec-form-native/src/model/ordinary_form.cpp:4730-4733 | The mode that is stored, and what no resize touches. |
| ChartResize.CellAfter | sidecars/onec-form-native/src/model/ordinary_form.cpp:4759-4776 | The cell in every row and column after a resize: the previous one of its series and point, or a fresh one, empty unless the chart is a sample. |
| ChartDocument.HighestId | sidecars/onec-form-native/src/model/ordinary_form.cpp:4723-4726 | The loop finds the highest of the stored and the used IDs. |
| ChartDocument.GrowSeries | sidecars/onec-form-native/src/model/ordinary_form.cpp:4736-4741 | The loop keeps the first series and appends new ones with ascending IDs and numbered captions. |
| ChartDocument.BuildCells | sidecars/onec-form-native/src/model/ordinary_form.cpp:4760-4776 | The nested loops rebuild the matrix in rows: each cell is the previous one of its pair, or a fresh one. |
| ChartDocument.ResizeChart | sidecars/onec-form-native/src/model/ordinary_form.cpp:4723-4777 | The resized chart, or the refusal when IDs run out. |
| ChartDocument.ChartDocument.Resize | sidecars/onec-form-native/src/model/ordinary_form.cpp:4673-4780 | Which refusal or success, in the order of the checks; a refused resize changes nothing, an applied one changes this chart alone and as specified. |
| ChartDocument.FirstObstacle | sidecars/onec-form-native/src/model/ordinary_form.cpp:4673-4728 | A resize is refused for the first of ten obstacles, in the order of the checks, and applied if there is none. |
| ChartDocument.ResizeKeepsBudget | sidecars/onec-form-native/src/model/ordinary_form.cpp:4703-4704 | After a resize all charts together still fit the limit. |
| ChartDocument.ChartDocument.AddTrendline | sidecars/onec-form-native/src/model/ordinary_form.cpp:4614-4628 | A trendline gets its series' next ID, or nothing changes. |
| ChartDocument.TrendsOfMeans | sidecars/onec-form-native/src/model/ordinary_form.cpp:4614-4643 | The trendlines of ID 1 are the summary's, those of any other a series'. |
| ChartDocument.ChartDocument.DeleteTrendline | sidecars/onec-form-native/src/model/ordinary_form.cpp:4633-4643 | Deleting takes one trendline away, or nothing changes. |
| ChartRuns.StepKeepsValid | sidecars/onec-form-native/src/model/ordinary_form.cpp:4614-4780 | Every resize, trendline addition and deletion keeps a chart valid. |
| ChartRuns.NeverReissued | sidecars/onec-form-native/src/model/ordinary_form.cpp:4723-4758 | Over every run from a valid chart, a deleted series or point ID never comes back. |
| ChartRuns.IssuedAscending | sidecars/onec-form-native/src/model/ordinary_form.cpp:4723-4758 | Over every run, a newly issued ID is above every earlier one, and no series has the summary's ID. |
| ChartRuns.TrendNeverReissued | sidecars/onec-form-native/src/model/ordinary_form.cpp:4614-4643 | Over every run, the same for the trendlines of each series. |
| ChartRuns.SeriesStays | sidecars/onec-form-native/src/model/ordinary_form.cpp:4733-4742 | A series that a chart has at two times it had all the time between. |
| TypedValue.ValidateNode | sidecars/onec-form-native/src/model/ordinary_form.cpp:1027-1085 | A value is accepted if and only if it is sound, its nodes fit what is left of the budget and its depth fits the limit; the budget then grows by exactly its nodes. |
| TypedValue.ValidateContents | sidecars/onec-form-native/src/model/ordinary_form.cpp:998-1025 | The same for the contents of a value list: the early refusals by size refuse nothing that would fit, and no subtraction underflows. |
| TypedValue.ValidateArray | sidecars/onec-form-native/src/model/ordinary_form.cpp:1062-1066 | The same for an array. |
| TypedValue.ValidateStructure | sidecars/onec-form-native/src/model/ordinary_form.cpp:1067-1073 | The same for a structure, whose names must be nonempty and distinct. |
| TypedValue.ValidateMap | sidecars/onec-form-native/src/model/ordinary_form.cpp:1074-1082 | The same for a map, whose entries need keys, and distinct ones. |
| TypedValue.ValidateItem | sidecars/onec-form-native/src/model/ordinary_form.cpp:1005-1018 | The same for one item with value, presentation and picture. |
| TypedValue.ValidateDescription | sidecars/onec-form-native/src/model/ordinary_form.cpp:990-994 | A type description is charged its entries. |
| TypedValueVisits.AcceptedIff | sidecars/onec-form-native/src/model/ordinary_form.cpp:998-1085 | What is accepted, without the walk: a well-made value whose visits, each listed with its depth, are few enough and nowhere too deep. |
| TypedValueVisits.ListAcceptedIff | sidecars/onec-form-native/src/model/ordinary_form.cpp:998-1025 | The same for the contents of a value list. |
| TypedValue.EffectiveLastId | sidecars/onec-form-native/src/model/ordinary_form.cpp:27-38 | No exception exactly if all item IDs fit and the stored last ID covers them. |
| ValueListIdentity.SharedValueList.Replace | sidecars/onec-form-native/src/model/ordinary_form.cpp:1157-1184 | Replacing through any alias succeeds exactly for an acceptable value; an identity stays attached exactly if its ID is in the new value and then holds the new item, all others keep what they held. |
| ValueListIdentity.SharedValueList.CreateItemRef | sidecars/onec-form-native/src/model/ordinary_form.cpp:1186-1200 | A reference is made exactly if the ID is there; it is attached, and the one identity of its row. |
| ValueListIdentity.SharedValueList.IsAttached | sidecars/onec-form-native/src/model/ordinary_form.cpp:1206-1210 | Attached exactly while the ID was in every version since the identity was made, and then holding the current item. |
| ValueListIdentity.SharedValueList.AttachedSince | sidecars/onec-form-native/src/model/ordinary_form.cpp:1186-1210 | A reference made while its identity was attached is attached exactly while the ID never went since. |
| ValueListIdentity.SharedValueList.NeverReattached | sidecars/onec-form-native/src/model/ordinary_form.cpp:1163-1180 | After the ID was gone once, no reference from before is attached again. |
| ValueListIdentity.SharedValueList.SameIdentityIff | sidecars/onec-form-native/src/model/ordinary_form.cpp:1157-1210 | Two references to a list, attached in any two of its versions, share one identity if and only if they have one ID and it was in every version between. |
| Decimal.CanonicalKeepsValue | sidecars/onec-form-native/src/storage/value_codec.cpp:20-50 | The canonical text has the value of what was read, and exists exactly for decimals. |
| Decimal.CanonicalFixed | sidecars/onec-form-native/src/storage/value_codec.cpp:20-50 | A canonical text is its own canonical form. |
| Decimal.CanonicalUnique | sidecars/onec-form-native/src/storage/value_codec.cpp:20-50 | Two canonical texts of one value are the same text. |
| DecimalGrammar.CanonicalOf | sidecars/onec-form-native/src/storage/value_codec.cpp:20-50 | Blanks, an optional sign, digits with at most one point, blanks: every such text has the canonical text and the value of the number it spells. |
| DecimalGrammar.CanonicalSpelled | sidecars/onec-form-native/src/storage/value_codec.cpp:20-50 | No other text is a decimal. |
| Decimal.CompareMagnitudes | sidecars/onec-form-native/src/model/ordinary_form.cpp:80-98 | Comparing lengths, digits and padded fractions is comparing the values. |
| DecimalPolicy.CanonicalDecimal | sidecars/onec-form-native/src/storage/value_codec.cpp:20-50 | The loops compute the canonical form. |
| DecimalPolicy.BandRangeValid | sidecars/onec-form-native/src/model/ordinary_form.cpp:76-106 | A quality band is accepted exactly if both bounds are decimals and begin is at most end as numbers. |
| DecimalPolicy.RoundWrapped | sidecars/onec-form-native/src/model/ordinary_form.cpp:1774-1785 | The result is the 32-bit signed integer congruent modulo 2^32 to the value rounded half away from zero. |
| DecimalPolicy.PolicyMeans | sidecars/onec-form-native/src/model/ordinary_form.cpp:1769-1786 | The nonnegative and unit policies clamp the value; the rounding policy gives the wrapped integer. |
| DecimalGrammar.ClampNearest | sidecars/onec-form-native/src/model/ordinary_form.cpp:1769-1773 | Clamping gives the nearest number that the policy allows. |
| DecimalGrammar.RoundNearest | sidecars/onec-form-native/src/model/ordinary_form.cpp:1774-1785 | Rounding gives the nearest integer, and of two the one farther from zero. |
| DecimalGrammar.TextOfMeans | sidecars/onec-form-native/src/model/ordinary_form.cpp:1757-1763 | Which text a value counts as: a truth value as one or nothing, an integer as its canonical text. |
| DecimalGrammar.NormalizeOf | sidecars/onec-form-native/src/model/ordinary_form.cpp:1764-1768 | A text with commas for points and blanks around it is normalised to what the policy makes of the number it spells. |
| DecimalPolicy.NormalizeNumber | sidecars/onec-form-native/src/model/ordinary_form.cpp:1757-1786 | Trimming, reading and applying a policy, refusals included. |
| DecimalPolicy.NormalizeIdempotent | sidecars/onec-form-native/src/model/ordinary_form.cpp:4336-4344 | What a policy stored passes the re-normalisation of validation unchanged. |
| TypeItems.CollectItems | sidecars/onec-form-native/src/source/metadata_xml.cpp:186-208 | The stack of reversed children gives the type elements in document order, refuses a foreign namespace and exactly the trees over the node limit. |
| TypeItems.PushedChildren | sidecars/onec-form-native/src/source/metadata_xml.cpp:201-205 | Children pushed in reverse are popped in document order. |
| TypeItems.ItemsInOrder | sidecars/onec-form-native/src/source/metadata_xml.cpp:186-208 | The items stand in the order of the text. |
| TypeSets.TypeParser.ParseTypeSet | sidecars/onec-form-native/src/source/metadata_xml.cpp:243-259 | It succeeds if and only if the expansion with the memo meets no cycle and no limit and its charge fits what is left of the shared budget; then the budget falls by exactly that charge, the domain is what plain recursion without a memo gives, and no set contains itself. It always ends. |
| TypeSets.TypeParser.ParseTypeNode | sidecars/onec-form-native/src/source/metadata_xml.cpp:261-338 | The same if-and-only-if for a type description; what it returns is the description's meaning (`NodeMeans`). |
| TypeSets.TypeParser.ParseItem | sidecars/onec-form-native/src/source/metadata_xml.cpp:266-333 | The same if-and-only-if for one type element after those before it. |
| TypeSets.EntryOfIff | sidecars/onec-form-native/src/source/metadata_xml.cpp:281-330 | An entry comes from a name exactly if it says what the name says: its kind by namespace and local part, its qualifiers, and for a generated type its category and ID. |
| TypeSets.NodeMeans | sidecars/onec-form-native/src/source/metadata_xml.cpp:261-338 | The meaning of a description, through type sets: one reading tree for every element, and the domain is their leaves in document order; or, if some element has none, the name of the last such. |
| TypeSets.MeansOnce | sidecars/onec-form-native/src/source/metadata_xml.cpp:261-338 | A description has one meaning at most. |
| TypeSets.TypeParser.AppendEntries | sidecars/onec-form-native/src/source/metadata_xml.cpp:225-233 | Entries are appended exactly if domain and shared budget have room. |
| TypeSets.WalkNodeOnce | sidecars/onec-form-native/src/source/metadata_xml.cpp:225-259 | What a description is charged: for each of its own elements, and for those of every type set not known before once, however many references lead there. |
| TypeSets.PlainSetWorst | sidecars/onec-form-native/src/source/metadata_xml.cpp:243-259 | Where plain recursion without a memo meets no cycle and stays within the limits, the memo succeeds, too, and charges no more. |
| TypeSets.StableSet | sidecars/onec-form-native/src/source/metadata_xml.cpp:243-259 | Plain expansion of acyclic sets does not depend on where it starts, so a memo may keep it. |
| TypeSets.OrderedAcyclic | sidecars/onec-form-native/src/source/metadata_xml.cpp:243-259 | The order in which sets were memorised has no reference forwards: no chain of references comes back. |
| MetadataContext.Create | sidecars/onec-form-native/src/metadata_context.cpp:68-157 | A context is made exactly from descriptors within the limits, well formed and unique as types and per owner; its indexes hold every code with its position. |
| MetadataContext.CheckMembers | sidecars/onec-form-native/src/metadata_context.cpp:103-143 | The sets of encoded names and keys refuse exactly a second name or key of one owner. |
| MetadataPaths.UuidForm | sidecars/onec-form-native/src/metadata_context.cpp:18-29 | An identifier is eight, four, four, four and twelve lower-case hexadecimal digits with hyphens between them. |
| MetadataPaths.GoodUuidIff | sidecars/onec-form-native/src/metadata_context.cpp:18-33 | Of all identifiers the one of zeros alone is refused. |
| MetadataContext.KeyCodeInjective | sidecars/onec-form-native/src/metadata_context.cpp:41-47 | Two encoded keys of equally long owners are equal only if owners and keys are. |
| MetadataContext.LookupTypeIsSearch | sidecars/onec-form-native/src/metadata_context.cpp:159-162 | The type index answers what linear search answers. |
| MetadataContext.LookupNameIsSearch | sidecars/onec-form-native/src/metadata_context.cpp:164-169 | So does the name index for every owner of 36 characters or without the separator. |
| MetadataContext.LookupNameExact | sidecars/onec-form-native/src/metadata_context.cpp:164-169 | For any owner the name index differs from search exactly in one case, which is given. |
| MetadataContext.SeparatorExample | sidecars/onec-form-native/src/metadata_context.cpp:34-39 | A context and an owner for which it differs. |
| MetadataContext.LookupKeyIsSearch | sidecars/onec-form-native/src/metadata_context.cpp:171-176 | The key index answers what search answers for every owner. |
| MetadataContext.Resolve | sidecars/onec-form-native/src/metadata_context.cpp:190-245 | The loop with indexes resolves the path that plain search resolves, by names or by keys. |
| MetadataPaths.NamesResolveIff | sidecars/onec-form-native/src/metadata_context.cpp:190-245 | Names resolve to a path exactly if they are at most 128 and name members each of which belongs to the one type of the member before it; the path has their keys and ends in the type of the last. |
| MetadataPaths.KeysResolveIff | sidecars/onec-form-native/src/metadata_context.cpp:190-245 | The same for keys. |
| MetadataContext.NamesThenKeys | sidecars/onec-form-native/src/metadata_context.cpp:178-188 | A path found by names is found again by its keys. |
| MetadataContext.KeysThenNames | sidecars/onec-form-native/src/metadata_context.cpp:178-188 | A path found by keys is found again by its names. |
| Utf8.ValidTypedUtf8 | sidecars/onec-form-native/src/model/ordinary_form.cpp:967-987 | The code-point decoder accepts exactly what the grammar in section 4 of RFC 3629 accepts. |
| JsonText.PrintJsonString | sidecars/onec-form-native/src/cli/main.cpp:67-119 | For every byte string the output is well-formed UTF-8, and decoding it by section 7 of RFC 8259 gives the input with each byte outside a well-formed sequence shown as a literal escape. |
| JsonText.MultibyteLength | sidecars/onec-form-native/src/cli/main.cpp:79-94 | The byte tests find exactly the multi-byte characters of the grammar. |
| JsonText.ReplacedSameIff | sidecars/onec-form-native/src/cli/main.cpp:96-103 | Nothing is replaced exactly if the input is well-formed. |
| JsonText.ShownReads | sidecars/onec-form-native/src/cli/main.cpp:99-103 | The two capital hexadecimal digits of a shown byte read back as that byte. |
| JsonText.AsciiMeans | sidecars/onec-form-native/src/cli/main.cpp:104-117 | How each character below 128 is printed: as itself, by its letter, or by four hexadecimal digits. |
| JsonText.PointEncoded | sidecars/onec-form-native/src/cli/main.cpp:67-119 | The encoding of a number is one character of the grammar, and its bytes give the number back. |

## Left out

- Positions are kept in a sequence beside the controls, and hold the TabOrder, ZOrder and DefaultControl entries alone; coordinates, bindings and other properties do not matter to placement.
- FormDocument.OrdinaryFormDocument.MoveSibling: takes a group that holds its target, as its one caller does; IDs may repeat. The theorems on the effect of ZOrder assume unique IDs, which validation checks.
- FormDocument.OrdinaryFormDocument.SetTabOrder: a whole number that does not fit 64 bits is taken as it is; the source clamps it or ignores it, which is the same, because the group is smaller.
- Resetting TabOrder is setting it to the control's own place, and resetting DefaultControl is setting it to false; neither has a row of its own.
- DefaultButton and the buttons of nested command bars.
- The checks of validation on events, attributes, commands, positions and properties, and its texts.
- Identity of child lists by address: lists are values here, and an owner is named by its index.
- CalendarField.CalendarFields.AddSelectedDate: does not model reading a date text or the Gregorian calendar; a day is an integer from 0001-01-01 to 9999-12-31, and a malformed text is none.
- Removing a control that has a calendar selection, and replacing the whole form, which forgets all selections.
- ChartDocument.ChartDocument.Resize: does not model running out of memory, which the source turns into a refusal without a change; its precondition says that collections have fewer than 2^64 elements, as every vector has.
- The looks, tooltips and values of series, points and bands, and the checks on their properties; such a violation is one flag of the control.
- The count given to a resize is its sign and whole part; reading it from a text is what `Decimal` models.
- TypedValue.ValidateNode: a leaf's own check (UTF-8, date, font, border, picture name) is a flag of the leaf, because each is a finite table or another codec; `Utf8` and `Decimal` model two of them.
- Comparing maps and value lists for equality.
- Default-constructed references to no value list; the value and the identities that all aliases share are one object here, because they are made and copied together.
- Enumeration, boolean, border and style properties of chart scales: finite tables.
- OutputTransaction.WriteFileSet: does not model concurrent changes by others, symbolic and hard links, or permissions; temporary names are fresh, and an interrupted write is simply continued.
- Which exception text a failed transaction carries; the outcome says which of the source's ends it came to.
- TypeSets.TypeParser.ParseTypeNode: qualifiers are read from the description beforehand and are well formed; the source fails on a malformed number among them.
- Parsing XML, resolving namespace prefixes, and collecting the generated types and type sets from a directory.
- MetadataContext.Resolve: a failure is none; the source's path and text of the failure are left out.
- Binary and XML codecs of forms, containers and list streams; the tools for probing and help extraction.
- The metamodel's tables, except for the child policy of three control kinds and the numeric policies.
