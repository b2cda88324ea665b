# EasyUI widgets, verified

A Dafny model of the widget code that the consumer web application serves to its
pages: the jQuery EasyUI 1.4.2 module loader and the tree, datagrid, treegrid, datalist,
propertygrid, tabs, calendar, datebox, timespinner and numberbox plugins under
`dol-framework-service-consumer/src/main/webapp/js/`. Each part has a specification made of
functions, the imperative code proved against it, and theorems about the specification,
mostly over every run of the operations or every input.

| part | files | what is proved |
|---|---|---|
| module loader | EasyLoader, EasyLoaderRuns, EasyLoaderCounts | safety and bounded progress over every interleaving of load calls, arriving scripts and polls |
| tree | TreeShape, TreeMarks, TreeCascade, TreeLoad, TreeGrow, TreeOps, TreeMove, TreeWidget, TreeRuns, TreeMemory | three-valued checkbox marks are a function of the checked leaves, over every run of the operations |
| nested headers | HeaderDecode, HeaderNested | decoding colspan and rowspan cells inverts laying them out |
| treegrid rows | TreeRows, TreeForest, TreeLookup | a flat list becomes the forest its parent links describe; lookups and listings of that forest |
| dates and times | CivilDate, Weeks, Calendar, CalendarDates, Text, DateBox, TimeSpinner | the month view, parsing and printing, and the spinner's arithmetic, with exact conditions |
| numbers | NumberText, NumberBox, NumberRoundTrip, NumberReading, NumberLimits | digit grouping, what any text is read as, when printing and parsing give a value back, and when limits are kept |
| row edits | RowView, RowEdits, RowEditRuns, RowEditEffects | what each edit does; change tracking over every run; rejecting restores the snapshot |
| selection | Selection, SelectionRuns, SelectionEffects | what each choice does; lists and marks agree over every run, across pages |
| column widths | FitColumns | widths are handed out without loss |
| groups | Grouping, GroupView | stable grouping; deleting and inserting in a grouped view |
| tabs | Tabs, TabsRuns, TabsEffects | which tab is shown after each operation; at most one, over every run |

`Common` holds what the parts share. Where the browser's own rules matter, the model follows
ECMA-262, edition 5.1, and names the section: dates in 15.9.1, `parseInt` in 15.1.2.2,
`parseFloat` in 15.1.2.3, `toFixed` in 15.7.4.5, and replacement texts in 15.5.4.11.
Where the sources mutate an object, the model has a class or an array with the same fields.
A `requires` states what the code needs in order to end without a TypeError; where one asks
for more, "Left out" names the member and says what for.

## Model

| member | source | states |
|---|---|---|
| EasyLoader.Loader.Add | dol-framework-service-consumer/src/main/webapp/js/easyloader.js:98-107 | the queue grows by the post-order of a name: its dependencies, then the name; an unknown name adds nothing |
| EasyLoader.Loader.Load | dol-framework-service-consumer/src/main/webapp/js/easyloader.js:87-96 | a load call queues the names it asks for, one after another, on a queue of its own, with nothing waited yet, and takes its first turn |
| LoaderTable.QueueDepsFirst | dol-framework-service-consumer/src/main/webapp/js/easyloader.js:97-108 | every queued name is known, has its known dependencies queued before it, and every known name asked for is queued |
| EasyLoaderCounts.QueueNeeded | dol-framework-service-consumer/src/main/webapp/js/easyloader.js:101-106 | nothing is queued but what is asked for and its transitive dependencies |
| EasyLoader.Loader.Resume | dol-framework-service-consumer/src/main/webapp/js/easyloader.js:116-146 | one turn of the polling function: loaded heads are dropped, then a script is put into the page, or 10 ms are waited, or the call gives up, or it ends |
| EasyLoader.Loader.ScriptLoaded | dol-framework-service-consumer/src/main/webapp/js/easyloader.js:79-85 | an arriving script is marked loaded, leaves the queue of the call that asked for it, and that call goes on |
| EasyLoaderRuns.RunKeeps | dol-framework-service-consumer/src/main/webapp/js/easyloader.js:87-148 | every interleaving of load calls, arriving scripts, polls and locale scripts keeps the invariant that ties the shared status table to the queues and the callbacks |
| EasyLoaderRuns.LoadedAfterDependencies | dol-framework-service-consumer/src/main/webapp/js/easyloader.js:116-131 | in every run, whatever is loading or loaded has all its transitive dependencies loaded |
| EasyLoaderRuns.InjectedAtMostOnce | dol-framework-service-consumer/src/main/webapp/js/easyloader.js:50-51 | in every run no script is put into the page twice, and the names with a status are those put there |
| EasyLoaderRuns.CallbackOnceAndLoaded | dol-framework-service-consumer/src/main/webapp/js/easyloader.js:109-115 | in every run a callback runs at most once, and once it has run all that its call asked for, with all dependencies, is loaded |
| EasyLoaderRuns.StepsBounded | dol-framework-service-consumer/src/main/webapp/js/easyloader.js:126-129 | a call takes part in at most one event for each queued name, one for each 10 ms of the timeout, and one more |
| EasyLoaderRuns.QuiescentOutcome | dol-framework-service-consumer/src/main/webapp/js/easyloader.js:120-148 | when nothing is pending, nothing is left loading, and the callback of every call that did not wait past the timeout has run |
| EasyLoaderCounts.CallCounted | dol-framework-service-consumer/src/main/webapp/js/easyloader.js:115-132 | in every run a call has waited 10 ms for each of its polls, the one under way included, has put in a script just when one of its own arrived or is under way, and has waited for a locale script only after one |
| EasyLoaderCounts.GivesUpLate | dol-framework-service-consumer/src/main/webapp/js/easyloader.js:129-134 | in every run a call that gives up has been polled for the whole timeout |
| EasyLoaderCounts.FiredUnlessPolled | dol-framework-service-consumer/src/main/webapp/js/easyloader.js:129-146 | when nothing is pending, the callback of every call has run that was not polled for the whole timeout |
| EasyLoaderCounts.FiredAfterLocale | dol-framework-service-consumer/src/main/webapp/js/easyloader.js:137-145 | a callback waits for a locale script exactly when there is one and a script of the call arrived |
| EasyLoaderCounts.InjectedIsNeeded | dol-framework-service-consumer/src/main/webapp/js/easyloader.js:116-122 | in every run each script put into the page is of a module that some call asked for or depends on |
| TreeWalk.Walk | dol-framework-service-consumer/src/main/webapp/js/plugins/jquery.tree.js:868-884 | the walk with an explicit stack visits the nodes in preorder and stops at the first one that ends it |
| TreeWalk.Find | dol-framework-service-consumer/src/main/webapp/js/plugins/jquery.tree.js:851-861 | the first node of the preorder with the property is found, if there is one |
| TreeShape.PathStep | dol-framework-service-consumer/src/main/webapp/js/plugins/jquery.tree.js:801-804 | every node below the roots is in the children list of the node before it on its path, and that node's path is the rest |
| TreeCascade.CascadeOk | dol-framework-service-consumer/src/main/webapp/js/plugins/jquery.tree.js:273-343 | after a cascade every node agrees with its children but those that did not before and are neither above nor below the node checked |
| TreeCascade.CascadeLeaves | dol-framework-service-consumer/src/main/webapp/js/plugins/jquery.tree.js:273-285 | a cascade sets exactly the leaves below the node and leaves every other leaf as it was |
| TreeMarks.GoodIsRollup | dol-framework-service-consumer/src/main/webapp/js/plugins/jquery.tree.js:309-343 | marks that agree everywhere are those computed from scratch from the checked leaves |
| TreeMarks.RollupIsGood | dol-framework-service-consumer/src/main/webapp/js/plugins/jquery.tree.js:313-325 | marks computed from scratch from any set of leaves agree everywhere |
| TreeWidget.Widget.CheckNode | dol-framework-service-consumer/src/main/webapp/js/plugins/jquery.tree.js:235-267 | checking, unchecking or clicking a checkbox: all marks are those of the cascade, and the node remembers what was asked; TreeOps.ClickMoves says what a click asks for |
| TreeWidget.Widget.ClimbFrom | dol-framework-service-consumer/src/main/webapp/js/plugins/jquery.tree.js:309-326 | the ancestors are recomputed one by one from the nearest up, giving the marks of the recursive specification |
| TreeWidget.Widget.SiblingsAre | dol-framework-service-consumer/src/main/webapp/js/plugins/jquery.tree.js:327-343 | true exactly when the node and all its siblings show the mark |
| TreeOps.CheckMoves | dol-framework-service-consumer/src/main/webapp/js/plugins/jquery.tree.js:262-266 | checking a node keeps all marks consistent and makes them those of the old checked leaves plus, or minus, the leaves below it |
| TreeOps.ClickMoves | dol-framework-service-consumer/src/main/webapp/js/plugins/jquery.tree.js:242-256 | a click on a checked node unchecks it and takes out exactly the leaves below it, one on an unchecked node checks it and adds them, one on a partial node does the opposite of the last check asked of its object, and checks it if none was |
| TreeOps.CheckShows | dol-framework-service-consumer/src/main/webapp/js/plugins/jquery.tree.js:257-262 | checking shows the mark asked for, sets exactly the leaves below the node, and is remembered for its object alone |
| TreeWidget.Widget.Draw | dol-framework-service-consumer/src/main/webapp/js/plugins/jquery.tree.js:1153-1203 | rendering numbers the nodes in preorder from the counter and draws all of them unchecked |
| TreeShape.RenderPreorder | dol-framework-service-consumer/src/main/webapp/js/plugins/jquery.tree.js:1159-1163 | drawn nodes are numbered from the counter in preorder without a gap and keep their objects and flags |
| TreeWidget.Widget.Seed | dol-framework-service-consumer/src/main/webapp/js/plugins/jquery.tree.js:410-438 | after rendering, the first root handed over as not checked is unchecked, then every node handed over as checked is checked in preorder |
| TreeWidget.Widget.Recheck | dol-framework-service-consumer/src/main/webapp/js/plugins/jquery.tree.js:344-391 | a node is checked again after its children changed: by its own mark, or by what all its descendants show if it is partial |
| TreeLoad.RefreshedOk | dol-framework-service-consumer/src/main/webapp/js/plugins/jquery.tree.js:365-387 | checking the parent again repairs it, when only it may be wrong and what is left is part of what it agreed with |
| TreeLoad.RefreshedLeaves | dol-framework-service-consumer/src/main/webapp/js/plugins/jquery.tree.js:369-385 | checking the parent again never changes which leaves are checked |
| TreeLoad.TickedIsBelowChecked | dol-framework-service-consumer/src/main/webapp/js/plugins/jquery.tree.js:424-428 | the leaves that loading ticks are those at or below a node handed over as checked |
| TreeWidget.Widget.LoadNodes | dol-framework-service-consumer/src/main/webapp/js/plugins/jquery.tree.js:393-402 | loading replaces the children array and does to the whole state what the specification says |
| TreeOps.LoadMoves | dol-framework-service-consumer/src/main/webapp/js/plugins/jquery.tree.js:393-443 | loading keeps all marks consistent exactly when it does not empty a node that shows partial; they are then those of the remaining checked leaves and the ticked new ones |
| TreeMemory.LoadRemembers | dol-framework-service-consumer/src/main/webapp/js/plugins/jquery.tree.js:411-436 | a load remembers a check of every object handed over as checked, otherwise that the first root not checked was unchecked, and leaves what is remembered of all other objects |
| TreeRuns.EmptyReloadBreaks | dol-framework-service-consumer/src/main/webapp/js/plugins/jquery.tree.js:397-399 | the input: a half-checked folder reloaded as an empty list stays partial with nothing below it |
| TreeWidget.Widget.AppendNodes | dol-framework-service-consumer/src/main/webapp/js/plugins/jquery.tree.js:665-694 | appending renders, checks what was handed over as checked, and checks the parent again |
| TreeOps.AppendMoves | dol-framework-service-consumer/src/main/webapp/js/plugins/jquery.tree.js:690-692 | appending keeps all marks consistent; the new checked leaves are the ticked ones, and a leaf that gets children stops being one |
| TreeWidget.Widget.InsertNodes | dol-framework-service-consumer/src/main/webapp/js/plugins/jquery.tree.js:695-726 | inserting appends and then moves the new entries next to the reference, one splice each |
| TreeMove.InsertMoves | dol-framework-service-consumer/src/main/webapp/js/plugins/jquery.tree.js:705-724 | inserting keeps all marks consistent, with the checked leaves of an append |
| TreeMove.FoundAt | dol-framework-service-consumer/src/main/webapp/js/plugins/jquery.tree.js:709-713 | the new entries go right before or right after the reference among its siblings |
| TreeWidget.Widget.RemoveNode | dol-framework-service-consumer/src/main/webapp/js/plugins/jquery.tree.js:727-754 | removing cuts the node out of the array of its parent and checks the parent again |
| TreeOps.RemoveMoves | dol-framework-service-consumer/src/main/webapp/js/plugins/jquery.tree.js:730-733 | removing keeps all marks consistent and drops exactly the leaves removed; a parent left childless is a checked leaf just when it showed checked |
| TreeOps.RemoveKeepsOrder | dol-framework-service-consumer/src/main/webapp/js/plugins/jquery.tree.js:742-753 | the siblings of a removed node stay in order |
| TreeWidget.Widget.Pop | dol-framework-service-consumer/src/main/webapp/js/plugins/jquery.tree.js:1095-1099 | popping hands out the subtree with its flags brought up to date and removes it |
| TreeWidget.Widget.DragNextTo | dol-framework-service-consumer/src/main/webapp/js/plugins/jquery.tree.js:222-232 | a drop next to a node pops the dragged one and inserts it there |
| TreeMove.MoveKeepsSubtree | dol-framework-service-consumer/src/main/webapp/js/plugins/jquery.tree.js:230-232 | a drop next to a node keeps all marks consistent, and the moved subtree comes back with the same objects in the same shape under the same marks |
| TreeMove.MoveKeepsOrder | dol-framework-service-consumer/src/main/webapp/js/plugins/jquery.tree.js:223-229 | the moved node stands where the insert puts it, in an array that is otherwise the one left by the removal |
| TreeMove.MoveKeepsOthers | dol-framework-service-consumer/src/main/webapp/js/plugins/jquery.tree.js:222-234 | a drop next to a node changes no children list but those of the old and the new parent |
| TreeMove.MoveKeepsObjects | dol-framework-service-consumer/src/main/webapp/js/plugins/jquery.tree.js:742-753 | a drop next to a node loses, doubles and adds no node object |
| TreeWidget.Widget.DragInto | dol-framework-service-consumer/src/main/webapp/js/plugins/jquery.tree.js:216-220 | a drop on a node pops the dragged one and appends it there |
| TreeMove.MoveIntoKeepsSubtree | dol-framework-service-consumer/src/main/webapp/js/plugins/jquery.tree.js:217-218 | a drop on a node keeps all marks consistent, and the moved subtree comes back with the same objects in the same shape under the same marks |
| TreeMove.MoveIntoKeepsOthers | dol-framework-service-consumer/src/main/webapp/js/plugins/jquery.tree.js:208-221 | the moved node becomes the last child of the target; no other list changes but that of the old parent |
| TreeMove.MoveIntoKeepsObjects | dol-framework-service-consumer/src/main/webapp/js/plugins/jquery.tree.js:216-221 | a drop on a node loses, doubles and adds no node object |
| TreeRuns.RunKeeps | dol-framework-service-consumer/src/main/webapp/js/plugins/jquery.tree.js:235-443 | any run of checks, clicks, loads, appends, inserts, removals and drops from a consistent tree is consistent throughout exactly when it never empties a partial node |
| TreeRuns.RunMarks | dol-framework-service-consumer/src/main/webapp/js/plugins/jquery.tree.js:309-342 | after such a run the marks are those computed from scratch from the checked leaves |
| TreeRuns.ClickUndoes | dol-framework-service-consumer/src/main/webapp/js/plugins/jquery.tree.js:248-256 | after any run of checks and clicks, a click on a partial node undoes the last of them that its object was asked |
| HeaderDecode.ColumnFields | dol-framework-service-consumer/src/main/webapp/js/plugins/jquery.datagrid.js:972-997 | the loops over header cells compute the specified last row, or fail where a cell reaches below the last row |
| HeaderDecode.FindFree | dol-framework-service-consumer/src/main/webapp/js/plugins/jquery.datagrid.js:1005-1012 | the first free slot of a row, or -1 |
| HeaderDecode.PlaceCovers | dol-framework-service-consumer/src/main/webapp/js/plugins/jquery.datagrid.js:981-993 | whatever the cells before it, a cell covers the rectangle of its spans from the first free slot on and changes no slot besides; a cell with no free slot in its row is dropped |
| HeaderDecode.FailsIff | dol-framework-service-consumer/src/main/webapp/js/plugins/jquery.datagrid.js:986-991 | decoding is a TypeError exactly when some cell, met while its row has a free slot, reaches below the last row |
| HeaderNested.NothingOverwritten | dol-framework-service-consumer/src/main/webapp/js/plugins/jquery.datagrid.js:980-993 | for rows that lay out nested headers, each cell lands on free slots only and each row is left without a hole |
| HeaderNested.DecodesToLeaves | dol-framework-service-consumer/src/main/webapp/js/plugins/jquery.datagrid.js:996-997 | decoding the rows of any nested headers gives their columns from left to right |
| HeaderNested.LayoutLays | dol-framework-service-consumer/src/main/webapp/js/plugins/jquery.datagrid.js:981-988 | every tree of headers has rows that lay it out, absent spans standing for 1 |
| TreeRows.Transfer | dol-framework-service-consumer/src/main/webapp/js/plugins/jquery.treegrid.js:994-1038 | the worklist gives every visited row its children in place, in the order and number the specification says |
| TreeRows.TakeOut | dol-framework-service-consumer/src/main/webapp/js/plugins/jquery.treegrid.js:1000-1013 | scanning and splicing takes out the rows without a parent, or those below the key, in order, and leaves the rest in order |
| TreeRows.TopRows | dol-framework-service-consumer/src/main/webapp/js/plugins/jquery.treegrid.js:999-1012 | under an id the top rows are those that name it; under none, or 0, those that name none, or 0 |
| TreeRows.Adopt | dol-framework-service-consumer/src/main/webapp/js/plugins/jquery.treegrid.js:1019-1033 | a row takes from the list the rows that name it, each at the end of its children and of the worklist |
| TreeForest.PlacedIffReaches | dol-framework-service-consumer/src/main/webapp/js/plugins/jquery.treegrid.js:994-1037 | for any rows, orphans and cycles included, a row is placed exactly when its chain of parents reaches a top row |
| TreeForest.ForestOfRows | dol-framework-service-consumer/src/main/webapp/js/plugins/jquery.treegrid.js:1016-1034 | with unique ids a placed row gets, in input order, exactly the rows that name it; any other gets nothing |
| TreeForest.KidsAt | dol-framework-service-consumer/src/main/webapp/js/plugins/jquery.treegrid.js:1017-1030 | with repeated ids the first row of an id to be visited gets all that name it, the others nothing |
| TreeForest.KidsAllIff | dol-framework-service-consumer/src/main/webapp/js/plugins/jquery.treegrid.js:1022-1032 | a visited row gets all that name it exactly when no earlier one had its id or none name it |
| TreeForest.SecondGetsNothing | dol-framework-service-consumer/src/main/webapp/js/plugins/jquery.treegrid.js:1023-1025 | the input: of two rows of one id, the second naming that id, the first gets the second and the second nothing |
| TreeForest.EveryRowOnce | dol-framework-service-consumer/src/main/webapp/js/plugins/jquery.treegrid.js:998-1035 | every row is at the top once, a child once, or left over once |
| TreeForest.LeftoverIffLost | dol-framework-service-consumer/src/main/webapp/js/plugins/jquery.treegrid.js:1014-1035 | the rows left over are those no chain of parents leads to the top |
| TreeLookup.Find | dol-framework-service-consumer/src/main/webapp/js/plugins/jquery.treegrid.js:265-283 | the lookup meets the rows breadth first and returns the first one with the id |
| TreeLookup.BreadthIsPreorder | dol-framework-service-consumer/src/main/webapp/js/plugins/jquery.treegrid.js:268-280 | the breadth first walk meets the rows of the preorder, each as often |
| TreeLookup.FoundByLevel | dol-framework-service-consumer/src/main/webapp/js/plugins/jquery.treegrid.js:268-281 | the row found is the first with the id when the forest is read level by level, each from left to right |
| TreeLookup.FoundIffOccurs | dol-framework-service-consumer/src/main/webapp/js/plugins/jquery.treegrid.js:271-275 | a row is found exactly when one has the id, and it is one of the forest that has it |
| TreeLookup.ListBelow | dol-framework-service-consumer/src/main/webapp/js/plugins/jquery.treegrid.js:231-255 | if looking up children by id comes to an end, listing gives the children of the row found for each id, each followed by what is listed for its own; with unique ids that is the descendants, or all rows, in preorder |
| TreeLookup.ByIdIsBelow | dol-framework-service-consumer/src/main/webapp/js/plugins/jquery.treegrid.js:244-253 | with unique ids the rows listed by id are the descendants in preorder |
| TreeLookup.UniqueDescends | dol-framework-service-consumer/src/main/webapp/js/plugins/jquery.treegrid.js:245-250 | with unique ids looking up children by id comes to an end |
| TreeLookup.RepeatedMissing | dol-framework-service-consumer/src/main/webapp/js/plugins/jquery.treegrid.js:245-245 | the input: with two rows of one id, the row below the second is missing from the listing |
| CivilDate.Rebuilt | dol-framework-service-consumer/src/main/webapp/js/plugins/jquery.calendar.js:178-183 | rebuilding a date from its parts with some days added moves it by those days exactly when its year is not 0 to 99 |
| CivilDate.DayOfDate | dol-framework-service-consumer/src/main/webapp/js/plugins/jquery.calendar.js:178-182 | the parts of a day name a valid civil date, and that date the day |
| CivilDate.DateOfDay | dol-framework-service-consumer/src/main/webapp/js/plugins/jquery.calendar.js:202-203 | a valid civil date is recovered from its day |
| CivilDate.MonthTable | dol-framework-service-consumer/src/main/webapp/js/plugins/jquery.calendar.js:175-175 | the months start on the days of the year that the standard tabulates, a day later after February in a leap year |
| CivilDate.Repeats | dol-framework-service-consumer/src/main/webapp/js/plugins/jquery.calendar.js:181-192 | the calendar and its weekdays repeat after 400 years, weekdays follow each other, and 2000 began on a Saturday |
| Calendar.GroupWeeks | dol-framework-service-consumer/src/main/webapp/js/plugins/jquery.calendar.js:184-196 | cutting the days of a month before each first day of the week keeps all of them in order, the first week holding those up to its end |
| Calendar.Calendar.MonthView | dol-framework-service-consumer/src/main/webapp/js/plugins/jquery.calendar.js:172-230 | six weeks of seven cells are built by stepping before the first and after the last day; where the month has no valid last day it is a TypeError |
| Calendar.Calendar.ChangeMonth | dol-framework-service-consumer/src/main/webapp/js/plugins/jquery.calendar.js:131-146 | the month buttons move by one month over the ends of a year |
| CalendarDates.RightIffShows | dol-framework-service-consumer/src/main/webapp/js/plugins/jquery.calendar.js:202-228 | the view is the forty-two consecutive dates from the right day exactly under a condition on year, month and first day |
| CalendarDates.NeverRight | dol-framework-service-consumer/src/main/webapp/js/plugins/jquery.calendar.js:204-227 | otherwise the cells are no forty-two consecutive dates at all |
| CalendarDates.ViewOf | dol-framework-service-consumer/src/main/webapp/js/plugins/jquery.calendar.js:172-229 | the view a month is shown with is six weeks of seven that hold the forty-two right dates exactly under that condition |
| CalendarDates.ShowsInTime | dol-framework-service-consumer/src/main/webapp/js/plugins/jquery.calendar.js:175-175 | under that condition the first and the last of the month are valid dates, so there is a view |
| CalendarDates.WeeksStart | dol-framework-service-consumer/src/main/webapp/js/plugins/jquery.calendar.js:192-195 | each week of such a view starts on the first day chosen |
| CalendarDates.EachDayOnce | dol-framework-service-consumer/src/main/webapp/js/plugins/jquery.calendar.js:176-183 | each day of the month stands in exactly one cell of such a view |
| CalendarDates.NextMonth | dol-framework-service-consumer/src/main/webapp/js/plugins/jquery.calendar.js:133-139 | the month the button leads to starts where this one ends |
| CalendarDates.TooLate | dol-framework-service-consumer/src/main/webapp/js/plugins/jquery.calendar.js:113-119 | the input: January of the typed year 300000 has no valid last day |
| DateBox.RoundTrip | dol-framework-service-consumer/src/main/webapp/js/plugins/jquery.datebox.js:191-209 | the text of a valid date is parsed back to it exactly when its year is not 0 to 99 |
| DateBox.ParseTyped | dol-framework-service-consumer/src/main/webapp/js/plugins/jquery.datebox.js:197-205 | month/day/year, in range or not, is parsed as the date constructor reads the parts |
| DateBox.ParseToday | dol-framework-service-consumer/src/main/webapp/js/plugins/jquery.datebox.js:198-207 | text without three numbers, and no text, stands for today |
| DateBox.FormatShape | dol-framework-service-consumer/src/main/webapp/js/plugins/jquery.datebox.js:191-196 | the text of a date has two digits of the month, two of the day, and the year |
| DateBox.Settles | dol-framework-service-consumer/src/main/webapp/js/plugins/jquery.datebox.js:106-119 | printing what was parsed settles after one round exactly when it is a valid date outside the years 0 to 99 |
| DateBox.EarlyMoves | dol-framework-service-consumer/src/main/webapp/js/plugins/jquery.datebox.js:202-205 | a date of the years 0 to 99 never comes back |
| DateBox.TooLate | dol-framework-service-consumer/src/main/webapp/js/plugins/jquery.datebox.js:203-205 | the input: 1/1/300000 is parsed as an invalid date |
| TimeSpinner.TimeSpinner.SetValue | dol-framework-service-consumer/src/main/webapp/js/plugins/jquery.timespinner.js:68-73 | the box shows what the text, parsed and limited, is formatted as |
| TimeSpinner.TimeSpinner.Spin | dol-framework-service-consumer/src/main/webapp/js/plugins/jquery.timespinner.js:74-84 | an arrow rewrites the highlighted field of the text and enters the text |
| TimeSpinner.TimeSpinner.Click | dol-framework-service-consumer/src/main/webapp/js/plugins/jquery.timespinner.js:44-55 | a click highlights the first field that reaches there |
| TimeSpinner.TypedRead | dol-framework-service-consumer/src/main/webapp/js/plugins/jquery.timespinner.js:165-172 | a text is read as hours, minutes and seconds, of which the last may be missing; a field without a number counts as 0, and an empty text is no time |
| TimeSpinner.SpinAdds | dol-framework-service-consumer/src/main/webapp/js/plugins/jquery.timespinner.js:78-83 | without limits, an arrow adds its units to the time modulo one day, with carry and borrow, exactly when the text then names a valid date and either no sign is taken for a separator or the cut text happens to name the same time (Lucky) |
| TimeSpinner.SpinBack | dol-framework-service-consumer/src/main/webapp/js/plugins/jquery.timespinner.js:81-82 | without limits, the opposite arrow takes a press that added its units back exactly when it adds its own |
| TimeSpinner.SpinLimited | dol-framework-service-consumer/src/main/webapp/js/plugins/jquery.timespinner.js:155-164 | with limits, an arrow shows the time its text names, moved to the limits |
| TimeSpinner.ModuloDay | dol-framework-service-consumer/src/main/webapp/js/plugins/jquery.timespinner.js:138-150 | what is shown is the time modulo one day |
| TimeSpinner.MinusHours | dol-framework-service-consumer/src/main/webapp/js/plugins/jquery.timespinner.js:169-170 | with - between the fields, hours spun below zero are read as minutes and the minutes as seconds |
| TimeSpinner.MinusMinutes | dol-framework-service-consumer/src/main/webapp/js/plugins/jquery.timespinner.js:165-170 | with - between the fields, minutes spun below zero are read as seconds after no minutes |
| TimeSpinner.MinusSeconds | dol-framework-service-consumer/src/main/webapp/js/plugins/jquery.timespinner.js:165-171 | with - between the fields, seconds spun below zero are read as no seconds |
| TimeSpinner.NamedShows | dol-framework-service-consumer/src/main/webapp/js/plugins/jquery.timespinner.js:81-81 | what the rewritten text names looks as the time meant exactly when it is not cut or cut by luck, field by field |
| TimeSpinner.MinusWrong | dol-framework-service-consumer/src/main/webapp/js/plugins/jquery.timespinner.js:74-83 | the input: one hour before half past midnight is then shown as 90 seconds past it |
| TimeSpinner.Limited | dol-framework-service-consumer/src/main/webapp/js/plugins/jquery.timespinner.js:151-164 | with one limit, both or none set, the time lies within them exactly when the text names a valid time and the limits set are valid and in order; it is then the nearest such time |
| TimeSpinner.OutOfOrder | dol-framework-service-consumer/src/main/webapp/js/plugins/jquery.timespinner.js:153-163 | of limits out of order the upper one holds; one that is no valid date is as good as not set |
| TimeSpinner.TooLong | dol-framework-service-consumer/src/main/webapp/js/plugins/jquery.timespinner.js:151-176 | the input: 9999999999 hours are an invalid time, whatever the limits |
| NumberBox.Group | dol-framework-service-consumer/src/main/webapp/js/plugins/jquery.numberbox.js:126-136 | replacing until nothing matches groups every run of digits, and ends |
| NumberBox.GroupPlaces | dol-framework-service-consumer/src/main/webapp/js/plugins/jquery.numberbox.js:131-135 | the separators stand before every third digit from the right, and without them the digits are the same |
| NumberText.RoundedNearest | dol-framework-service-consumer/src/main/webapp/js/plugins/jquery.numberbox.js:159-159 | fixing the decimals rounds to the nearest value, the larger one of two |
| NumberText.FloatRead | dol-framework-service-consumer/src/main/webapp/js/plugins/jquery.numberbox.js:159-159 | space, a sign, digits, a point, digits and whatever follows are read as the number the digits say, and as none without digits |
| NumberText.FixedAgain | dol-framework-service-consumer/src/main/webapp/js/plugins/jquery.numberbox.js:159-168 | fixed-point text is printed as it was read exactly when it is no negative zero and has no more digits than toFixed prints |
| NumberRoundTrip.RoundTrip | dol-framework-service-consumer/src/main/webapp/js/plugins/jquery.numberbox.js:118-172 | within the limits a value comes back from its text exactly when it is not a negative zero, if toFixed prints its digits, no text is misread and $ does not separate groups |
| NumberRoundTrip.AllReturn | dol-framework-service-consumer/src/main/webapp/js/plugins/jquery.numberbox.js:141-165 | without limits all values but negative zeros come back exactly when toFixed prints their digits, no text is misread and $ does not separate groups |
| NumberRoundTrip.TooFine | dol-framework-service-consumer/src/main/webapp/js/plugins/jquery.numberbox.js:159-160 | with more decimals than toFixed prints, 101 in an engine that prints 100, no value comes back: reading is a RangeError |
| NumberRoundTrip.PointPrefix | dol-framework-service-consumer/src/main/webapp/js/plugins/jquery.numberbox.js:144-147 | the input: with . as prefix and no decimals, 1 is read back as 0 |
| NumberRoundTrip.PointGroup | dol-framework-service-consumer/src/main/webapp/js/plugins/jquery.numberbox.js:144-152 | the input: with . between groups and no decimals, 1234 is read back as 1 |
| NumberRoundTrip.DollarGroup | dol-framework-service-consumer/src/main/webapp/js/plugins/jquery.numberbox.js:133-133 | the input: with $ between groups, 1234 is printed as 1$2 and read back as 12 |
| NumberRoundTrip.FormatParts | dol-framework-service-consumer/src/main/webapp/js/plugins/jquery.numberbox.js:126-140 | a value is printed as prefix, sign, grouped digits, separator, decimals and suffix, in that order |
| NumberReading.NumericIs | dol-framework-service-consumer/src/main/webapp/js/plugins/jquery.numberbox.js:144-144 | text that is taken at face value is a sign at most and digits with a point at most, apart from space around it; NumericText has the other direction |
| NumberReading.CleanedBare | dol-framework-service-consumer/src/main/webapp/js/plugins/jquery.numberbox.js:145-157 | any other text loses affixes, group separators and spaces wherever they are, and has a point for the decimal separator |
| NumberReading.EnteredOrNot | dol-framework-service-consumer/src/main/webapp/js/plugins/jquery.numberbox.js:159-161 | entering a text is a RangeError exactly when the box has more decimals than toFixed prints; a text without a number empties the box |
| NumberLimits.RoundedAtNearest | dol-framework-service-consumer/src/main/webapp/js/plugins/jquery.numberbox.js:159-159 | the number entered is rounded to the nearest one of the box's decimals, the larger one of two |
| NumberLimits.ValueKept | dol-framework-service-consumer/src/main/webapp/js/plugins/jquery.numberbox.js:159-171 | whatever is entered: without a number the value is empty; a rounded number below min gives min as printed, one above max gives max as printed, and one within the limits its own text |
| NumberLimits.LimitsKept | dol-framework-service-consumer/src/main/webapp/js/plugins/jquery.numberbox.js:163-168 | whatever is entered the value kept is empty or within the limits, exactly when the limits as they are printed lie within the limits |
| NumberLimits.ExactLimitsFit | dol-framework-service-consumer/src/main/webapp/js/plugins/jquery.numberbox.js:164-167 | limits in order with no more decimals than the box are such |
| NumberLimits.HalfLimit | dol-framework-service-consumer/src/main/webapp/js/plugins/jquery.numberbox.js:167-167 | the input: a max of 0.5 in a box without decimals is printed as 1 |
| NumberBox.NumberBox.SetValue | dol-framework-service-consumer/src/main/webapp/js/plugins/jquery.numberbox.js:23-32 | entering a text keeps its parsed value and shows that formatted; with more decimals than toFixed prints it is a RangeError and nothing changes; NumberLimits.ValueKept says which value that is |
| NumberBox.NumberBox.Fix | dol-framework-service-consumer/src/main/webapp/js/plugins/jquery.numberbox.js:56-59 | leaving the box enters its own text again |
| RowView.InsertTr | dol-framework-service-consumer/src/main/webapp/js/plugins/jquery.datagrid.js:2238-2289 | inserting a table row makes room from the last row down; the rows end numbered, striped and in order, with the new one at its place |
| RowView.RoomApart | dol-framework-service-consumer/src/main/webapp/js/plugins/jquery.datagrid.js:2249-2266 | while room is made, however far the rows have moved, no two share an index |
| RowView.ClosingApart | dol-framework-service-consumer/src/main/webapp/js/plugins/jquery.datagrid.js:2294-2311 | while the gap is closed, however far the rows have moved, no two share an index |
| RowView.DeleteTr | dol-framework-service-consumer/src/main/webapp/js/plugins/jquery.datagrid.js:2290-2316 | deleting a table row closes the gap row by row; the rows stay numbered, striped and in order |
| RowEdits.Grid.EndEdit | dol-framework-service-consumer/src/main/webapp/js/plugins/jquery.datagrid.js:1353-1399 | ending an edit commits the editor of the row, or leaves it if it is not valid; RowEditEffects.EndEditWrites says what is written and listed |
| RowEditEffects.EndEditWrites | dol-framework-service-consumer/src/main/webapp/js/plugins/jquery.datagrid.js:1362-1386 | every field of a valid editor is written into its row, other fields, rows and editors stay, the editor is closed, and the row is listed as updated exactly when a field differed and it was neither inserted nor listed |
| RowEditEffects.TypedIsStored | dol-framework-service-consumer/src/main/webapp/js/plugins/jquery.datagrid.js:1332-1386 | beginning an edit, typing and ending it leaves what was typed in the row, and the row listed exactly when it differs |
| RowEditEffects.OpenedUnchanged | dol-framework-service-consumer/src/main/webapp/js/plugins/jquery.datagrid.js:1343-1349 | an edit opens with the values of the row, so ending it at once changes nothing |
| RowEdits.Grid.DeleteRow | dol-framework-service-consumer/src/main/webapp/js/plugins/jquery.datagrid.js:1506-1526 | deleting drops an inserted row from that list and otherwise lists the row as deleted |
| RowEditEffects.DeleteTakes | dol-framework-service-consumer/src/main/webapp/js/plugins/jquery.datagrid.js:1513-1522 | a deleted row leaves its place, the total and its editor, and is listed exactly when it was not inserted |
| RowEdits.Grid.InsertRow | dol-framework-service-consumer/src/main/webapp/js/plugins/jquery.datagrid.js:1527-1534 | inserting lists the row as inserted and counts it |
| RowEditEffects.InsertPuts | dol-framework-service-consumer/src/main/webapp/js/plugins/jquery.datagrid.js:1527-1542 | an inserted row is a new one at its index, or at the end, with its values; the rows around it stay |
| RowEdits.Grid.AcceptChanges | dol-framework-service-consumer/src/main/webapp/js/plugins/jquery.datagrid.js:1556-1569 | accepting commits every row that passes, and takes the snapshot only if all do |
| RowEditEffects.AcceptStores | dol-framework-service-consumer/src/main/webapp/js/plugins/jquery.datagrid.js:1559-1568 | accepting writes every valid edit and leaves the others open; exactly if there are none of those, the lists are emptied and the snapshot is what was written |
| RowEdits.Grid.RejectChanges | dol-framework-service-consumer/src/main/webapp/js/plugins/jquery.datagrid.js:1570-1607 | rejecting loads the copies of the snapshot and undoes the count |
| RowEditRuns.StepKeeps | dol-framework-service-consumer/src/main/webapp/js/plugins/jquery.datagrid.js:1506-1542 | every event keeps the three lists, the rows and the total in step with the last snapshot |
| RowEditRuns.EveryRun | dol-framework-service-consumer/src/main/webapp/js/plugins/jquery.datagrid.js:1353-1607 | after every run: the rows are those of the last snapshot without the deleted ones plus the inserted ones, the lists and the total agree, and rows not listed as updated have their old values |
| RowEditRuns.RejectRestores | dol-framework-service-consumer/src/main/webapp/js/plugins/jquery.datagrid.js:1570-1578 | whatever is inserted, edited and deleted after a snapshot, rejecting gives back its values, order and total, with nothing pending |
| Selection.Grid.Select | dol-framework-service-consumer/src/main/webapp/js/plugins/jquery.datagrid.js:1180-1200 | selecting a row, with the row's check if both are linked, and without the others for a single selection |
| Selection.Grid.Check | dol-framework-service-consumer/src/main/webapp/js/plugins/jquery.datagrid.js:1250-1275 | checking a row, with its selection if both are linked |
| Selection.Grid.Unselect | dol-framework-service-consumer/src/main/webapp/js/plugins/jquery.datagrid.js:1201-1217 | unselecting a row, with its check if both are linked |
| Selection.Grid.Uncheck | dol-framework-service-consumer/src/main/webapp/js/plugins/jquery.datagrid.js:1276-1295 | unchecking a row, with its selection if both are linked |
| Selection.Grid.RestoreMarks | dol-framework-service-consumer/src/main/webapp/js/plugins/jquery.datagrid.js:1074-1098 | the rows of a new page take their marks from the lists |
| Selection.Grid.DeleteRow | dol-framework-service-consumer/src/main/webapp/js/plugins/jquery.datagrid.js:1519-1521 | deleting a row drops it from both lists and leaves the marks of the others |
| SelectionEffects.SelectChooses | dol-framework-service-consumer/src/main/webapp/js/plugins/jquery.datagrid.js:1185-1197 | a row selected comes last among those chosen, alone for a single selection, and is checked too exactly when both are linked |
| SelectionEffects.CheckChooses | dol-framework-service-consumer/src/main/webapp/js/plugins/jquery.datagrid.js:1255-1272 | a row checked comes last among those checked, and is selected too exactly when both are linked |
| SelectionEffects.UnselectDrops | dol-framework-service-consumer/src/main/webapp/js/plugins/jquery.datagrid.js:1205-1215 | a row unselected leaves the others in order, and is unchecked exactly when both are linked |
| SelectionEffects.AllChooses | dol-framework-service-consumer/src/main/webapp/js/plugins/jquery.datagrid.js:1218-1233 | choosing the whole page keeps what is chosen and adds the rest of the page in order |
| SelectionEffects.AllDrops | dol-framework-service-consumer/src/main/webapp/js/plugins/jquery.datagrid.js:1234-1249 | dropping the whole page keeps exactly what is on other pages |
| SelectionEffects.LoadKeeps | dol-framework-service-consumer/src/main/webapp/js/plugins/jquery.datagrid.js:1074-1098 | a new page keeps what is chosen, on every page; for a single selection with a chosen row on the page, the first of those alone |
| SelectionEffects.RejectKeepsPage | dol-framework-service-consumer/src/main/webapp/js/plugins/jquery.datagrid.js:1598-1605 | taking changes back keeps of what was chosen only what is on the page, in the order chosen |
| SelectionEffects.RejectKeepsAllIff | dol-framework-service-consumer/src/main/webapp/js/plugins/jquery.datagrid.js:1598-1605 | so all of it stays chosen exactly when all of it is on the page |
| SelectionRuns.RunKeeps | dol-framework-service-consumer/src/main/webapp/js/plugins/jquery.datagrid.js:1180-1331 | over every run each list is free of repetition and exactly the rows of the page that it holds carry the mark |
| SelectionRuns.RunAgrees | dol-framework-service-consumer/src/main/webapp/js/plugins/jquery.datagrid.js:1185-1189 | with both links on, the selected and the checked rows are the same list after every run |
| SelectionRuns.OtherPagesSurvive | dol-framework-service-consumer/src/main/webapp/js/plugins/jquery.datagrid.js:1234-1249 | unselecting a whole page leaves the rows chosen on other pages, in order, in both lists if they are linked |
| SelectionRuns.SingleSelection | dol-framework-service-consumer/src/main/webapp/js/plugins/jquery.datagrid.js:1187-1196 | with a single selection, selecting a row leaves just that row selected; selecting all adds the whole page all the same |
| FitColumns.Fitter.HandOut | dol-framework-service-consumer/src/main/webapp/js/plugins/jquery.datagrid.js:760-786 | each column is given its share of the free width cut to a whole number, the last one what is left |
| FitColumns.Fitter.Fit | dol-framework-service-consumer/src/main/webapp/js/plugins/jquery.datagrid.js:753-796 | the columns that stay visible grow by their shares, and the rest is kept for the next time |
| FitColumns.AdjustedSum | dol-framework-service-consumer/src/main/webapp/js/plugins/jquery.datagrid.js:773-786 | the shares with the correction add up to the spare width and nothing is lost to rounding |
| FitColumns.AdjustedShares | dol-framework-service-consumer/src/main/webapp/js/plugins/jquery.datagrid.js:773-786 | every column but the last gets its own width's share of the free width, cut towards zero, and the last one the rest |
| FitColumns.RestSmall | dol-framework-service-consumer/src/main/webapp/js/plugins/jquery.datagrid.js:786-790 | the rest kept for the next time is smaller, either way, than the number of columns |
| FitColumns.FitsThenRests | dol-framework-service-consumer/src/main/webapp/js/plugins/jquery.datagrid.js:770-794 | after a fit the columns have grown by the spare width less what columns refused, and the shares of a fit to the same width add up to just that, so to nothing when nothing is refused |
| Grouping.GroupRows | dol-framework-service-consumer/src/main/webapp/js/plugins/jquery.datalist.js:46-78 | the rows of each value in input order, the values in order of first appearance, each group starting where the one before ends |
| Grouping.Permutes | dol-framework-service-consumer/src/main/webapp/js/plugins/jquery.datalist.js:60-67 | grouping loses and doubles no row |
| Grouping.SameRows | dol-framework-service-consumer/src/main/webapp/js/plugins/jquery.datalist.js:51-58 | grouping is stable: the rows of a value keep their order |
| Grouping.Regroup | dol-framework-service-consumer/src/main/webapp/js/plugins/jquery.propertygrid.js:173-210 | grouping rows that lie group by group changes nothing |
| GroupView.View.DeleteRow | dol-framework-service-consumer/src/main/webapp/js/plugins/jquery.propertygrid.js:298-323 | deleting takes the row out of the rows, and out of its group the one its start points at; an emptied group goes and the groups are numbered again; from right starts the rows still lie group by group |
| GroupView.View.InsertRow | dol-framework-service-consumer/src/main/webapp/js/plugins/jquery.propertygrid.js:247-291 | inserting puts the row into the first group of its value, at a place clamped by that group's start, or into a new last group, which does not add to the total; starts are never too late afterwards |
| GroupView.ClampedNearest | dol-framework-service-consumer/src/main/webapp/js/plugins/jquery.propertygrid.js:261-268 | no place of the group, as its start has it, is nearer to the index asked for, or to the end |
| GroupView.NumberedIffLast | dol-framework-service-consumer/src/main/webapp/js/plugins/jquery.propertygrid.js:270-284 | after an insert into a group the groups are numbered right exactly when they were and it is the last one |
| GroupView.InsertAgrees | dol-framework-service-consumer/src/main/webapp/js/plugins/jquery.propertygrid.js:271-276 | after an insert the rows still lie group by group exactly when, for a new row, the start of its group is right; in general when the rows between equal the new one |
| GroupView.DeleteAgrees | dol-framework-service-consumer/src/main/webapp/js/plugins/jquery.propertygrid.js:305-316 | a delete takes the same row out of the groups as out of the rows exactly when it stands alone in its group or, among distinct rows, the start of its group is right; in general when the rows between are alike |
| GroupView.StaleDelete | dol-framework-service-consumer/src/main/webapp/js/plugins/jquery.propertygrid.js:308-308 | the input: after an insert into the first of two groups, deleting the first row of the second takes its second row out of that group |
| Tabs.Tabs.AddTab | dol-framework-service-consumer/src/main/webapp/js/plugins/jquery.tabs.js:365-376 | a tab is put at an index or at the end, and selected if asked |
| Tabs.Tabs.SelectTab | dol-framework-service-consumer/src/main/webapp/js/plugins/jquery.tabs.js:540-546 | the tab asked for is opened if it is not shown; TabsEffects.SelectShows says which tab is shown then |
| Tabs.Tabs.CloseTab | dol-framework-service-consumer/src/main/webapp/js/plugins/jquery.tabs.js:453-485 | a tab leaves with its titles; the last title of the history is selected, or else the first tab |
| Tabs.Tabs.RenameTab | dol-framework-service-consumer/src/main/webapp/js/plugins/jquery.tabs.js:377-452 | a renamed tab is renamed in the history too |
| Tabs.Tabs.OpenPanel | dol-framework-service-consumer/src/main/webapp/js/plugins/jquery.tabs.js:326-350 | opening a panel closes the selected one, marks the header and adds the title to the history |
| TabsEffects.SelectShows | dol-framework-service-consumer/src/main/webapp/js/plugins/jquery.tabs.js:540-546 | selecting by index or by title, the first of that title, leaves just that tab selected and shown, and adds its title to the history exactly when it was not shown |
| TabsEffects.UnselectHides | dol-framework-service-consumer/src/main/webapp/js/plugins/jquery.tabs.js:547-553 | unselecting the tab shown leaves none shown, and any other changes nothing |
| TabsEffects.AddShows | dol-framework-service-consumer/src/main/webapp/js/plugins/jquery.tabs.js:365-376 | a new tab stands at its index, kept within the row, and is the one shown if it is to be selected; otherwise nothing else changes |
| TabsEffects.RenameRenames | dol-framework-service-consumer/src/main/webapp/js/plugins/jquery.tabs.js:377-452 | renaming changes the title of the tab and each entry of the history that had it, and nothing else |
| TabsEffects.CloseShows | dol-framework-service-consumer/src/main/webapp/js/plugins/jquery.tabs.js:466-482 | after a close the tab shown is the first whose title is the last entry left in the history, or the first tab if there is no entry or an empty one |
| TabsEffects.CloseLast | dol-framework-service-consumer/src/main/webapp/js/plugins/jquery.tabs.js:453-485 | closing the last tab leaves none, and closing one that is not there changes nothing |
| TabsRuns.EveryRun | dol-framework-service-consumer/src/main/webapp/js/plugins/jquery.tabs.js:278-364 | over every run at most one tab is selected, it is the one shown, and every title of the history belongs to a tab; closing a tab then leaves exactly one selected, if any is left |
| TabsRuns.ChosenSound | dol-framework-service-consumer/src/main/webapp/js/plugins/jquery.tabs.js:540-553 | selecting an existing tab leaves exactly one selected |
| TabsRuns.ClosedSound | dol-framework-service-consumer/src/main/webapp/js/plugins/jquery.tabs.js:466-482 | a close that finds its tab and leaves any leaves exactly one selected |

## Findings

Properties that a user of these widgets would expect and that do not hold, each with an
input and the exact condition under which the code does meet it.

| expected | fails for | holds exactly when | members |
|---|---|---|---|
| tree marks always agree with the children | reloading a partly checked node as an empty list | no load empties a node that shows partial | TreeRuns.EmptyReloadBreaks, TreeRuns.RunKeeps |
| the month view shows forty-two consecutive dates | the years 0 to 99, which the date constructor moves by 1900 years; January 100 and December of the year -1 for most first days; dates beyond 100000000 days from 1970, such as the year 300000 | the view avoids those years and lies within those days (`Shows`) | CalendarDates.RightIffShows, CalendarDates.NeverRight, CalendarDates.TooLate |
| a date comes back from its text | any date of the years 0 to 99; 1/1/300000 | the date is valid and outside those years | DateBox.RoundTrip, DateBox.EarlyMoves, DateBox.Settles, DateBox.TooLate |
| an arrow of the time spinner adds its units modulo one day | a time text so far off that no date reaches it | the time the text names is a valid date, and the next line | TimeSpinner.SpinAdds, TimeSpinner.TooLong |
| the same with - as separator | 00-30 with the hours spun down: the minus sign is taken for a separator | the new number -k is not negative, or the cut text names the same time all the same (`Lucky`): for hours, k % 60 is the minute, (k / 60) % 24 is (-k) % 24, and the second, if shown, is the minute; likewise for minutes and seconds | TimeSpinner.SpinAdds, TimeSpinner.NamedShows, TimeSpinner.MinusWrong |
| the limits of the time spinner are kept | limits out of order, or a time or limit that is no valid date | the time and the limits set are valid and in order | TimeSpinner.Limited, TimeSpinner.TooLong |
| the limits of the number box are kept | a max of 0.5 in a box without decimals, printed as 1 | the limits, as the box prints them, lie within the limits (`LimitsFit`); limits in order with no more decimals than the box do | NumberLimits.LimitsKept, NumberLimits.ExactLimitsFit, NumberLimits.HalfLimit |
| a number comes back from its text | a text that reads as another number: . as prefix, or between groups without decimals | no such text (`Misread`) | NumberRoundTrip.PointPrefix, NumberRoundTrip.PointGroup, NumberRoundTrip.AllReturn |
| the same with $ between groups | 1234, printed as 1$2: in a replacement text $$ stands for $ | $ does not separate groups (`Spoils`) | NumberRoundTrip.DollarGroup, NumberRoundTrip.AllReturn |
| the same for any number of decimals | 101 decimals where toFixed prints 100: reading throws | no more decimals than toFixed prints (`Spoils`) | NumberRoundTrip.TooFine, NumberRoundTrip.AllReturn |
| the same for negative zero | -0.00 is printed with its sign and read as 0 | the value is not a negative zero | NumberText.FixedAgain, NumberRoundTrip.RoundTrip |
| after an insert the property grid numbers its groups right | an insert into a group that is not the last | they were numbered right, and the group is the last one or a new one | GroupView.NumberedIffLast |
| an insert puts a row at the same place of the rows and of its group | a second insert, into a group after the first one's | the start of the group is right, or the rows between equal the new one | GroupView.InsertAgrees |
| a delete takes the same row out of the rows and of its group | groups of a and of b and c; after an insert into the first, deleting b takes c out of its group | the group has one row, its start is right, or the rows between are alike | GroupView.DeleteAgrees, GroupView.StaleDelete |
| an insert into the property grid adds to the total | a row of a new group | the group is already there | GroupView.View.InsertRow |
| taking changes back keeps what is chosen | a row chosen on another page | all rows chosen are on the page | SelectionEffects.RejectKeepsAllIff |
| a placed treegrid row gets every row that names it | two rows of one id: the first visited gets them all | the row is the first of its id to be visited, or none name it | TreeForest.KidsAllIff, TreeForest.SecondGetsNothing |

## Left out

- TimeSpinner.SpinAdds: without the limits, which TimeSpinner.SpinLimited adds; for a separator that is no digit and a highlighted field that is shown.
- NumberRoundTrip.AllReturn: affixes and separators are single punctuation characters other than the minus sign, different from each other; longer ones meet the regular expressions of the parser as patterns.
- NumberReading.CleanedBare: for a decimal separator that is no space.
- SelectionEffects.RejectKeepsAllIff: where several rows may be chosen; for a single selection the last row chosen that is on the page stays (SelectionEffects.RejectKeepsPage).
- TreeMemory.LoadRemembers: an append also checks the parent again; what the object of the parent then remembers is not stated.
- NumberBox.Group: the separator is no digit, for which the loop does not end.
- FitColumns.FitsThenRests: for widths that do not add up to nothing, before and after; otherwise a fit does nothing.
- HeaderNested.DecodesToLeaves: for rows that lay out nested headers; any other rows are in HeaderDecode.ColumnFields.
- TreeLookup.ListBelow: for rows where looking up children by id comes to an end; otherwise the listing recurses without end. That it is the preorder is shown for unique ids, and refuted for an input with repeated ones; when it is so in between is not stated.
- GroupView.View.DeleteRow: for rows that lie group by group, whatever the starts; once a delete or an insert has set the two apart (GroupView.DeleteAgrees, GroupView.InsertAgrees), the tables of the page and the groups no longer match either, and what follows is left out.
- GroupView.View.InsertRow: likewise, and the table a row goes to on the page is left out.
- NumberBox.NumberBox.SetValue: the engine's own limit on the digits of toFixed is an option here, 20 in the standard and 100 in later editions.
- EasyLoader.Loader.Load: the table of modules is acyclic, as the shipped one is; a cyclic one makes the queue building recurse without end.
- EasyLoader: stylesheets call back at once, so only scripts are awaited; the progress and load callbacks are empty; a script that never arrives is a run in which that event does not occur.
- Tree options onlyLeafCheck, deepCheck and cascadeCheck off, and nodes marked hidden.
- Tree nodes without a domId, the update method, searching, filters, lines, and the lazy loading of a collapsed node before a drop.
- The page itself: markup, the order of list items, animation, styles, focus, scrolling and remote requests; where a mark or an index lives in the page it is a field of the model.
- Veto callbacks and callbacks that call back into a widget.
- Identifiers are integers compared exactly; loose equality between texts and numbers is not modelled.
- Numbers: exponents, hexadecimal texts, Infinity, values of 1e21 and more in toFixed, and the rounding of binary floating point; column shares are exact quotients.
- Daylight saving time: a local day has 24 hours.
- The calendar's year is an integer; an emptied year field, which makes it NaN, is left out.
- Numbers in time texts are read by parseInt as exact integers; those beyond 2^53 are rounded by a browser.
- Local sorting, paging, the editors of cells, the frozen part of a grid beyond its row numbers, and grids without idField.
- Treegrid inserts, deletes and rendering; the accordion, combo boxes, windows, menus, forms and layout, which would add easier members of the same kinds.
- The copy of the same plugins in the zookeeper administration module.
