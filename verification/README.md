# MRF centre: verification of its jQuery algorithms and its retry protocol

The project models two parts of the MRF (message retry framework) centre in Dafny and proves what
they are for.

**The jQuery of its console** (`mrf-center/src/main/webapp/js/jquery.js`, version 1.6):

- *Sizzle, the selector engine.* `Dom` is the ordered forest of nodes. `SortOrder` and `UniqueSort`
  prove that the fallback comparator is document order and that sorting and dropping duplicates is
  right even where a quiet flag lets the second pass be skipped. `Relative` proves that the
  searches that leave marks in the nodes find what searches without memory find, although filters
  run in between start passes of their own. `Narrowing` proves right-to-left narrowing equal to
  the meaning of selectors (section 8 of Selectors Level 3) for the admissible shapes: read from the
  right, a descendant step is followed by descendant steps only, and a `~` step by anything but
  `+`. `ShapeLimits` proves that exactly these shapes are always right. `Filter` and `NthChild` treat
  lists of simple filters and `:nth-child`, whose passes may interrupt one another.
- *Deferred objects.* `Deferred` runs a deferred as a small-step machine whose callbacks may
  re-enter, register and throw without bound, and as objects whose methods carry out every step
  of that machine; `When` treats `jQuery.when`.
- *Data and events.* `DataCache` shows that the expando index is two plain maps per node, and
  `EventHandlers` that handler lists and native listeners stay in step while lists are spliced
  under a recursion, and says exactly when that recursion returns. `Prefilters` proves that the
  redirections of ajax prefilters end.

**The message retry protocol** (`mrf-center/src/main/java/com/nali/mrfcenter`): `RetryTables` holds
the two tables and the operations of the service as the DAO implementations and their SQL carry
them out; `PollTasks` the work of the scheduler's tasks; `RetryProtocol` the interleaving of
house-keeping, interval retries, messages and shutdown; `SchedulerThreads` the three scheduler
threads, their pools, start and shutdown, and `MainLoop` the main loop itself, as code that takes
the steps of `SchedulerThreads`.

`Pagination` covers the pagination plugin (`jquery.pagination.js`); `Wrappers` and `Sequences` hold
what several modules share.

Objects whose methods change their fields are classes here; where calls interleave or re-enter,
the model is a transition system over values, and the theorems speak of every run.

## Where the code does less than it seems to

Each of these is the member named, or shows in the contract of the method it is about.

- Narrowing takes the nearest node and never goes back: for any other shape of selector a page
  exists on which it misses a match (`ShapeLimits.ShapeIsExact`). A leading `>` in a document
  context matches nothing (`Narrowing.NothingBelowADocumentContext`).
- `Sizzle.filter` with `not` keeps what fails every filter, not what fails the list (`Filter.NegatedExactly`).
- `:nth-child(n)` accepts nodes without a parent (`NthChild.AnswersAsMeant`).
- `cleanData` skips every node name listed in `noData`, so that Flash objects keep their data.
- `unbind` without types, or with a namespace first, ignores its handler argument. After a `bind`
  of namespaces only, such as ".ns", it never returns, and neither does `unbind` of "click .ns"
  (`EventHandlers.RemoveExactly`, `EventHandlers.NamespaceAloneNeverReturns`,
  `EventHandlers.LaterNamespaceNeverReturns`).
- `doMessageDirectToRecover` can put an id into the recover table that interval_retry still holds,
  and an interval message without queue name or text is lost on its way to recovery
  (`RetryTables.DirectToRecoverDuplicates`, `RetryTables.MessageIsLost`).
- The DAO comment calls check-out a lock; a check-out that throws still lets its record go, and a
  check-in that arrives while the record is held leads to a second hand-over
  (`RetryProtocol.HandOversArePaidFor`, `RetryProtocol.OnceBetweenCheckIns`) or to one before the
  row is due (`RetryProtocol.RowDueExactly`, `RetryProtocol.RowPutOff`).
- A house-keeping task dropped at a halt, or a worker ended by an exception other than DAOException,
  takes the semaphore's permit with it, and house-keeping never moves a batch again
  (`RetryProtocol.PermitIsLost`, `RetryProtocol.HouseKeepingGoesOnExactly`).
- House-keeping does not look at its halt flag while it waits for the exception-queue thread, so
  `shutDown(true)` between `initialize` and `start` can hang (`SchedulerThreads.ShutDownReturnsExactly`).
- The window of the pagination leaves out page 1 when one entry is to be displayed, and with none
  an ellipsis may be drawn where no page is missing between two links.

## Model

| member | source | states |
|---|---|---|
| `SortOrder.OrderIsDocumentOrder` | mrf-center/src/main/webapp/js/jquery.js:4622-4698 | for any two nodes of one tree the comparator answers negative, positive or zero exactly when the first precedes, follows or is the second in a preorder walk of the tree |
| `SortOrder.OrderIsConsistent` | mrf-center/src/main/webapp/js/jquery.js:4622-4698 | inside one tree the comparator is antisymmetric and transitive |
| `SortOrder.OrderAcrossTrees` | mrf-center/src/main/webapp/js/jquery.js:4622-4698 | between two trees the two argument orders agree exactly when one node is a root and the other is not, and then the root comes first; two roots, or two deeper nodes, each come last |
| `SortOrder.ComparableIsOrdered` | mrf-center/src/main/webapp/js/jquery.js:4622-4698 | on nodes that are pairwise of one tree, or a root and a deeper node of another, the comparator is antisymmetric and transitive |
| `SortOrder.SiblingCheck` | mrf-center/src/main/webapp/js/jquery.js:4682-4697 | the walk over following siblings gives `ret` for identical nodes, -1 if the second follows the first, else 1 |
| `SortOrder.CollectAncestors` | mrf-center/src/main/webapp/js/jquery.js:4652-4664 | the ancestors of a node, outermost first, whatever the tree |
| `SortOrder.Compare` | mrf-center/src/main/webapp/js/jquery.js:4622-4680 | the comparator with its loops and early exits computes the specified order, and raises the duplicate flag exactly for identical nodes |
| `SortOrder.CompareDeep` | mrf-center/src/main/webapp/js/jquery.js:4652-4679 | the walk down the two lists of ancestors answers the specified order, in all three endings |
| `Dom.PrecedesIsLess` | mrf-center/src/main/webapp/js/jquery.js:4622-4698 | document order, as preorder, is the lexicographic order of child positions |
| `UniqueSort.QuietSortMeansDistinct` | mrf-center/src/main/webapp/js/jquery.js:3872-3878 | any comparison sort that is correct for all inputs and never sees two equal elements proves that there are none |
| `UniqueSort.SamePath` | mrf-center/src/main/webapp/js/jquery.js:3872-3878 | comparators that differ only where the first sees equality drive such a sort to the same permutation |
| `UniqueSort.SortableExactly` | mrf-center/src/main/webapp/js/jquery.js:4622-4698 | the comparator is a total preorder on a list of nodes exactly when they are of one tree, or the list holds of one tree only its root and of one other only deeper nodes |
| `UniqueSort.InsertionSorts` | mrf-center/src/main/webapp/js/jquery.js:3875-3875 | a sort that works for every length exists, so that what is asked of the engine can be met |
| `UniqueSort.Sizzle.SortResults` | mrf-center/src/main/webapp/js/jquery.js:3872-3876 | every list that the comparator can order comes out ordered, with the same nodes; if the flag ends false no node is there twice |
| `UniqueSort.Sizzle.RunEngine` | mrf-center/src/main/webapp/js/jquery.js:3875-3875 | the engine arrives at its permutation, and the flag is raised if it saw two equal nodes on the way |
| `UniqueSort.Sizzle.UniqueSort` | mrf-center/src/main/webapp/js/jquery.js:3872-3887 | for every list that the comparator can order the result is strictly increasing, for nodes of one tree in document order, and holds exactly the nodes of the argument, whether or not the splice pass ran |
| `UniqueSort.Sizzle.DropDuplicates` | mrf-center/src/main/webapp/js/jquery.js:3877-3883 | the splice pass leaves every node once, in order |
| `UniqueSort.Spliced` | mrf-center/src/main/webapp/js/jquery.js:3878-3882 | splicing out the second of two equal neighbours loses no node and keeps the order |
| `UniqueSort.NeighboursDiffer` | mrf-center/src/main/webapp/js/jquery.js:3878-3882 | after the pass the whole list, not only neighbours, is strictly increasing |
| `Relative.TrailGrows` | mrf-center/src/main/webapp/js/jquery.js:5030-5055 | one turn of the marking search keeps every mark of the pass leading to the right answer, even if nested selectors overwrite marks in between |
| `Relative.TrailEnds` | mrf-center/src/main/webapp/js/jquery.js:5030-5057 | when a search ends, its marks lead to the answer just stored |
| `Relative.Page.Search` | mrf-center/src/main/webapp/js/jquery.js:5025-5057 | the search with marks for one entry finds what the search without marks finds |
| `Relative.Page.DirCheck` | mrf-center/src/main/webapp/js/jquery.js:4988-5060 | every entry becomes the first hit on its own chain, or false, whatever chains overlap, with marks or (isXML) without |
| `Relative.Page.RunFilter` | mrf-center/src/main/webapp/js/jquery.js:5048-5048 | a filter run inside a search may start passes of its own, which write only marks of newer passes |
| `Relative.Page.TestNode` | mrf-center/src/main/webapp/js/jquery.js:5036-5052 | the test of one node disturbs no mark of the running pass other than by removing it |
| `Relative.Page.FilterInPlace` | mrf-center/src/main/webapp/js/jquery.js:4078-4080 | entries that fail the part become false, the others stay |
| `Relative.Page.AdjacentStep` | mrf-center/src/main/webapp/js/jquery.js:4059-4081 | each entry becomes its nearest previous element if that passes the part |
| `Relative.Page.ChildStep` | mrf-center/src/main/webapp/js/jquery.js:4083-4116 | each entry becomes its parent if that passes the part |
| `Relative.Page.Step` | mrf-center/src/main/webapp/js/jquery.js:4058-4145 | whatever passes came before, every combinator takes every entry to the node it would reach alone |
| `Narrowing.FirstHitIsNearest` | mrf-center/src/main/webapp/js/jquery.js:4988-5060 | the search misses no hit: any hit on the chain is at or beyond the one found |
| `Narrowing.TagSearchExactly` | mrf-center/src/main/webapp/js/jquery.js:4988-5018 | a search for a tag name along a chain ends at a node exactly when that node lies beyond the start, has this node name, and no nearer node has it |
| `Narrowing.FilterSearchExactly` | mrf-center/src/main/webapp/js/jquery.js:5021-5060 | a search for any other string ends at a node exactly when that is the nearest element beyond the start that passes |
| `Narrowing.ContextSearchExactly` | mrf-center/src/main/webapp/js/jquery.js:5042-5048 | a search for the context node answers `true` exactly when the context is an element beyond the start, else false |
| `Narrowing.PreviousElementIsAdjacent` | mrf-center/src/main/webapp/js/jquery.js:4068-4076 | the node of the "+" step is the one the adjacent combinator relates |
| `Narrowing.StepFindsRelated` | mrf-center/src/main/webapp/js/jquery.js:4058-4145 | a step finds a node related by the combinator that passes the part, or none exists |
| `Narrowing.GreedyIsSound` | mrf-center/src/main/webapp/js/jquery.js:3811-3826 | for every selector shape, a candidate that survives the narrowing has a full assignment of nodes to parts |
| `Narrowing.NearerIsAsGood` | mrf-center/src/main/webapp/js/jquery.js:3811-3826 | if only descendant steps remain, a match from an ancestor is also a match from any node below it |
| `Narrowing.GreedyIsComplete` | mrf-center/src/main/webapp/js/jquery.js:3811-3826 | for the admissible shapes no candidate with an assignment is dropped |
| `Narrowing.GreedyIsMeaning` | mrf-center/src/main/webapp/js/jquery.js:3795-3858 | for admissible shapes the candidates kept are exactly those some assignment satisfies (section 8 of Selectors Level 3) |
| `Narrowing.NothingBelowADocumentContext` | mrf-center/src/main/webapp/js/jquery.js:3811-3826 | a leading child combinator in a document context keeps nothing, whatever the selector |
| `Narrowing.StepsOfIsSelector` | mrf-center/src/main/webapp/js/jquery.js:3811-3823 | popping the parts from the right yields steps that end with the context at most |
| `Narrowing.MatchesIsMeaning` | mrf-center/src/main/webapp/js/jquery.js:3811-3823 | popping the parts from the right keeps what the selector means on the list of parts itself: each compound has a node, two compounds with nothing between them are related by descent, two with a combinator between them by that combinator, and a leading combinator relates the first node to the context |
| `Narrowing.AdmissiblePartsExactly` | mrf-center/src/main/webapp/js/jquery.js:3811-3823 | the admissible shapes, as they show in the list of parts |
| `Narrowing.SurvivorsAreMatched` | mrf-center/src/main/webapp/js/jquery.js:3795-3858 | for admissible lists of parts the survivors are the candidates that match the list, in their order |
| `Narrowing.SurvivorsAreMatching` | mrf-center/src/main/webapp/js/jquery.js:3841-3858 | the survivors, in candidate order, are the matching candidates |
| `Narrowing.NarrowSlots` | mrf-center/src/main/webapp/js/jquery.js:3811-3826 | the loop over the parts takes every slot of the check set through all steps |
| `Narrowing.Narrow` | mrf-center/src/main/webapp/js/jquery.js:3795-3858 | the whole function: for every admissible list of parts, in a context it can start from, the result is the candidates that match the parts, in their order; for any other list what survives the steps |
| `ShapeLimits.ShapeIsExact` | mrf-center/src/main/webapp/js/jquery.js:3811-3826 | a sequence of combinators is admissible exactly when narrowing is right for every attached document, every list of parts and every candidate; the same for selectors that begin with a combinator, in every element context |
| `ShapeLimits.DeadEnd` | mrf-center/src/main/webapp/js/jquery.js:5021-5060 | for any two neighbouring steps that do not go together there are parts for which the nearest hit is a dead end and a farther one is not |
| `ShapeLimits.DeadEndAtContext` | mrf-center/src/main/webapp/js/jquery.js:5021-5060 | also when the second of the two steps leads to the context node |
| `ShapeLimits.Refute` | mrf-center/src/main/webapp/js/jquery.js:3811-3826 | wherever such a pair stands in a selector, the search misses a match on a large enough page |
| `ShapeLimits.MatchExists` | mrf-center/src/main/webapp/js/jquery.js:3811-3826 | the missed match is a match in the sense of the standard |
| `ShapeLimits.SearchEnds` | mrf-center/src/main/webapp/js/jquery.js:3811-3826 | the narrowing finds nothing there |
| `ShapeLimits.RefutedEarlier` | mrf-center/src/main/webapp/js/jquery.js:3811-3826 | a step that always finds its nearest node carries the miss further to the right |
| `Filter.CopyPass` | mrf-center/src/main/webapp/js/jquery.js:3970-3990 | one copying pass keeps, in order, exactly the elements that pass one filter |
| `Filter.InPlacePass` | mrf-center/src/main/webapp/js/jquery.js:3970-3990 | one pass in place turns exactly the failing elements into holes, and reports whether an element was left |
| `Filter.TakeOne` | mrf-center/src/main/webapp/js/jquery.js:3941-4006 | the loop over the filter types takes the first filter for which `found` is defined, and takes none only if nothing is left to test |
| `Filter.Filter` | mrf-center/src/main/webapp/js/jquery.js:3933-4022 | copying gives exactly the elements passing all filters, in order; in place the array, holes dropped, is the same list, early exit included |
| `Filter.PunchedKeeps` | mrf-center/src/main/webapp/js/jquery.js:3970-3990 | dropping the holes of the in-place array gives the copying result |
| `Filter.PassingFewer` | mrf-center/src/main/webapp/js/jquery.js:3992-4006 | filters may be taken in any order, and once nothing is left further filters change nothing |
| `Filter.PassingExactly` | mrf-center/src/main/webapp/js/jquery.js:3970-3990 | an element is kept exactly when it passes every filter, or with `not` when it fails every filter |
| `Filter.PassingConcat` | mrf-center/src/main/webapp/js/jquery.js:3970-3990 | the elements kept stay in their order and number |
| `Filter.NegatedExactly` | mrf-center/src/main/webapp/js/jquery.js:3973-3974 | with `not`, a list keeps the elements failing every filter, which is the negation of the list exactly when no element passes one filter and fails another |
| `NthChild.FormulaIsRepresents` | mrf-center/src/main/webapp/js/jquery.js:4484-4491 | the test by truncated remainder and quotient holds exactly when position = a*n + b for some n >= 0, for all signs |
| `NthChild.AnswersAsMeant` | mrf-center/src/main/webapp/js/jquery.js:4461-4491 | the filter agrees with section 6.6.5.2 of Selectors Level 3 exactly unless a*n+b is `n` and the node has no parent or is no element |
| `NthChild.FirstIsFirst` | mrf-center/src/main/webapp/js/jquery.js:4438-4448 | `:first-child` is `:nth-child(1)` |
| `NthChild.PositionIsCount` | mrf-center/src/main/webapp/js/jquery.js:4474-4480 | the position of an element is the number of elements among its siblings up to and including itself |
| `NthChild.KindsByPosition` | mrf-center/src/main/webapp/js/jquery.js:4438-4459 | `:first-child`, `:last-child` and `:only-child` say that the position is 1, is the number of element children, and that this number is 1 |
| `NthChild.PassBegins` | mrf-center/src/main/webapp/js/jquery.js:4231-4233 | a fresh pass number makes every kept index harmless |
| `NthChild.OtherPassKeeps` | mrf-center/src/main/webapp/js/jquery.js:5036-5040 | a mark that another search writes into the same field keeps the indices right |
| `NthChild.CountByOtherPassKeeps` | mrf-center/src/main/webapp/js/jquery.js:4472-4482 | another `:nth-child` pass that counts the same children in between keeps them right |
| `NthChild.Children.PrecededByElement` | mrf-center/src/main/webapp/js/jquery.js:4440-4445 | the walk over previous siblings finds an element exactly if there is one |
| `NthChild.Children.FollowedByElement` | mrf-center/src/main/webapp/js/jquery.js:4452-4459 | the walk over next siblings finds an element exactly if there is one |
| `NthChild.Children.CountChildren` | mrf-center/src/main/webapp/js/jquery.js:4472-4482 | all element children of the parent get their position, nothing else changes, and kept indices stay right |
| `NthChild.Children.NthChild` | mrf-center/src/main/webapp/js/jquery.js:4461-4491 | the answer with kept indices is the answer by counting |
| `NthChild.Children.Child` | mrf-center/src/main/webapp/js/jquery.js:4433-4492 | every kind of the filter answers by the siblings alone and keeps the indices of the pass right |
| `NthChild.Children.RunTurn` | mrf-center/src/main/webapp/js/jquery.js:3971-3974 | one element, tested after any other passes, is answered by its siblings alone |
| `NthChild.Children.RunPass` | mrf-center/src/main/webapp/js/jquery.js:4231-4233 | a pass over any elements, with any searches and any other passes, themselves interrupted, in between, answers each element by its siblings alone and misleads no pass begun before |
| `Deferred.FlattenUnpacks` | mrf-center/src/main/webapp/js/jquery.js:974-975 | a nested list among the arguments registers what its items would in its place |
| `Deferred.FlattenIgnores` | mrf-center/src/main/webapp/js/jquery.js:971-979 | an argument that is neither function nor list registers nothing |
| `Deferred.FlattenFunctions` | mrf-center/src/main/webapp/js/jquery.js:976-977 | functions are registered in their order |
| `Deferred.SimpleDeferred.Done` | mrf-center/src/main/webapp/js/jquery.js:959-985 | appends the functions of all nested lists, in order, unless cancelled, and goes on to fire exactly if the list had fired |
| `Deferred.SimpleDeferred.StartResolve` | mrf-center/src/main/webapp/js/jquery.js:988-992 | fires exactly if not cancelled, fired or firing |
| `Deferred.DeferredObject.constructor` | mrf-center/src/main/webapp/js/jquery.js:1029-1095 | two simple deferreds, each holding the `cancel` of the other first |
| `Deferred.DeferredObject.Register` | mrf-center/src/main/webapp/js/jquery.js:959-985 | `done` or `fail` with any arguments, nested lists included, does what one act of the machine does, the call of resolveWith for a list that has fired included |
| `Deferred.DeferredObject.GoOn` | mrf-center/src/main/webapp/js/jquery.js:993-1001 | a turn of the loop (the callback taken off the list and called, or the other list cancelled) or its finally block is the internal act of the machine |
| `Deferred.DeferredObject.Perform` | mrf-center/src/main/webapp/js/jquery.js:946-1095 | every act of the machine is what the methods of the two objects do |
| `Deferred.DeferredObject.Play` | mrf-center/src/main/webapp/js/jquery.js:946-1095 | on every run the objects stand where the machine stands, so that the theorems below are about them |
| `Deferred.RunInv` | mrf-center/src/main/webapp/js/jquery.js:946-1095 | on every run, with re-entrant and throwing callbacks, both lists are as the calls made so far prescribe |
| `Deferred.StepKeeps` | mrf-center/src/main/webapp/js/jquery.js:946-1095 | every single step keeps that |
| `Deferred.CallbacksRunOnce` | mrf-center/src/main/webapp/js/jquery.js:988-1004 | only the list of the first resolve or reject ever calls a user callback, each registration at most once, in registration order, all with the arguments of that call |
| `Deferred.CallbacksAllRun` | mrf-center/src/main/webapp/js/jquery.js:988-1004 | if nothing was thrown and no loop is left, exactly the functions handed to the list before the other one won have been called |
| `Deferred.TakenExactly` | mrf-center/src/main/webapp/js/jquery.js:959-985 | a list takes exactly the functions, nested ones included, handed to it by acts before the other list has won |
| `Deferred.WinnerIsFirst` | mrf-center/src/main/webapp/js/jquery.js:988-992 | the list that wins, and its arguments, are those of the first call of resolve or reject |
| `Deferred.TakenAscends` | mrf-center/src/main/webapp/js/jquery.js:959-985 | the registrations a list takes are in the order in which they were made |
| `Deferred.ResolvedMeansWon` | mrf-center/src/main/webapp/js/jquery.js:1013-1015 | at every point isResolved (isRejected) is true exactly if resolve (reject) was called first |
| `Deferred.ResolvedForever` | mrf-center/src/main/webapp/js/jquery.js:1013-1087 | once one of them is true it stays true and the other stays false |
| `When.When.constructor` | mrf-center/src/main/webapp/js/jquery.js:1098-1131 | after the call the result follows from the settlements found in the loop: rejected as the first of them that rejects, resolved with the values given and all arguments of each settlement, or pending while a promise is |
| `When.When.Subscribe` | mrf-center/src/main/webapp/js/jquery.js:1118-1124 | the counter is the number of positions without a value after every turn of the loop |
| `When.When.CallBack` | mrf-center/src/main/webapp/js/jquery.js:1106-1120 | a settlement fills its own position only, and with all its arguments: nothing, the one, or the list of several; the result is settled by the first rejection or by the last value |
| `When.When.Settle` | mrf-center/src/main/webapp/js/jquery.js:1106-1122 | after any later settlement the result is the first rejection, or the values in argument order, each holding all arguments of its settlement, or still pending; once settled it stays |
| `When.StoredHolds` | mrf-center/src/main/webapp/js/jquery.js:1108 | the value stored gives back the arguments of the settlement, and is a list exactly for more than one |
| `When.ExpectedFollows` | mrf-center/src/main/webapp/js/jquery.js:1098-1131 | the result by counting is the one that follows from the events: rejected with the first rejection, resolved position by position, or pending while some promise is |
| `When.EarlyExactly` | mrf-center/src/main/webapp/js/jquery.js:1117-1124 | the settlements the loop of the call finds are those made before the call, in argument order |
| `When.When.ResolveIfComplete` | mrf-center/src/main/webapp/js/jquery.js:1125-1127 | the result is there if every argument already had its value |
| `When.MissingZero` | mrf-center/src/main/webapp/js/jquery.js:1109-1109 | the count is zero exactly when every position has a value |
| `When.RejectionLeavesGap` | mrf-center/src/main/webapp/js/jquery.js:1120-1120 | after a rejection the count never reaches zero |
| `DataCache.Data.DataCall` | mrf-center/src/main/webapp/js/jquery.js:1409-1490 | a call of data changes the one map it names as the plain map would, answers from it (with what every object inherits exactly if it reads such a name, the map has no such key, and there is an object to look into), and makes an entry exactly unless it reads by name |
| `DataCache.Data.RemoveData` | mrf-center/src/main/webapp/js/jquery.js:1492-1575 | the key, or the map, goes; nothing else of any node changes; after removing private data an entry is left exactly if something is in it |
| `DataCache.Data.CleanData` | mrf-center/src/main/webapp/js/jquery.js:6142-6183 | both maps of every node in the list go, except on nodes that noData lists by name, Flash objects among them |
| `DataCache.Data.Perform` | mrf-center/src/main/webapp/js/jquery.js:1409-1575 | one call keeps the index consistent, every node shows what one step on its two plain maps gives, and the answer is the plain map's or the inherited one |
| `DataCache.Data.Replay` | mrf-center/src/main/webapp/js/jquery.js:1409-1575 | any sequence of calls on a fresh cache leaves every node with its two plain maps and answers as they would, save that a read of an inherited name the map does not have may find what is inherited; ids are never shared and a node has an expando exactly if the cache has its entry |
| `DataCache.PlainStepIsLocal` | mrf-center/src/main/webapp/js/jquery.js:1409-1575 | in the plain maps, which every call follows, a call on one node or one of its maps leaves all others alone, and cleaning leaves the nodes that are not in its list |
| `DataCache.LastCallIsRead` | mrf-center/src/main/webapp/js/jquery.js:1409-1575 | after any sequence of calls a key reads what the last call that set it left, and nothing if that call took it away or none set it |
| `DataCache.ReadAfterCall` | mrf-center/src/main/webapp/js/jquery.js:1455-1490 | a call that sets a key, alone or in an object, is read back over whatever was there; one that removes the key, the map or the node leaves nothing; any other call leaves what was read before |
| `DataCache.AnswersTell` | mrf-center/src/main/webapp/js/jquery.js:1472-1489 | a call without a name answers all that calls with a name would, and a call that writes answers what is there afterwards |
| `DataCache.InheritedExactly` | mrf-center/src/main/webapp/js/jquery.js:1425-1432 | a name is found as inherited exactly when it is read by name, is no key, and the node has an object to look into |
| `DataCache.RefusingHoldsNothing` | mrf-center/src/main/webapp/js/jquery.js:1409-1413 | a node that refuses an expando keeps and answers nothing |
| `DataCache.WrittenMaps` | mrf-center/src/main/webapp/js/jquery.js:1455-1480 | what a call writes into an entry shows as the plain step |
| `DataCache.ReplaceView` | mrf-center/src/main/webapp/js/jquery.js:1455-1480 | writing an entry shows in one node only |
| `DataCache.WithoutView` | mrf-center/src/main/webapp/js/jquery.js:1541-1574 | deleting an entry and its expando empties one node only |
| `DataCache.FreshView` | mrf-center/src/main/webapp/js/jquery.js:1434-1453 | a new id shows as two empty maps |
| `DataCache.Data.Ensure` | mrf-center/src/main/webapp/js/jquery.js:1434-1453 | finds the id of a node or gives it one never used before |
| `DataCache.Data.Free` | mrf-center/src/main/webapp/js/jquery.js:1541-1574 | the entry and the expando go together |
| `EventHandlers.Element.Add` | mrf-center/src/main/webapp/js/jquery.js:2515-2635 | the bindings are appended per type in order, for every type name, the empty one of ".ns" included, and the native listener is there exactly for the types with a handler list |
| `EventHandlers.AddedExactly` | mrf-center/src/main/webapp/js/jquery.js:2575-2628 | what is appended to a type carries the function, the guid it is to be removed by, and the namespaces of a piece that names the type |
| `EventHandlers.AddThenRemove` | mrf-center/src/main/webapp/js/jquery.js:2575-2744 | removing with the same types and the guid something was bound under takes out just what was bound and what matched before; with another guid it stays |
| `EventHandlers.MatchesIsOccursIn` | mrf-center/src/main/webapp/js/jquery.js:2690-2691 | the namespaces asked for, sorted, occur in order among the sorted namespaces of a handler exactly when none of them is missing there |
| `EventHandlers.Element.RemoveHandler` | mrf-center/src/main/webapp/js/jquery.js:2715-2744 | the loop that splices while walking keeps exactly the bindings not matched, in order |
| `EventHandlers.Element.SpliceMatching` | mrf-center/src/main/webapp/js/jquery.js:2715-2734 | splicing while walking leaves the array with exactly the unmatched bindings, in order |
| `EventHandlers.Element.RemoveEvery` | mrf-center/src/main/webapp/js/jquery.js:2700-2711 | without a handler: a piece that names a type keeps exactly the bindings whose namespaces do not match, in order, through the recursion with `pos` over the list being spliced; a piece of namespaces only returns exactly if it matches nothing under the empty type |
| `EventHandlers.Element.RemoveEveryNamed` | mrf-center/src/main/webapp/js/jquery.js:2700-2711 | the loop over the list being spliced, for a piece that names a type |
| `EventHandlers.Element.RemoveEveryEmpty` | mrf-center/src/main/webapp/js/jquery.js:2700-2711 | for a piece of namespaces only, the first match calls `remove` with the same piece, and that call does not return |
| `EventHandlers.Element.RemoveAt` | mrf-center/src/main/webapp/js/jquery.js:2705-2744 | the inner call for a piece that names a type removes no binding, and unlinks the type exactly when the binding at `pos` is its last |
| `EventHandlers.Element.RemoveNamed` | mrf-center/src/main/webapp/js/jquery.js:2675-2745 | the loop over the pieces of a types string goes exactly as far as its specification, piece by piece, with that outcome |
| `EventHandlers.Element.RemoveOne` | mrf-center/src/main/webapp/js/jquery.js:2679-2745 | one piece returns exactly if it does not recurse; then list, events entry and native listener of its type stay in step |
| `EventHandlers.Element.RemoveAll` | mrf-center/src/main/webapp/js/jquery.js:2664-2673 | the loop over all types, given any order of `for in` and any depth, returns exactly when its specification does, with that outcome |
| `EventHandlers.Element.RemoveWithin` | mrf-center/src/main/webapp/js/jquery.js:2640-2761 | the same for the whole function, within a given depth of calls of itself |
| `EventHandlers.Element.Remove` | mrf-center/src/main/webapp/js/jquery.js:2640-2761 | a call about all types returns exactly if nothing is bound under the empty type; a call that names a type first exactly if it has a handler or none of its pieces of namespaces only matches a binding there; then exactly the bindings matching type, namespace and guid are gone, the others keep their order, and a type is in events exactly if it has bindings and exactly if the native listener is attached |
| `EventHandlers.RemoveExactly` | mrf-center/src/main/webapp/js/jquery.js:2640-2761 | that condition, and what is left then, for every table, call, order of `for in` and depth of recursion from 2 on |
| `EventHandlers.RemoveSpares` | mrf-center/src/main/webapp/js/jquery.js:2679-2745 | a binding under another guid, under a type no piece names, or without a namespace each piece for its type asks for, stays |
| `EventHandlers.UnbindRemoves` | mrf-center/src/main/webapp/js/jquery.js:2664-2673 | a call without types removes every binding, and one with namespaces alone those that have them all, whatever handler is given |
| `EventHandlers.PiecesReturn` | mrf-center/src/main/webapp/js/jquery.js:2675-2745 | pieces that do not recurse are taken one after the other |
| `EventHandlers.NeverReturns` | mrf-center/src/main/webapp/js/jquery.js:2664-2708 | where the condition fails no depth of recursion is enough |
| `EventHandlers.UnbindReturnsExactly` | mrf-center/src/main/webapp/js/jquery.js:2664-2673 | without types, or with namespaces first, `remove` returns exactly if nothing is bound under the empty type |
| `EventHandlers.NamespaceAloneNeverReturns` | mrf-center/src/main/webapp/js/jquery.js:2575-2597 | binding ".ns" makes a following unbind without types run for ever |
| `EventHandlers.LaterNamespaceNeverReturns` | mrf-center/src/main/webapp/js/jquery.js:2700-2708 | after binding ".ns" and "click", unbinding "click .ns" without a handler runs for ever, and with one it returns |
| `EventHandlers.Element.DropEmpty` | mrf-center/src/main/webapp/js/jquery.js:2747-2760 | without bindings the events object goes, and the private data with it if it holds nothing else |
| `Sequences.KeepTwice` | mrf-center/src/main/webapp/js/jquery.js:2679-2745 | removing in two passes is removing what either pass matches |
| `Sequences.KeepMembers` | mrf-center/src/main/webapp/js/jquery.js:2679-2745 | what stays in a spliced list is what is not matched |
| `Sequences.KeepConcat` | mrf-center/src/main/webapp/js/jquery.js:2679-2745 | and it stays in its order and number |
| `Prefilters.Inspector.InspectExecuting` | mrf-center/src/main/webapp/js/jquery.js:6679-6716 | terminates for all redirections; the lists of exactly the first type, the catchall and the types redirected to run, each completely and in order; new types are put in front once |
| `Prefilters.Inspector.Ask` | mrf-center/src/main/webapp/js/jquery.js:6692-6705 | one function of a list, with the redirection followed if its type was not inspected |
| `Prefilters.Inspector.InspectSearching` | mrf-center/src/main/webapp/js/jquery.js:6679-6716 | the functions of the type and then of the catchall are asked in order up to the first transport, and none after it |
| `Prefilters.Inspector.InspectPrefiltersOrTransports` | mrf-center/src/main/webapp/js/jquery.js:6679-6716 | both modes from an empty set of inspected types |
| `Prefilters.CalledExactly` | mrf-center/src/main/webapp/js/jquery.js:6687-6716 | an execution calls each function of each inspected type exactly once and no other |
| `Prefilters.RedirectedExactly` | mrf-center/src/main/webapp/js/jquery.js:6695-6704 | the types redirected to are those a call was answered with |
| `Prefilters.CandidatesInOrder` | mrf-center/src/main/webapp/js/jquery.js:6691-6713 | a search asks the functions of its type in their order, then those of the catchall |
| `RetryTables.DisjointExactly` | mrf-center/src/main/java/com/nali/mrfcenter/service/MRFMessageProcessService.java:32-95 | any one operation keeps the two tables disjoint exactly unless it sends an id straight to recovery that interval_retry holds |
| `RetryTables.DirectToRecoverDuplicates` | mrf-center/src/main/java/com/nali/mrfcenter/service/MRFMessageProcessService.java:85-95 | such a message exists |
| `RetryTables.StaysExactly` | mrf-center/src/main/java/com/nali/mrfcenter/service/MRFMessageProcessService.java:32-95 | any one operation keeps a stored message stored exactly unless it cleans it or loses it |
| `RetryTables.OnlyItsOwnRows` | mrf-center/src/main/java/com/nali/mrfcenter/service/MRFMessageProcessService.java:32-95 | an operation leaves the rows of all other messages alone |
| `RetryTables.CleaningRemoves` | mrf-center/src/main/java/com/nali/mrfcenter/service/MRFMessageProcessService.java:32-40 | cleaning removes the message's row from its one table and changes nothing else |
| `RetryTables.FirstRetryIsStored` | mrf-center/src/main/java/com/nali/mrfcenter/service/MRFMessageProcessService.java:60-66 | a new message with a queue name and a text is stored under its new id, ready to be retried after its interval, with its content; without them nothing happens |
| `RetryTables.CheckInIsStored` | mrf-center/src/main/java/com/nali/mrfcenter/service/MRFMessageProcessService.java:52-59 | a message that came back replaces its own row, ready again after its interval; without queue name, text or row nothing happens |
| `RetryTables.IntervalRecoverMoves` | mrf-center/src/main/java/com/nali/mrfcenter/dao/impl/JoinDAOImpl.java:28-46 | an interval message leaves interval_retry and stands in recover under its own id with its content, available; without queue name or text it only leaves; one that recover has already makes the call throw and nothing changes |
| `RetryTables.ImmediateRecoverIsStored` | mrf-center/src/main/java/com/nali/mrfcenter/service/MRFMessageProcessService.java:75-83 | any other message for recovery is stored under a new id with its content, available, and interval_retry stays |
| `RetryTables.DirectRecoverIsStored` | mrf-center/src/main/java/com/nali/mrfcenter/service/MRFMessageProcessService.java:85-95 | a message straight to recovery is stored under its id, or a new one, with -1 for interval, times retried and maximum |
| `RetryTables.MarksChange` | mrf-center/src/main/java/com/nali/mrfcenter/dao/impl/IntervalRetryDAOImpl.java:126-138 | checking out a row that is not out marks it and keeps its content and time; sending again makes a recover row available with its content |
| `RetryTables.HouseKeepMoves` | mrf-center/src/main/java/com/nali/mrfcenter/dao/impl/JoinDAOImpl.java:48-57 | house-keeping moves every row of the batch with its content from one table to the other and touches no other message, or throws and changes nothing |
| `RetryTables.MessageIsLost` | mrf-center/src/main/java/com/nali/mrfcenter/dao/impl/JoinDAOImpl.java:28-46 | an interval message sent to recovery without text is deleted and not added |
| `RetryTables.IssuedStays` | mrf-center/src/main/java/com/nali/mrfcenter/service/MRFMessageProcessService.java:47-95 | only ids that the generator gave out are in the tables |
| `RetryTables.MRFMessageProcessService.DoIntervalMessageRetry` | mrf-center/src/main/java/com/nali/mrfcenter/service/MRFMessageProcessService.java:47-67 | a first retry gets a row with a new id, a message that came back has its row checked in |
| `RetryTables.MRFMessageProcessService.DoIntervalMessageRecover` | mrf-center/src/main/java/com/nali/mrfcenter/dao/impl/JoinDAOImpl.java:28-46 | delete and add are one transaction, undone together |
| `RetryTables.MRFMessageProcessService.DoImmediateMessageRecover` | mrf-center/src/main/java/com/nali/mrfcenter/service/MRFMessageProcessService.java:75-83 | leaves the tables as that operation, whose rows `ImmediateRecoverIsStored` gives, or as they were when it throws |
| `RetryTables.MRFMessageProcessService.DoMessageDirectToRecover` | mrf-center/src/main/java/com/nali/mrfcenter/service/MRFMessageProcessService.java:85-95 | a recover row with the id the message brings, or a new one |
| `PollTasks.QueueKeepsDisjoint` | mrf-center/src/main/java/com/nali/mrfcenter/poll/PollEQTaskSchedulerThread.java:67-112 | whatever comes through the exception queue, in any order and with any failures, no id is in both tables |
| `PollTasks.QueueKeepsStored` | mrf-center/src/main/java/com/nali/mrfcenter/poll/PollEQTaskSchedulerThread.java:67-112 | a stored message survives a task in which no message cleans or loses it |
| `PollTasks.MailKeepsDisjointExactly` | mrf-center/src/main/java/com/nali/mrfcenter/thrift/MRFServiceImpl.java:76-127 | a message keeps the tables disjoint exactly unless it comes by the remote interface, straight to recovery, with an id that interval_retry holds |
| `PollTasks.PollEQ.ConstructPollTask` | mrf-center/src/main/java/com/nali/mrfcenter/poll/PollEQTaskSchedulerThread.java:33-60 | the task is what was received, in order; receiving ends with an empty queue, with an exception before a delivery, or with one delivery that could not be read and is lost |
| `PollTasks.PollEQ.Execute` | mrf-center/src/main/java/com/nali/mrfcenter/poll/PollEQTaskSchedulerThread.java:67-115 | the tables end as if the messages were handled one by one, a failing one skipped |
| `PollTasks.PollEQ.Dispatch` | mrf-center/src/main/java/com/nali/mrfcenter/poll/PollEQTaskSchedulerThread.java:74-105 | each flag reaches its operation; the flag of direct recovery is ignored here |
| `PollTasks.FlagsMean` | mrf-center/src/main/java/com/nali/mrfcenter/poll/PollEQTaskSchedulerThread.java:74-105 | flag by flag, which rows of the two tables a message leaves and what they hold: 1 and 2 remove, 3 makes available, 4 writes or checks in, 6 moves, 7 adds, 8 adds if the message comes by the remote interface; any other flag changes nothing |
| `PollTasks.TaskInOrder` | mrf-center/src/main/java/com/nali/mrfcenter/poll/PollEQTaskSchedulerThread.java:70-112 | the messages of a task are handled one after the other in their order |
| `PollTasks.HouseKeeping.Execute` | mrf-center/src/main/java/com/nali/mrfcenter/poll/HouseKeepSchedulerThread.java:71-103 | building both lists and moving them row by row is the one atomic operation of the protocol, or no change at all |
| `PollTasks.BatchHolds` | mrf-center/src/main/java/com/nali/mrfcenter/poll/HouseKeepSchedulerThread.java:71-90 | the batch holds the content of each of its rows |
| `PollTasks.HouseKeeping.BatchAdd` | mrf-center/src/main/java/com/nali/mrfcenter/dao/impl/RecoverDAOImpl.java:82-95 | the batch insert adds all rows or throws exactly if one is there already |
| `PollTasks.HouseKeeping.BatchDelete` | mrf-center/src/main/java/com/nali/mrfcenter/dao/impl/IntervalRetryDAOImpl.java:97-110 | the batch delete removes exactly the rows of the batch |
| `PollTasks.WaitUntilAppropriateToExecute` | mrf-center/src/main/java/com/nali/mrfcenter/poll/PollIntervalRetryTaskSchedulerThread.java:114-134 | the wait ends at the first reading of the clock at most 2 ms early, or the first after a halt |
| `RetryProtocol.DisjointOnEveryRun` | mrf-center/src/main/java/com/nali/mrfcenter/poll/HouseKeepSchedulerThread.java:37-103 | on every interleaving, stale batches included, no id is ever in both tables exactly if no message bypasses interval_retry |
| `RetryProtocol.StoredOnEveryRun` | mrf-center/src/main/java/com/nali/mrfcenter/service/MRFMessageProcessService.java:32-95 | on every interleaving a stored message stays stored exactly as long as no step cleans or loses it |
| `RetryProtocol.PermitsConserved` | mrf-center/src/main/java/com/nali/mrfcenter/poll/HouseKeepSchedulerThread.java:35-56 | permits free, held and lost always add up to one plus the interrupted acquires |
| `RetryProtocol.OneBatchInside` | mrf-center/src/main/java/com/nali/mrfcenter/poll/HouseKeepSchedulerThread.java:71-101 | without interrupts at most one batch is inside doHouseKeep |
| `RetryProtocol.TwoBatchesInside` | mrf-center/src/main/java/com/nali/mrfcenter/poll/HouseKeepSchedulerThread.java:48-52 | one interrupted acquire lets two in |
| `RetryProtocol.LostForGood` | mrf-center/src/main/java/com/nali/mrfcenter/poll/HouseKeepSchedulerThread.java:71-101 | once all permits are lost no batch is acquired or moved on any continuation without interrupts |
| `RetryProtocol.PermitIsLost` | mrf-center/src/main/java/com/nali/mrfcenter/poll/HouseKeepSchedulerThread.java:71-101 | a run from the start, without a halt or an interrupt, on which a dying worker loses the permit |
| `RetryProtocol.HouseKeepingGoesOnExactly` | mrf-center/src/main/java/com/nali/mrfcenter/poll/HouseKeepSchedulerThread.java:35-101 | from any state some continuation without interrupts moves the rows of a batch from one table to the other exactly as long as a permit is left; after a halt exactly as long as a worker has one to move |
| `RetryProtocol.HandOversArePaidFor` | mrf-center/src/main/java/com/nali/mrfcenter/poll/PollIntervalRetryTaskSchedulerThread.java:33-64 | a record is handed over at most once per write or check-in, plus once per check-out that threw |
| `RetryProtocol.OnceBetweenCheckIns` | mrf-center/src/main/java/com/nali/mrfcenter/poll/PollIntervalRetryTaskSchedulerThread.java:33-64 | from a given state every continuation without check-in and throwing check-out hands the record over at most once exactly unless it is held and its row is already checked in again |
| `RetryProtocol.TwoHandOvers` | mrf-center/src/main/java/com/nali/mrfcenter/poll/PollIntervalRetryTaskSchedulerThread.java:33-64 | from every such state a run with two hand-overs exists |
| `RetryProtocol.TwiceAfterEarlyCheckIn` | mrf-center/src/main/java/com/nali/mrfcenter/poll/PollIntervalRetryTaskSchedulerThread.java:33-64 | such a state is reached from the start, by a check-in that arrives while the record is held |
| `RetryProtocol.NeverTooEarly` | mrf-center/src/main/java/com/nali/mrfcenter/poll/PollIntervalRetryTaskSchedulerThread.java:108-134 | no record is handed over more than 2 ms before the time it was read with |
| `RetryProtocol.RowDueExactly` | mrf-center/src/main/java/com/nali/mrfcenter/poll/PollIntervalRetryTaskSchedulerThread.java:33-134 | from a given state the row is due whenever its record is handed over, on every continuation without a check-in of it, exactly unless the record was read and its row is due later than both the record and the present allow |
| `RetryProtocol.NeverBeforeTheRowIsDue` | mrf-center/src/main/java/com/nali/mrfcenter/poll/PollIntervalRetryTaskSchedulerThread.java:33-134 | on every run in which no check-in overtakes a record that was read, every row is due at its hand-over |
| `RetryProtocol.RowPutOff` | mrf-center/src/main/java/com/nali/mrfcenter/poll/PollIntervalRetryTaskSchedulerThread.java:33-134 | on a run from the start a check-in in between puts the row off and the record is handed over all the same |
| `SchedulerThreads.InvStep` | mrf-center/src/main/java/com/nali/mrfcenter/poll/PollTaskSchedulerThread.java:179-299 | after every step of any thread, who is started, halted and dead is as far as initialize and shutDown have come, a closed pool has no free worker, and a thread past an open pool's wait has one |
| `SchedulerThreads.SubmitNeverWaits` | mrf-center/src/main/java/com/nali/mrfcenter/poll/SimpleThreadPool.java:407-455 | a thread that got past blockForAvailableThreads never has to wait in runInThread |
| `SchedulerThreads.OneMoreSubmit` | mrf-center/src/main/java/com/nali/mrfcenter/poll/PollTaskSchedulerThread.java:236-253 | after halt a thread submits at most one more task, and only if it had passed the test of the flag |
| `SchedulerThreads.OneMoreConstruct` | mrf-center/src/main/java/com/nali/mrfcenter/poll/PollTaskSchedulerThread.java:199-231 | after halt a thread constructs at most one more task, and only if it had passed the pause |
| `SchedulerThreads.NoSubmitAfterClose` | mrf-center/src/main/java/com/nali/mrfcenter/poll/PollTaskScheduler.java:139-161 | under shutDown(true) nothing is handed to a pool after its shutdown |
| `SchedulerThreads.LateSubmit` | mrf-center/src/main/java/com/nali/mrfcenter/poll/PollTaskScheduler.java:139-161 | under shutDown(false) it can happen, on a run from the start |
| `SchedulerThreads.QuietForGood` | mrf-center/src/main/java/com/nali/mrfcenter/poll/PollTaskScheduler.java:139-161 | once shutDown(true) has returned, the threads are dead and no task runs, for good |
| `SchedulerThreads.NothingWhilePaused` | mrf-center/src/main/java/com/nali/mrfcenter/poll/PollTaskSchedulerThread.java:123-131 | a paused thread constructs nothing until togglePause(false) |
| `SchedulerThreads.NothingBeforeFirstSignal` | mrf-center/src/main/java/com/nali/mrfcenter/poll/PollTaskSchedulerThread.java:179-197 | house-keeping constructs nothing until the exception-queue thread has signalled a round |
| `SchedulerThreads.IdlesAfterNothing` | mrf-center/src/main/java/com/nali/mrfcenter/poll/PollTaskSchedulerThread.java:221-284 | a thread idles only when it found no task last, hands over a task only when it found one last, and counts as having executed exactly when it has signalled |
| `SchedulerThreads.FoundIsHandedOver` | mrf-center/src/main/java/com/nali/mrfcenter/poll/PollTaskSchedulerThread.java:232-257 | a thread that is not halted hands over every task it finds, but for those whose wait throws |
| `SchedulerThreads.SignalsOnceARound` | mrf-center/src/main/java/com/nali/mrfcenter/poll/PollTaskSchedulerThread.java:232-264 | halted or not, a thread signals once for every round in which nothing threw |
| `SchedulerThreads.NoStartAfterShutDown` | mrf-center/src/main/java/com/nali/mrfcenter/poll/PollTaskScheduler.java:113-121 | once a shutdown has begun before start, no thread is unpaused any more |
| `SchedulerThreads.ShutDownReturnsExactly` | mrf-center/src/main/java/com/nali/mrfcenter/poll/PollTaskScheduler.java:139-161 | a shutDown(true) under way can return exactly unless house-keeping waits for a first round of the exception-queue thread that cannot come any more |
| `SchedulerThreads.ReturnPossible` | mrf-center/src/main/java/com/nali/mrfcenter/poll/PollTaskScheduler.java:139-161 | from every other state a run leads to the return |
| `SchedulerThreads.StuckForGood` | mrf-center/src/main/java/com/nali/mrfcenter/poll/PollTaskSchedulerThread.java:182-197 | house-keeping waiting for such a round waits for ever, and shutDown(true) with it |
| `SchedulerThreads.ShutDownBeforeStartGetsStuck` | mrf-center/src/main/java/com/nali/mrfcenter/poll/PollTaskScheduler.java:139-161 | a shutdown between initialize and start can lead there |
| `MainLoop.PollTaskSchedulerThread.Run` | mrf-center/src/main/java/com/nali/mrfcenter/poll/PollTaskSchedulerThread.java:179-299 | the loop, with the conditions of its own waits and with any steps of other threads between any two of its atomic blocks, takes only steps the transition system allows, and ends dead unless the run is cut off |
| `MainLoop.PollTaskSchedulerThread.Round` | mrf-center/src/main/java/com/nali/mrfcenter/poll/PollTaskSchedulerThread.java:181-292 | one turn of the loop comes back to its test or leaves the thread dead |
| `MainLoop.PollTaskSchedulerThread.PassLoopTest` | mrf-center/src/main/java/com/nali/mrfcenter/poll/PollTaskSchedulerThread.java:181-197 | past the test of `halted`, and the dependent thread if there is one; every step is one the transition system allows |
| `MainLoop.PollTaskSchedulerThread.AwaitDependentRound` | mrf-center/src/main/java/com/nali/mrfcenter/poll/PollTaskSchedulerThread.java:184-196 | the wait on hasExecutedOnce ends with it true, whatever the others do |
| `MainLoop.PollTaskSchedulerThread.AwaitUnpausedOrHalted` | mrf-center/src/main/java/com/nali/mrfcenter/poll/PollTaskSchedulerThread.java:201-210 | the wait while paused and not halted ends with either gone |
| `MainLoop.PollTaskSchedulerThread.AwaitAvailableWorker` | mrf-center/src/main/java/com/nali/mrfcenter/poll/SimpleThreadPool.java:443-455 | the wait for a worker ends with one free or the pool closed |
| `MainLoop.PollTaskSchedulerThread.PassPause` | mrf-center/src/main/java/com/nali/mrfcenter/poll/PollTaskSchedulerThread.java:200-216 | past the pause, or dead after a halt |
| `MainLoop.PollTaskSchedulerThread.PassPool` | mrf-center/src/main/java/com/nali/mrfcenter/poll/PollTaskSchedulerThread.java:220-221 | to the task if the number of free workers is positive, back to the test otherwise |
| `MainLoop.PollTaskSchedulerThread.ExecuteTask` | mrf-center/src/main/java/com/nali/mrfcenter/poll/PollTaskSchedulerThread.java:222-286 | every outcome of constructing leads back to the test of the loop |
| `MainLoop.PollTaskSchedulerThread.RunUnlessHalted` | mrf-center/src/main/java/com/nali/mrfcenter/poll/PollTaskSchedulerThread.java:238-253 | from the test of the flag to the signal, through runInThread only where the transition system allows it |
| `Pagination.NumPagesIsLeast` | mrf-center/src/main/webapp/js/jquery.pagination.js:30-32 | the number of pages is the least with room for all entries |
| `Pagination.WindowWidth` | mrf-center/src/main/webapp/js/jquery.pagination.js:39-46 | the window lies inside the pages and is at most one wider than asked for |
| `Pagination.WindowExactly` | mrf-center/src/main/webapp/js/jquery.pagination.js:39-46 | the window is the first pages, the last pages, or centred on the current page, and then one wider for an odd width |
| `Pagination.CurrentInWindowExactly` | mrf-center/src/main/webapp/js/jquery.pagination.js:39-46 | the current page is in the window exactly if the width is at least 2, or 1 and the page is not page 1 |
| `Pagination.ShownExactly` | mrf-center/src/main/webapp/js/jquery.pagination.js:98-123 | which pages get a link: edges and window, an edge ending where the window has passed it |
| `Pagination.ShownIncreases` | mrf-center/src/main/webapp/js/jquery.pagination.js:98-123 | the links are strictly increasing |
| `Pagination.EllipsisExactly` | mrf-center/src/main/webapp/js/jquery.pagination.js:98-123 | with edge entries and a text, ellipses stand exactly at the gaps, exactly unless an empty window meets two gaps, a leading or a trailing one |
| `Pagination.NoEllipsis` | mrf-center/src/main/webapp/js/jquery.pagination.js:98-123 | otherwise there are none |
| `Pagination.Panel.DrawLinks` | mrf-center/src/main/webapp/js/jquery.pagination.js:70-128 | the three loops draw the previous link, the numbers and the next link as specified |
| `Pagination.ItemsLead` | mrf-center/src/main/webapp/js/jquery.pagination.js:78-127 | the previous link leads one page back and the next link one page on, as far as there is such a page, and a number to its page |
| `Pagination.Panel.Click` | mrf-center/src/main/webapp/js/jquery.pagination.js:54-92 | a click on the previous or next link does what going back or on does, and on a number goes to its page |
| `Pagination.Panel.PrevPage` | mrf-center/src/main/webapp/js/jquery.pagination.js:139-147 | goes back one page and redraws exactly if there is one |
| `Pagination.Panel.NextPage` | mrf-center/src/main/webapp/js/jquery.pagination.js:148-156 | goes on one page and redraws exactly if there is one |

## Left out

Contracts stated for less than the code does:

- SortOrder.Compare: does not model the `sourceIndex` shortcut and the browser's own `compareDocumentPosition`.
- UniqueSort.Sizzle.UniqueSort: lists on which the comparator contradicts itself (`UniqueSort.SortableExactly` says which); for those the standard leaves the outcome of the sort to the engine. The engine's sort is any decision tree over comparisons that sorts correctly.
- UniqueSort.Sizzle.SortResults: the same lists.
- Relative.Page.ChildStep: an entry without a parent is a TypeError for a tag; for a filter it leaves a null in the array, at which later loops stop. Elements of an attached tree have parents.
- Relative.Page.Step: the same entries, under the child combinator.
- Narrowing.Narrow: parts are already split and simple selectors are predicates; `Sizzle.find`, the ID shortcut of the context and `posProcess` are not part of the model, and the tree is fixed during the run.
- Narrowing.GreedyIsMeaning: attached documents only, as no root is an element; a detached element's missing parent is a TypeError in the code.
- Filter.Filter: filters that answer null, positional filters and filters whose preFilter says `true` are not modelled; a negated `:not` list is a list of tests.
- NthChild.Children.NthChild: `a` and `b` are integers; formulas that parse to NaN match nothing.
- Deferred.RunInv: one deferred at a time; other deferreds of the page are user code on its call stack. `then`, `always`, `pipe` and `promise` are compositions of the modelled calls.
- DataCache.Data.Perform: keys as `jQuery.camelCase` leaves them, other than "events", "toJSON", the expando and the empty string; only nodes, with `deleteExpando`; objects returned by `data` are not changed behind its back.
- DataCache.Data.CleanData: the event listeners that cleanData takes off as well.
- EventHandlers.Element.Add: event types with names every JavaScript object inherits, for which `handlers.push` fails; a types string is its list of pieces, so that one with two blanks in a row, at which the loops stop, is the list up to there, and one that starts with a blank is not modelled; pieces with an empty namespace, such as "click.".
- EventHandlers.Element.Remove: special events, and the empty private object that a look at `_data` may create.
- Prefilters.Inspector.InspectPrefiltersOrTransports: `options.dataTypes` changed by a prefilter itself, lists that change during the run, and type names that are property names of every object.
- RetryTables.MRFMessageProcessService.DoIntervalMessageRetry: Java's 64-bit overflow of the time; time stamps other than `next_exec_at`.
- RetryProtocol.DisjointOnEveryRun: a batch is any set of rows checked out at the time of the query, however long they have been out; the SQL of the threshold is not modelled.
- RetryProtocol.OneBatchInside: interrupts are counted by `PermitsConserved` and excluded here, as one of them is enough to break it.
- PollTasks.WaitUntilAppropriateToExecute: a finite list of clock readings, on which the wait ends; whether the clock goes on is not.
- SchedulerThreads.InvStep: `halt`, `togglePause`, `signalHasExecutedOnce`, `initialize`, `start` and `shutDown` are steps on one shared value, not methods of objects, as their threads interleave; the reporting field `schedulerThreadState` is not modelled.
- SchedulerThreads.ShutDownReturnsExactly: whether a run that can lead to the return does; that is up to the threads and their tasks.
- SchedulerThreads.NoSubmitAfterClose: errors that are not RuntimeException end a thread without a halt; shutDown is called once, after initialize.

Not modelled:

- Liveness and deadlock freedom of threads, semaphore and pools, apart from the results above on shutdown, house-keeping and `remove`; a worker of SimpleThreadPool that is shut down between taking a task and starting it.
- RabbitMQ, Spring, iBATIS, SQL and the thrift interface: queues, maps and a source of fresh ids; `IBatisDAO` transactions are taken as atomic.
- Tokenising of selectors by regular expressions, `querySelectorAll`, `matchesSelector`, `jQuery.support`, CSS, animation, DOM manipulation and XHR.
- Configuration, domain getters, result objects, logging, `MonitorThread`, `ConsoleRunner`.
- Callbacks and texts of pagination links, and what a click handler returns; options that are not integers.
