# DataTableTagHelper (WalkingTec.Mvvm, LayUI) in Dafny

This project models the server-side core of the WalkingTec.Mvvm LayUI data
table tag helper (`<wt:grid>`). When a page is rendered, the tag helper
turns a list view model into the options of a client-side LayUI table.
The model covers its three computations:

- **Header layout** (`HeaderLayout`). The view model's tree of grid columns
  is flattened into the rows of a LayUI header matrix. One row is built per
  tree level.
  - A group cell's `colspan` is the number of leaf columns under it.
  - A leaf cell's `rowspan` reaches down to the last header row.
  - The first row starts with the optional checkbox and row-number cells,
    which span every row.
  - Root columns of the Space type and the Action type become a spacer and
    the row-action toolbar.
- **Action synthesis** (`GridActions`). Each permitted grid action makes
  an optional row button, an optional toolbar button and one `case` of the
  table's event handler. The generated script is modelled by what it does
  in the browser:
  - the `&id=` / `&Ids=` suffix it adds to the action URL;
  - the notices it shows when the selection does not suit the action;
  - whether the ids are posted;
  - the final call: a custom function, a dialog, a download or a
    background request.
- **Configuration defaulting** (`TableConfig`, `TagHelper`):
  - the page size and the page-size choices;
  - the data source: a URL and/or inline data;
  - the height option, fixed or `full-N`;
  - the cached table id, the table's JavaScript variable name and the
    toolbar template id.

`TagHelper.DataTableTagHelper` is a class holding the tag helper's
properties. Its getters and `Process` update those properties in place, as
the C# does. `Process` returns the options it would serialise. The three
loops of the source are imperative methods proved against specification
functions:

- the child-row loop `HeaderLayout.CalcChildCol` against `HeaderLayout.ChildRows`;
- the root-column loop `HeaderLayout.AddRootCells` against `HeaderLayout.RootRow`
  and `HeaderLayout.NextLevel`, with `HeaderLayout.BuildHeader` assembling
  `HeaderLayout.Header` from both;
- `GridActions.BuildActions` against `RowButtons` / `ToolbarButtons` / `EventCases`.

The properties are lemmas about those functions.

The column interface's `ChildrenLength` and the view model's
`ChildrenDepth` belong to the framework's core library, which is not part
of this model. They are defined here by what the header layout needs from
them:

- `ChildrenLength` is the number of leaf columns under a column, which is 1
  for a leaf.
- `ChildrenDepth` is the depth of the column forest, and at least 1.

A `null` list of children is the empty sequence. A grid action's `Area` is
an `Option`: `None` is a `null` area, because the download test compares the
area with `string.Empty`, which a `null` area fails. Every other `null` or
empty string is `""`. The code tests such strings with `IsNullOrEmpty`,
concatenates them, or compares them (`==`, `switch`, `Contains`) only with
nonempty constants, and a `null` and `""` behave alike in all of these. The
one exception is the action URL that is passed to `IsAccessable`, whose
result for a `null` URL may differ from its result for `""`. The model's
`isAccessible` predicate cannot tell the two apart.

Consequences of the code that are easy to miss:

- A leaf in header row r always gets `rowspan` = maxDepth − r when the header
  has more than one row. Leaves of the second row of a two-row header
  therefore carry `rowspan: 1` rather than no span (`HeaderLayout.InfoStatusExample`).
  The root row uses `maxDepth` and the child rows use `maxDepth - depth`.
  Both are the same formula, with the root row at depth 0
  (`HeaderLayout.HeaderCell`).
- A custom `OnClickFunc` replaces only the final call. The selection checks
  of the action's parameter shape still run first (`GridActions.DispatchMeaning`).
- With `UseLocalData` and a caller-supplied `Url`, both the URL and the
  inline data are emitted (`TableConfig.DataSourceOf`).
- Delete, Edit and Details read the clicked row's id without a guard.
  Fired from the toolbar, where there is no row, that read is a script
  error. It is modelled as the `ScriptFault` outcome.
- A `RemoveRow` action fired from the toolbar runs an empty case.
- Child header rows do not apply the Space/Action switch of the root row.
- An empty, caller-supplied `Limits` array is emitted as the default choices.
- The framework's export action with a `null` area shares its event key with
  the empty-area export but is sent as a background request, not downloaded
  (`GridActions.NullAreaExport`).

## Model

| member | source | states |
|---|---|---|
| HeaderLayout.ChildCell | src/WalkingTec.Mvvm.TagHelpers.LayUI/DataTableTagHelper.cs:343-361 | a nested cell copies its column's attributes and has no type or toolbar; it has a colspan (at least 1) iff the column is a group, and a rowspan iff it is a leaf of a multi-row header, reaching exactly the last header row |
| HeaderLayout.RootCell | src/WalkingTec.Mvvm.TagHelpers.LayUI/DataTableTagHelper.cs:478-507 | a root cell copies its column's attributes; it is a spacer iff the column is of the Space type and points at the row-button template `#` + the toolbar id iff of the Action type; it has a colspan (at least 1) iff the column is a group, and a rowspan of the whole header depth iff it is a leaf of a multi-row header |
| HeaderLayout.CalcChildCol | src/WalkingTec.Mvvm.TagHelpers.LayUI/DataTableTagHelper.cs:335-370 | appends one header row per remaining tree level (cells of `rawCols`, then their children, level by level) to the accumulated rows; the result is the old rows followed by exactly `ChildRows(rawCols, maxDepth, depth)` |
| HeaderLayout.AddRootCells | src/WalkingTec.Mvvm.TagHelpers.LayUI/DataTableTagHelper.cs:476-511 | the root-column loop appends exactly the root cells (`RootRow`) to row 0 and collects exactly the next level (the children of the group columns, in order) |
| HeaderLayout.BuildHeader | src/WalkingTec.Mvvm.TagHelpers.LayUI/DataTableTagHelper.cs:448-515 | the header region of `Process` yields exactly `Header(...)`: the prefix cells and root cells in row 0, then the child rows from depth 1 |
| HeaderLayout.Levels | src/WalkingTec.Mvvm.TagHelpers.LayUI/DataTableTagHelper.cs:363-368 | the levels of a forest start with the forest itself and are never empty |
| HeaderLayout.LevelsLength | src/WalkingTec.Mvvm.TagHelpers.LayUI/DataTableTagHelper.cs:366-369 | a nonempty forest has exactly as many levels as it is deep, so the recursion stops after the deepest level |
| HeaderLayout.LevelsNext | src/WalkingTec.Mvvm.TagHelpers.LayUI/DataTableTagHelper.cs:363-368 | each level is the children of the groups of the level above, in order; the last level has no group |
| HeaderLayout.NextLevelDepth | src/WalkingTec.Mvvm.TagHelpers.LayUI/DataTableTagHelper.cs:363-368 | the next level of a nonempty forest is exactly one level shallower (the recursion's measure) |
| HeaderLayout.LevelDepthBound | src/WalkingTec.Mvvm.TagHelpers.LayUI/DataTableTagHelper.cs:358-361 | a column on level r has depth at most forest depth − r, so a leaf's span down to the last row never overshoots |
| HeaderLayout.ChildRowsLength | src/WalkingTec.Mvvm.TagHelpers.LayUI/DataTableTagHelper.cs:335-370 | the child rows number exactly the levels of the forest they start from |
| HeaderLayout.ChildRowsRow | src/WalkingTec.Mvvm.TagHelpers.LayUI/DataTableTagHelper.cs:335-370 | child row r holds the cells of level r at depth `depth + r` |
| HeaderLayout.HeaderShape | src/WalkingTec.Mvvm.TagHelpers.LayUI/DataTableTagHelper.cs:448-515 | the header has one row per level of the column forest, i.e. `ChildrenDepth` rows, and row 0 is the prefix followed by the root cells |
| HeaderLayout.HeaderRow | src/WalkingTec.Mvvm.TagHelpers.LayUI/DataTableTagHelper.cs:512-515 | header row r ≥ 1 is the child-cell row of level r at depth r |
| HeaderLayout.HeaderCell | src/WalkingTec.Mvvm.TagHelpers.LayUI/DataTableTagHelper.cs:343-361 | every column cell copies its column's attributes; a group spans its leaf count; a leaf on row r spans rows r .. last (`rowspan = maxDepth - r`) in a multi-row header and has no span otherwise; child cells carry no type and no toolbar |
| HeaderLayout.RowZero | src/WalkingTec.Mvvm.TagHelpers.LayUI/DataTableTagHelper.cs:455-511 | row 0 holds the checkbox cell (with `LAY_CHECKED`) iff the checkbox is shown, the numbers cell iff the index is shown, both spanning all rows, then one root cell per root column with the Space/Action switch |
| HeaderLayout.SingleRowHeader | src/WalkingTec.Mvvm.TagHelpers.LayUI/DataTableTagHelper.cs:500-507 | a header of depth 1 is one row and no root cell carries a span |
| HeaderLayout.AllNodesNextLevel | src/WalkingTec.Mvvm.TagHelpers.LayUI/DataTableTagHelper.cs:509-510 | the columns of a forest are its roots plus the columns of its next level, as multisets |
| HeaderLayout.LevelsCoverNodes | src/WalkingTec.Mvvm.TagHelpers.LayUI/DataTableTagHelper.cs:335-370 | all header rows together hold each column of the tree exactly once (multiset equality with the pre-order of the tree) |
| HeaderLayout.CellRowWidth | src/WalkingTec.Mvvm.TagHelpers.LayUI/DataTableTagHelper.cs:354-357 | the colspans of a row of child cells add up to the leaf count of its columns |
| HeaderLayout.RootRowWidth | src/WalkingTec.Mvvm.TagHelpers.LayUI/DataTableTagHelper.cs:500-503 | the colspans of the root cells add up to the number of data columns |
| HeaderLayout.LeafCountNextLevel | src/WalkingTec.Mvvm.TagHelpers.LayUI/DataTableTagHelper.cs:354-364 | a forest's leaves are its leaf roots plus the leaves of its next level |
| HeaderLayout.LevelWidth | src/WalkingTec.Mvvm.TagHelpers.LayUI/DataTableTagHelper.cs:358-368 | leaves ending on the levels above level r plus the leaves below level r are all the leaves of the forest |
| HeaderLayout.HeaderRowWidth | src/WalkingTec.Mvvm.TagHelpers.LayUI/DataTableTagHelper.cs:448-515 | every header row, together with the leaf cells above it that span down through it, is exactly as wide as the number of data columns |
| HeaderLayout.InfoStatusExample | src/WalkingTec.Mvvm.TagHelpers.LayUI/DataTableTagHelper.cs:448-515 | a group "Info" over Name and Age next to a leaf Status yields two rows: Info with colspan 2, Status with rowspan 2, then Name and Age with rowspan 1 |
| HeaderLayout.ChildrenLength | src/WalkingTec.Mvvm.TagHelpers.LayUI/DataTableTagHelper.cs:356 | a column covers at least one data column |
| GridActions.InvocationOf | src/WalkingTec.Mvvm.TagHelpers.LayUI/DataTableTagHelper.cs:662-670 | the final call in priority order: custom function `OnClickFunc` iff it is set; else a dialog with the action's title, width and height iff `ShowDialog`; else download iff the framework export with an empty (not `null`) `Area`; else background request |
| GridActions.ToolbarIcon | src/WalkingTec.Mvvm.TagHelpers.LayUI/DataTableTagHelper.cs:551-574 | a toolbar button has an icon iff its action name is one of Create, Delete, BatchDelete, Edit, BatchEdit, Details, Import, GetExportExcel |
| GridActions.RequestUrl | src/WalkingTec.Mvvm.TagHelpers.LayUI/DataTableTagHelper.cs:577-581 | the case's URL starts with the action's URL; it is that URL for every action but the framework export, whose URL is followed by `&_DONOT_USE_VMNAME=` and the view-model name |
| GridActions.SelectionRuleOf | src/WalkingTec.Mvvm.TagHelpers.LayUI/DataTableTagHelper.cs:583-643 | Delete, Edit and Details take the clicked row's id whatever their parameter type; the ids go into the query (`&Ids=`) exactly for a MultiIdWithNull export |
| GridActions.Resolve | src/WalkingTec.Mvvm.TagHelpers.LayUI/DataTableTagHelper.cs:583-643 | the selection script faults exactly for Delete/Edit/Details without a row; a rejection shows one of the three notices; NoId and MultiIdWithNull never reject; the ids are posted exactly for MultiIdWithNull off the export and for MultiIds with a selection, and they are the selection; a clicked row wins for the single-id shapes |
| GridActions.CaseBodyOf | src/WalkingTec.Mvvm.TagHelpers.LayUI/DataTableTagHelper.cs:646-670 | the case adds a row exactly for AddRow and is empty exactly for RemoveRow, whatever the action's name or invocation |
| GridActions.Invoke | src/WalkingTec.Mvvm.TagHelpers.LayUI/DataTableTagHelper.cs:662-670 | each invocation leads to its own outcome and no other (callback to a call of that same function, dialog to a dialog with its title, width and height, download to a download, background request to a request); a dialog or request uses the built URL and carries the posted ids, a download uses the built URL and posts nothing |
| GridActions.Run | src/WalkingTec.Mvvm.TagHelpers.LayUI/DataTableTagHelper.cs:646-673 | no case removes a row; a row is added exactly by an AddRow case; a RemoveRow case does nothing; a notice or script error is raised exactly when a dispatching case's selection script does not resolve |
| GridActions.NullAreaExport | src/WalkingTec.Mvvm.TagHelpers.LayUI/DataTableTagHelper.cs:646-667 | a null and an empty area give the export the same event key, yet only the empty area makes it a download; with a null area it is a background request |
| GridActions.ToolbarClickRunsAction | src/WalkingTec.Mvvm.TagHelpers.LayUI/DataTableTagHelper.cs:575-673 | the toolbar button of a rendered action not hidden from the toolbar is emitted, and clicking it runs that action's case without a row, unless an earlier rendered action shares its key |
| GridActions.RowClickRunsAction | src/WalkingTec.Mvvm.TagHelpers.LayUI/DataTableTagHelper.cs:535-673 | the row button of a rendered action shown in rows is emitted; clicking it removes the row for RemoveRow and otherwise runs that action's case with the row, unless an earlier rendered action shares its key |
| GridActions.BuildActions | src/WalkingTec.Mvvm.TagHelpers.LayUI/DataTableTagHelper.cs:521-677 | one pass over the actions yields exactly the row buttons, toolbar buttons and handler cases of the permitted actions |
| GridActions.PermittedActionsMembers | src/WalkingTec.Mvvm.TagHelpers.LayUI/DataTableTagHelper.cs:532 | an action is rendered iff it is in the list and its URL is accessible or it adds or removes a row |
| GridActions.RowEditingAlwaysRendered | src/WalkingTec.Mvvm.TagHelpers.LayUI/DataTableTagHelper.cs:532 | an AddRow or RemoveRow action is rendered whatever the access check says |
| GridActions.EventCasesOfPermitted | src/WalkingTec.Mvvm.TagHelpers.LayUI/DataTableTagHelper.cs:646-673 | the handler has one case per rendered action, in order, keyed by Area+Controller+Action+QueryString, with that action's body |
| GridActions.RowButtonsMembers | src/WalkingTec.Mvvm.TagHelpers.LayUI/DataTableTagHelper.cs:535-546 | a row button exists iff some rendered action is shown in rows; it is the remove-row button for RemoveRow and an event button with the action's key otherwise |
| GridActions.RowButtonsInOrder | src/WalkingTec.Mvvm.TagHelpers.LayUI/DataTableTagHelper.cs:530-546 | the row buttons are exactly one per rendered action shown in rows, in action order |
| GridActions.ToolbarButtonsInOrder | src/WalkingTec.Mvvm.TagHelpers.LayUI/DataTableTagHelper.cs:530-576 | the toolbar buttons are exactly one per rendered action not hidden from the toolbar, in action order |
| GridActions.ToolbarButtonsMembers | src/WalkingTec.Mvvm.TagHelpers.LayUI/DataTableTagHelper.cs:549-576 | a toolbar button exists iff some rendered action is not hidden from the toolbar; it carries the action's key, icon and name |
| GridActions.HandleEventFirstMatch | src/WalkingTec.Mvvm.TagHelpers.LayUI/DataTableTagHelper.cs:646-647 | the handler's `switch` runs the first case with the fired key |
| GridActions.HandleEventNoMatch | src/WalkingTec.Mvvm.TagHelpers.LayUI/DataTableTagHelper.cs:646-647 | a key no case carries does nothing |
| GridActions.HandlerRunsAction | src/WalkingTec.Mvvm.TagHelpers.LayUI/DataTableTagHelper.cs:646-673 | firing a rendered action's key runs that action's case unless an earlier rendered action shares the key |
| GridActions.HandlerIgnoresUnknownKey | src/WalkingTec.Mvvm.TagHelpers.LayUI/DataTableTagHelper.cs:646-673 | firing a key of no rendered action does nothing |
| GridActions.JoinIdsQuery | src/WalkingTec.Mvvm.TagHelpers.LayUI/DataTableTagHelper.cs:639 | `'&Ids=' + ids.join('&Ids=')` puts each selected id in its own `Ids` query parameter |
| GridActions.DispatchMeaning | src/WalkingTec.Mvvm.TagHelpers.LayUI/DataTableTagHelper.cs:577-670 | a dispatching case rejects an unsuitable selection (the matching notice, or a script fault for Delete/Edit/Details without a row) and otherwise invokes its call on the action URL (export URL extended by the VM name) plus the id query of the target ids, posting the ids exactly for MultiIds and non-export MultiIdWithNull |
| GridActions.NoInvocationWithoutSelection | src/WalkingTec.Mvvm.TagHelpers.LayUI/DataTableTagHelper.cs:583-635 | the call is reached only when the selection suits the action; the single-id shapes then send exactly one id, SingleIdWithNull at most one |
| GridActions.RowEditingCases | src/WalkingTec.Mvvm.TagHelpers.LayUI/DataTableTagHelper.cs:648-656 | an AddRow case adds a row and a RemoveRow case does nothing, whatever the row and selection |
| GridActions.ToolbarIcons | src/WalkingTec.Mvvm.TagHelpers.LayUI/DataTableTagHelper.cs:551-574 | exactly the eight standard action names get an icon; batch variants share the single-item glyphs; the six glyphs are distinct |
| TableConfig.InsertSortedSpec | src/WalkingTec.Mvvm.TagHelpers.LayUI/DataTableTagHelper.cs:397 | inserting into a sorted list keeps it sorted and adds exactly the one element |
| TableConfig.OrderBySpec | src/WalkingTec.Mvvm.TagHelpers.LayUI/DataTableTagHelper.cs:397 | `OrderBy(x => x)` yields a sorted permutation of its input |
| TableConfig.OrderBySorted | src/WalkingTec.Mvvm.TagHelpers.LayUI/DataTableTagHelper.cs:397 | sorting an already sorted list leaves it unchanged |
| TableConfig.InsertStrict | src/WalkingTec.Mvvm.TagHelpers.LayUI/DataTableTagHelper.cs:393-397 | inserting a missing value into a strictly increasing list keeps it strictly increasing |
| TableConfig.DefaultedLimitsChoices | src/WalkingTec.Mvvm.TagHelpers.LayUI/DataTableTagHelper.cs:390-399 | the defaulted page-size choices are strictly increasing, contain the page size, and hold exactly the defaults 10..200 and the page size |
| TableConfig.DataSourceOf | src/WalkingTec.Mvvm.TagHelpers.LayUI/DataTableTagHelper.cs:402-410 | the table always has a source; inline data iff `UseLocalData`; with local data the URL is the caller's if set and absent otherwise; without local data the URL is the caller's or `/_Framework/GetPagingData`; both a URL and inline data iff local data is used with a caller URL |
| TableConfig.EmittedLimits | src/WalkingTec.Mvvm.TagHelpers.LayUI/DataTableTagHelper.cs:711-713 | the `limits` option is emitted iff paging, is then never empty, and is the caller's list whenever that list is set and nonempty |
| TableConfig.EmittedPagingOptions | src/WalkingTec.Mvvm.TagHelpers.LayUI/DataTableTagHelper.cs:386-399 | after the paging defaults, a paged table's `limit` is the caller's page size or the configured rows per page (in the model, whose rows per page is always configured, the `?? 50` fallback of line 710 is never reached) and its choices are nonempty, contain the page size and strictly increase when defaulted, and are the caller's when given; an unpaged table has no choices and a `limit` of the inline entity count or 0 |
| TableConfig.HeightOption | src/WalkingTec.Mvvm.TagHelpers.LayUI/DataTableTagHelper.cs:715 | the `height` option is written iff `Height` is set |
| TableConfig.EncodeHeight | src/WalkingTec.Mvvm.TagHelpers.LayUI/DataTableTagHelper.cs:715 | the emitted height setting decodes back to `Height`; a negative height becomes full-minus a positive gap |
| TableConfig.ParseNatToString | src/WalkingTec.Mvvm.TagHelpers.LayUI/DataTableTagHelper.cs:715 | the decimal text of a number reads back as that number |
| TableConfig.HeightOptionText | src/WalkingTec.Mvvm.TagHelpers.LayUI/DataTableTagHelper.cs:715 | the height text is nothing when unset, the decimal pixel count when non-negative, and `'full-N'` with N the gap when negative |
| TableConfig.DerivedIdentifiers | src/WalkingTec.Mvvm.TagHelpers.LayUI/DataTableTagHelper.cs:82-90 | the generated table id, variable name and toolbar id are nonempty, pairwise distinct, and distinct across view models with different unique ids |
| TagHelper.DataTableTagHelper.SetId | src/WalkingTec.Mvvm.TagHelpers.LayUI/DataTableTagHelper.cs:131-135 | setting `Id` sets both the id and the user-set id |
| TagHelper.DataTableTagHelper.GetId | src/WalkingTec.Mvvm.TagHelpers.LayUI/DataTableTagHelper.cs:113-130 | the id is the cached id if any, else the user-set id, else `wtTable_` + UniqueId; it is cached and never empty |
| TagHelper.DataTableTagHelper.GetTableJSVar | src/WalkingTec.Mvvm.TagHelpers.LayUI/DataTableTagHelper.cs:158-172 | the variable name is the cached name if any, else `wtVar_` + (user-set id or UniqueId); it is cached and never empty |
| TagHelper.DataTableTagHelper.ApplyPagingDefaults | src/WalkingTec.Mvvm.TagHelpers.LayUI/DataTableTagHelper.cs:386-399 | an unset page size becomes the configured rows per page; unset choices become `DefaultedLimits` of the page size; set values are kept |
| TagHelper.DataTableTagHelper.Configure | src/WalkingTec.Mvvm.TagHelpers.LayUI/DataTableTagHelper.cs:382-413 | the id is read (and cached); the paging defaults are applied; without local data an empty `Url` becomes `/_Framework/GetPagingData`; the emitted source, limit and choices follow from the new state |
| TagHelper.DataTableTagHelper.Process | src/WalkingTec.Mvvm.TagHelpers.LayUI/DataTableTagHelper.cs:371-715 | the new state is the cached id and variable name, the defaulted page size and choices and the defaulted URL; the emitted options are the id, the data source, `page` = the view model's NeedPage read before local data clears it, the limit (`?? 50` when paging, else the entity count or 0), the choices (defaults for a missing or empty list, none without paging), the height, the header matrix and the action output |

## Left out

- `DisplayTagHelper` and the rest of the tag-helper library are not part of this model.
- The HTML and JavaScript text itself: markup, escaping, JSON serialisation of the options, the `request`/`response` maps, `loading`, `method`, `even`, `skin`, `size`, `width`, `initSort`. The model states the structure the text encodes.
- Reflection on the view model: `AssemblyQualifiedName` trimming and `VMType`. The qualified VM name is a parameter.
- `Guid.NewGuid()` dialog ids and the title id. They are random and not part of any contract.
- The `Filter` dictionary, the searcher's query parameters, `SearcherMode`, `Ids`, `SearchPanelId` and the row JSON of `GetSingleDataJson` / `GetDataJson`. These are view-model serialisation.
- `ff.*` client runtime functions (the dialog, the download, the request, grid-row insertion and removal) are outcomes, not modelled behaviour.
- `LoginUserInfo.IsAccessable` is the parameter `isAccessible`. A missing login user denies access, which a caller models by passing a predicate that returns false.
- The configured rows per page is a parameter, and the model assumes it is configured. A `null` `Configs` leaves `Limit` unset. If `Limits` is unset too, `Limit.Value` at line 393 throws. Otherwise line 710 emits the fallback of 50. Neither path is modelled.
- Cycles in the column tree cannot occur, because datatypes are acyclic. The shared `List` accumulator of `CalcChildCol` is threaded through as a value, so aliasing of the list is not modelled.
- The `ListVM.NeedPage = false` side effect on the view model is not modelled. Only the value of `page` read before it is.
- A row handed to a row button is assumed to carry an id.
- `HeaderLayout.ChildrenLength`: defined as the leaf count, because the framework's `ChildrenLength` is not part of this model.
