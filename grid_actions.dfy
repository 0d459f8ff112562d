/**
  Action synthesis of the LayUI data-table tag helper.

  Every grid action of the list view model may give a button inside each row,
  a button on the toolbar above the grid, and one `case` of the client-side
  event handler. The case first resolves which entity ids the action works on
  (from the clicked row or from the rows checked in the grid), rejects a
  selection of the wrong size with a notice, appends the ids to the request
  URL or marks them to be posted, and finally performs one invocation: a
  custom callback, a dialog, an Excel download or a background request.

  The generated script text is not modelled character by character; `Run`
  gives the meaning of one generated case as a function of the clicked row
  and the current selection.
*/
module GridActions {
  import opened Common

  datatype ParameterType = NoId | SingleId | MultiIds | SingleIdWithNull | MultiIdWithNull | AddRow | RemoveRow

  /** A grid action as the list view model describes it. `area` is `None`
      for a null area, which only the download test tells apart from an empty
      one. An empty string stands for a null or empty value in every other
      field, whose uses do not tell the two apart. */
  datatype GridAction = GridAction(
    name: string,
    area: Option<string>,
    controllerName: string,
    actionName: string,
    queryString: string,
    url: string,
    parameterType: ParameterType,
    showInRow: bool,
    hideOnToolBar: bool,
    showDialog: bool,
    dialogTitle: string,
    dialogWidth: Option<int>,
    dialogHeight: Option<int>,
    onClickFunc: string)

  /** Action names that always take the id of the clicked row. */
  const SpecialActions: seq<string> := ["Delete", "Edit", "Details"]

  const SelectOneRow := "请选择一行"
  const AtMostOneRow := "最多只能选择一行"
  const AtLeastOneRow := "请至少选择一行"

  /** The key that ties an action's buttons to its case of the event handler. */
  function EventKey(a: GridAction): string {
    a.area.GetOr("") + a.controllerName + a.actionName + a.queryString
  }

  /** An action is rendered when the user may access its URL; adding and
      removing client-held rows needs no server access and is always rendered. */
  predicate Permitted(a: GridAction, isAccessible: string -> bool) {
    isAccessible(a.url) || a.parameterType == AddRow || a.parameterType == RemoveRow
  }

  predicate IsSpecial(a: GridAction) {
    a.actionName in SpecialActions
  }

  /** The framework's built-in Excel export action. */
  predicate IsExport(a: GridAction) {
    a.controllerName == "_Framework" && a.actionName == "GetExportExcel"
  }

  /** The export action of the framework itself, with an empty (not a null)
      area: it is downloaded. */
  predicate IsDownload(a: GridAction) {
    a.area == Some("") && IsExport(a)
  }

  /** The glyph of the toolbar icon for a standard action name. */
  function ToolbarIcon(actionName: string): (r: Option<string>)
    ensures r.Some? <==> actionName in ["Create", "Delete", "BatchDelete", "Edit", "BatchEdit", "Details", "Import", "GetExportExcel"]
  {
    match actionName
    case "Create" => Some("&#xe654;")
    case "Delete" => Some("&#xe640;")
    case "BatchDelete" => Some("&#xe640;")
    case "Edit" => Some("&#xe642;")
    case "BatchEdit" => Some("&#xe642;")
    case "Details" => Some("&#xe60e;")
    case "Import" => Some("&#xe630;")
    case "GetExportExcel" => Some("&#xe62d;")
    case _ => None
  }

  /** The URL the case starts from: the export action also names the view-model type. */
  function RequestUrl(a: GridAction, vmQualifiedName: string): (u: string)
    ensures |u| >= |a.url| && u[..|a.url|] == a.url
    ensures !IsExport(a) ==> u == a.url
    ensures IsExport(a) ==> u[|a.url|..] == "&_DONOT_USE_VMNAME=" + vmQualifiedName
  {
    if IsExport(a) then a.url + "&_DONOT_USE_VMNAME=" + vmQualifiedName else a.url
  }

  // ---------------------------------------------------------------------------
  // The generated case of the event handler
  // ---------------------------------------------------------------------------

  /** The selection-handling script chosen for an action. */
  datatype SelectionRule =
    | RowIdOnly    // Delete, Edit, Details: `&id=` + the clicked row's id
    | NoIds        // no id at all
    | OneId        // SingleId
    | SomeIds      // MultiIds
    | AtMostOneId  // SingleIdWithNull
    | IdsInQuery   // MultiIdWithNull on the export action
    | AnyIdsPosted // MultiIdWithNull on any other action

  /** Delete, Edit and Details always take the clicked row, whatever their
      parameter type; the ids go into the query only for the export action. */
  function SelectionRuleOf(a: GridAction): (r: SelectionRule)
    ensures r == RowIdOnly <==> IsSpecial(a)
    ensures r == IdsInQuery <==> !IsSpecial(a) && a.parameterType == MultiIdWithNull && IsExport(a)
  {
    if IsSpecial(a) then RowIdOnly
    else match a.parameterType
      case SingleId => OneId
      case MultiIds => SomeIds
      case SingleIdWithNull => AtMostOneId
      case MultiIdWithNull => if IsExport(a) then IdsInQuery else AnyIdsPosted
      case _ => NoIds
  }

  /** The final call of a case. */
  datatype Invocation =
    | CallOnClick(func: string)
    | OpenDialog(title: string, width: Option<int>, height: Option<int>)
    | DownloadExcelOrPdf
    | BgRequest

  /** The invocation, in priority order: the custom callback, else a dialog,
      else a download for the framework's export action, else a background request. */
  function InvocationOf(a: GridAction): (r: Invocation)
    ensures r.CallOnClick? <==> a.onClickFunc != ""
    ensures r.CallOnClick? ==> r.func == a.onClickFunc
    ensures r.OpenDialog? <==> a.onClickFunc == "" && a.showDialog
    ensures r.OpenDialog? ==> r == OpenDialog(a.dialogTitle, a.dialogWidth, a.dialogHeight)
    ensures r.DownloadExcelOrPdf? <==> a.onClickFunc == "" && !a.showDialog && IsDownload(a)
    ensures r.BgRequest? <==> a.onClickFunc == "" && !a.showDialog && !IsDownload(a)
  {
    if a.onClickFunc != "" then CallOnClick(a.onClickFunc)
    else if a.showDialog then OpenDialog(a.dialogTitle, a.dialogWidth, a.dialogHeight)
    else if IsDownload(a) then DownloadExcelOrPdf
    else BgRequest
  }

  datatype CaseBody =
    | AddGridRow                 // insert an empty row into the client-held data
    | EmptyCase                  // RemoveRow: the row button removes the row itself
    | Dispatch(url: string, rule: SelectionRule, invocation: Invocation)

  /** The case of an action: adding a row and removing one are decided by the
      parameter type alone, before the action name or the invocation. */
  function CaseBodyOf(a: GridAction, vmQualifiedName: string): (b: CaseBody)
    ensures b.AddGridRow? <==> a.parameterType == AddRow
    ensures b.EmptyCase? <==> a.parameterType == RemoveRow
  {
    if a.parameterType == AddRow then AddGridRow
    else if a.parameterType == RemoveRow then EmptyCase
    else Dispatch(RequestUrl(a, vmQualifiedName), SelectionRuleOf(a), InvocationOf(a))
  }

  datatype EventCase = EventCase(key: string, body: CaseBody)

  datatype RowButton = EventButton(key: string, name: string) | RemoveRowButton(name: string)

  datatype ToolbarButton = ToolbarButton(key: string, icon: Option<string>, name: string)

  // ---------------------------------------------------------------------------
  // Meaning of a generated case in the browser
  // ---------------------------------------------------------------------------

  /** What clicking a button leads to. `ScriptFault` is the script error raised
      by reading the id of a row that is not there. */
  datatype Outcome =
    | Notice(message: string)
    | ScriptFault
    | CalledFunction(func: string)
    | DialogOpened(url: string, title: string, width: Option<int>, height: Option<int>, posted: Option<seq<string>>)
    | Downloaded(url: string)
    | Requested(url: string, posted: Option<seq<string>>)
    | RowAdded
    | RowRemoved
    | Nothing

  /** The result of the selection script: the suffix for the URL and, when
      the request is a POST, the ids it carries. */
  datatype Resolution = Rejected(message: string) | Faulted | Resolved(suffix: string, posted: Option<seq<string>>)

  /** `ids.join(sep)` */
  function Join(ids: seq<string>, sep: string): string {
    if |ids| == 0 then "" else if |ids| == 1 then ids[0] else ids[0] + sep + Join(ids[1..], sep)
  }

  /** `row` is the id of the clicked row (`None` when the toolbar was used);
      `selection` the ids of the rows checked in the grid. */
  function Resolve(rule: SelectionRule, row: Option<string>, selection: seq<string>): (res: Resolution)
    ensures res.Faulted? <==> rule == RowIdOnly && row.None?
    ensures res.Rejected? ==> res.message in [SelectOneRow, AtMostOneRow, AtLeastOneRow]
    ensures rule in [NoIds, IdsInQuery, AnyIdsPosted] ==> res.Resolved?
    ensures res.Resolved? && res.posted.Some? <==> rule == AnyIdsPosted || (rule == SomeIds && |selection| > 0)
    ensures res.Resolved? && res.posted.Some? ==> res.posted == Some(selection)
    ensures row.Some? && rule in [RowIdOnly, OneId, AtMostOneId] ==> res == Resolved("&id=" + row.value, None)
  {
    match rule
    case RowIdOnly => if row.Some? then Resolved("&id=" + row.value, None) else Faulted
    case NoIds => Resolved("", None)
    case OneId =>
      if row.Some? then Resolved("&id=" + row.value, None)
      else if |selection| == 0 then Rejected(SelectOneRow)
      else if |selection| > 1 then Rejected(AtMostOneRow)
      else Resolved("&id=" + selection[0], None)
    case SomeIds =>
      if |selection| == 0 then Rejected(AtLeastOneRow) else Resolved("", Some(selection))
    case AtMostOneId =>
      var ids := if row.Some? then [row.value] else selection;
      if |ids| > 1 then Rejected(AtMostOneRow)
      else if |ids| == 1 then Resolved("&id=" + ids[0], None)
      else Resolved("", None)
    case IdsInQuery =>
      Resolved(if |selection| > 0 then "&Ids=" + Join(selection, "&Ids=") else "", None)
    case AnyIdsPosted => Resolved("", Some(selection))
  }

  /** The final call at the built URL; only a dialog and a background request carry posted ids. */
  function Invoke(invocation: Invocation, url: string, posted: Option<seq<string>>): (o: Outcome)
    ensures o.CalledFunction? <==> invocation.CallOnClick?
    ensures o.DialogOpened? <==> invocation.OpenDialog?
    ensures o.Downloaded? <==> invocation == DownloadExcelOrPdf
    ensures o.Requested? <==> invocation == BgRequest
    ensures o.CalledFunction? ==> o.func == invocation.func
    ensures o.DialogOpened? ==> o.title == invocation.title && o.width == invocation.width && o.height == invocation.height
    ensures o.DialogOpened? ==> o.url == url && o.posted == posted
    ensures o.Requested? ==> o.url == url && o.posted == posted
    ensures o.Downloaded? ==> o.url == url
  {
    match invocation
    case CallOnClick(f) => CalledFunction(f)
    case OpenDialog(t, w, h) => DialogOpened(url, t, w, h, posted)
    case DownloadExcelOrPdf => Downloaded(url)
    case BgRequest => Requested(url, posted)
  }

  /** The meaning of one case: a row is only ever added by its own case and
      never removed by one; a notice or a script error is raised exactly when
      the selection script does not resolve. */
  function Run(body: CaseBody, row: Option<string>, selection: seq<string>): (o: Outcome)
    ensures o != RowRemoved
    ensures o == RowAdded <==> body.AddGridRow?
    ensures body.EmptyCase? ==> o == Nothing
    ensures (o.Notice? || o.ScriptFault?) <==> body.Dispatch? && !Resolve(body.rule, row, selection).Resolved?
  {
    match body
    case AddGridRow => RowAdded
    case EmptyCase => Nothing
    case Dispatch(url, rule, invocation) =>
      match Resolve(rule, row, selection)
      case Rejected(m) => Notice(m)
      case Faulted => ScriptFault
      case Resolved(suffix, posted) => Invoke(invocation, url + suffix, posted)
  }

  /** The handler's `switch`: the first case whose key matches runs. */
  function HandleEvent(cases: seq<EventCase>, key: string, row: Option<string>, selection: seq<string>): Outcome {
    if cases == [] then Nothing
    else if cases[0].key == key then Run(cases[0].body, row, selection)
    else HandleEvent(cases[1..], key, row, selection)
  }

  /** A row button passes its row to the handler; the remove button removes the row directly. */
  function ClickRowButton(b: RowButton, cases: seq<EventCase>, rowId: string, selection: seq<string>): Outcome {
    match b
    case EventButton(key, _) => HandleEvent(cases, key, Some(rowId), selection)
    case RemoveRowButton(_) => RowRemoved
  }

  /** A toolbar button calls the handler with its event key and no row. */
  function ClickToolbarButton(b: ToolbarButton, cases: seq<EventCase>, selection: seq<string>): Outcome {
    HandleEvent(cases, b.key, None, selection)
  }

  // ---------------------------------------------------------------------------
  // The generator
  // ---------------------------------------------------------------------------

  /** The row button of an action: a RemoveRow action removes its row itself. */
  function RowButtonFor(a: GridAction): RowButton {
    if a.parameterType != RemoveRow then EventButton(EventKey(a), a.name) else RemoveRowButton(a.name)
  }

  function ToolbarButtonFor(a: GridAction): ToolbarButton {
    ToolbarButton(EventKey(a), ToolbarIcon(a.actionName), a.name)
  }

  function RowButtonOf(a: GridAction, isAccessible: string -> bool): seq<RowButton> {
    if Permitted(a, isAccessible) && a.showInRow then [RowButtonFor(a)] else []
  }

  function ToolbarButtonOf(a: GridAction, isAccessible: string -> bool): seq<ToolbarButton> {
    if Permitted(a, isAccessible) && !a.hideOnToolBar then [ToolbarButtonFor(a)] else []
  }

  function EventCaseOf(a: GridAction, isAccessible: string -> bool, vmQualifiedName: string): seq<EventCase> {
    if Permitted(a, isAccessible) then [EventCase(EventKey(a), CaseBodyOf(a, vmQualifiedName))] else []
  }

  function RowButtons(actions: seq<GridAction>, isAccessible: string -> bool): seq<RowButton> {
    if actions == [] then []
    else RowButtons(actions[..|actions| - 1], isAccessible) + RowButtonOf(actions[|actions| - 1], isAccessible)
  }

  function ToolbarButtons(actions: seq<GridAction>, isAccessible: string -> bool): seq<ToolbarButton> {
    if actions == [] then []
    else ToolbarButtons(actions[..|actions| - 1], isAccessible) + ToolbarButtonOf(actions[|actions| - 1], isAccessible)
  }

  function EventCases(actions: seq<GridAction>, isAccessible: string -> bool, vmQualifiedName: string): seq<EventCase> {
    if actions == [] then []
    else EventCases(actions[..|actions| - 1], isAccessible, vmQualifiedName)
         + EventCaseOf(actions[|actions| - 1], isAccessible, vmQualifiedName)
  }

  /** The actions that are rendered, in their original order. */
  function PermittedActions(actions: seq<GridAction>, isAccessible: string -> bool): seq<GridAction> {
    if actions == [] then []
    else PermittedActions(actions[..|actions| - 1], isAccessible)
         + (if Permitted(actions[|actions| - 1], isAccessible) then [actions[|actions| - 1]] else [])
  }

  /** The action-button region of `Process`: one pass over the grid actions
      appending to the row-button, toolbar-button and event-handler builders. */
  method BuildActions(actions: seq<GridAction>, isAccessible: string -> bool, vmQualifiedName: string)
    returns (rowBtns: seq<RowButton>, toolBarBtns: seq<ToolbarButton>, cases: seq<EventCase>)
    ensures rowBtns == RowButtons(actions, isAccessible)
    ensures toolBarBtns == ToolbarButtons(actions, isAccessible)
    ensures cases == EventCases(actions, isAccessible, vmQualifiedName)
  {
    rowBtns, toolBarBtns, cases := [], [], [];
    for i := 0 to |actions|
      invariant rowBtns == RowButtons(actions[..i], isAccessible)
      invariant toolBarBtns == ToolbarButtons(actions[..i], isAccessible)
      invariant cases == EventCases(actions[..i], isAccessible, vmQualifiedName)
    {
      var item := actions[i];
      assert actions[..i + 1][..i] == actions[..i];
      if isAccessible(item.url) || item.parameterType == AddRow || item.parameterType == RemoveRow {
        var key := item.area.GetOr("") + item.controllerName + item.actionName + item.queryString;
        if item.showInRow {
          if item.parameterType != RemoveRow {
            rowBtns := rowBtns + [EventButton(key, item.name)];
          } else {
            rowBtns := rowBtns + [RemoveRowButton(item.name)];
          }
        }
        if !item.hideOnToolBar {
          toolBarBtns := toolBarBtns + [ToolbarButton(key, ToolbarIcon(item.actionName), item.name)];
        }
        var body: CaseBody;
        if item.parameterType == AddRow {
          body := AddGridRow;
        } else if item.parameterType == RemoveRow {
          body := EmptyCase;
        } else {
          body := Dispatch(RequestUrl(item, vmQualifiedName), SelectionRuleOf(item), InvocationOf(item));
        }
        cases := cases + [EventCase(key, body)];
      }
    }
    assert actions[..|actions|] == actions;
  }

  // ---------------------------------------------------------------------------
  // What the generator emits
  // ---------------------------------------------------------------------------

  /** An action is rendered exactly when it is permitted. */
  lemma {:induction false} PermittedActionsMembers(actions: seq<GridAction>, isAccessible: string -> bool, a: GridAction)
    ensures a in PermittedActions(actions, isAccessible) <==> a in actions && Permitted(a, isAccessible)
    decreases |actions|
  {
    if actions != [] {
      var init, last := actions[..|actions| - 1], actions[|actions| - 1];
      PermittedActionsMembers(init, isAccessible, a);
      assert actions == init + [last];
    }
  }

  /** Actions that add or remove client-held rows are rendered whatever the access check says. */
  lemma RowEditingAlwaysRendered(actions: seq<GridAction>, isAccessible: string -> bool, a: GridAction)
    requires a in actions && (a.parameterType == AddRow || a.parameterType == RemoveRow)
    ensures a in PermittedActions(actions, isAccessible)
  {
    PermittedActionsMembers(actions, isAccessible, a);
  }

  /** The handler holds one case per rendered action, in order, keyed by its event key. */
  lemma {:induction false} EventCasesOfPermitted(actions: seq<GridAction>, isAccessible: string -> bool, vmQualifiedName: string)
    ensures var p := PermittedActions(actions, isAccessible);
            var cases := EventCases(actions, isAccessible, vmQualifiedName);
            && |cases| == |p|
            && forall i :: 0 <= i < |p| ==> cases[i] == EventCase(EventKey(p[i]), CaseBodyOf(p[i], vmQualifiedName))
    decreases |actions|
  {
    if actions != [] {
      EventCasesOfPermitted(actions[..|actions| - 1], isAccessible, vmQualifiedName);
    }
  }

  /** A row button is emitted for exactly the rendered actions shown in rows. */
  lemma {:induction false} RowButtonsMembers(actions: seq<GridAction>, isAccessible: string -> bool, b: RowButton)
    ensures b in RowButtons(actions, isAccessible) <==>
            exists a :: a in actions && Permitted(a, isAccessible) && a.showInRow && b == RowButtonFor(a)
    decreases |actions|
  {
    if actions != [] {
      var init, last := actions[..|actions| - 1], actions[|actions| - 1];
      RowButtonsMembers(init, isAccessible, b);
      assert actions == init + [last];
      if b in RowButtons(actions, isAccessible) && b !in RowButtons(init, isAccessible) {
        assert last in actions;
      }
    }
  }

  /** The rendered actions shown in rows, in order. */
  function InRows(p: seq<GridAction>): seq<GridAction> {
    if p == [] then []
    else InRows(p[..|p| - 1]) + (if p[|p| - 1].showInRow then [p[|p| - 1]] else [])
  }

  /** The rendered actions not hidden from the toolbar, in order. */
  function OnToolbar(p: seq<GridAction>): seq<GridAction> {
    if p == [] then []
    else OnToolbar(p[..|p| - 1]) + (if !p[|p| - 1].hideOnToolBar then [p[|p| - 1]] else [])
  }

  /** The row buttons are one per rendered action shown in rows, in action order. */
  lemma {:induction false} RowButtonsInOrder(actions: seq<GridAction>, isAccessible: string -> bool)
    ensures var shown := InRows(PermittedActions(actions, isAccessible));
            var bs := RowButtons(actions, isAccessible);
            && |bs| == |shown|
            && forall i :: 0 <= i < |shown| ==> bs[i] == RowButtonFor(shown[i])
    decreases |actions|
  {
    if actions != [] {
      var init, last := actions[..|actions| - 1], actions[|actions| - 1];
      RowButtonsInOrder(init, isAccessible);
      var p := PermittedActions(init, isAccessible);
      if Permitted(last, isAccessible) {
        assert PermittedActions(actions, isAccessible) == p + [last];
        assert (p + [last])[..|p|] == p;
        if last.showInRow {
          assert InRows(p + [last]) == InRows(p) + [last];
          assert RowButtons(actions, isAccessible) == RowButtons(init, isAccessible) + [RowButtonFor(last)];
          MapSnoc(RowButtons(init, isAccessible), InRows(p), RowButtonFor, last);
        } else {
          assert InRows(p + [last]) == InRows(p);
          assert RowButtons(actions, isAccessible) == RowButtons(init, isAccessible);
        }
      } else {
        assert PermittedActions(actions, isAccessible) == p;
        assert RowButtons(actions, isAccessible) == RowButtons(init, isAccessible);
      }
    }
  }

  /** Extending a mapped sequence and its source by one element keeps it mapped. */
  lemma MapSnoc<A, B>(bs: seq<B>, xs: seq<A>, f: A -> B, x: A)
    requires |bs| == |xs| && forall i :: 0 <= i < |xs| ==> bs[i] == f(xs[i])
    ensures var bs', xs' := bs + [f(x)], xs + [x];
            |bs'| == |xs'| && forall i :: 0 <= i < |xs'| ==> bs'[i] == f(xs'[i])
  {
  }

  /** The toolbar buttons are one per rendered action not hidden from the toolbar, in action order. */
  lemma {:induction false} ToolbarButtonsInOrder(actions: seq<GridAction>, isAccessible: string -> bool)
    ensures var shown := OnToolbar(PermittedActions(actions, isAccessible));
            var bs := ToolbarButtons(actions, isAccessible);
            && |bs| == |shown|
            && forall i :: 0 <= i < |shown| ==> bs[i] == ToolbarButtonFor(shown[i])
    decreases |actions|
  {
    if actions != [] {
      var init, last := actions[..|actions| - 1], actions[|actions| - 1];
      ToolbarButtonsInOrder(init, isAccessible);
      var p := PermittedActions(init, isAccessible);
      if Permitted(last, isAccessible) {
        assert PermittedActions(actions, isAccessible) == p + [last];
        assert (p + [last])[..|p|] == p;
        if !last.hideOnToolBar {
          assert OnToolbar(p + [last]) == OnToolbar(p) + [last];
          assert ToolbarButtons(actions, isAccessible) == ToolbarButtons(init, isAccessible) + [ToolbarButtonFor(last)];
          MapSnoc(ToolbarButtons(init, isAccessible), OnToolbar(p), ToolbarButtonFor, last);
        } else {
          assert OnToolbar(p + [last]) == OnToolbar(p);
          assert ToolbarButtons(actions, isAccessible) == ToolbarButtons(init, isAccessible);
        }
      } else {
        assert PermittedActions(actions, isAccessible) == p;
        assert ToolbarButtons(actions, isAccessible) == ToolbarButtons(init, isAccessible);
      }
    }
  }

  /** A toolbar button is emitted for exactly the rendered actions not hidden from the toolbar. */
  lemma {:induction false} ToolbarButtonsMembers(actions: seq<GridAction>, isAccessible: string -> bool, b: ToolbarButton)
    ensures b in ToolbarButtons(actions, isAccessible) <==>
            exists a :: a in actions && Permitted(a, isAccessible) && !a.hideOnToolBar && b == ToolbarButtonFor(a)
    decreases |actions|
  {
    if actions != [] {
      var init, last := actions[..|actions| - 1], actions[|actions| - 1];
      ToolbarButtonsMembers(init, isAccessible, b);
      assert actions == init + [last];
      if b in ToolbarButtons(actions, isAccessible) && b !in ToolbarButtons(init, isAccessible) {
        assert last in actions;
      }
    }
  }

  /** The `switch` runs the first case carrying the key. */
  lemma {:induction false} HandleEventFirstMatch(cases: seq<EventCase>, i: nat, key: string, row: Option<string>, selection: seq<string>)
    requires i < |cases| && cases[i].key == key
    requires forall j :: 0 <= j < i ==> cases[j].key != key
    ensures HandleEvent(cases, key, row, selection) == Run(cases[i].body, row, selection)
    decreases i
  {
    if i > 0 {
      assert cases[0].key != key;
      HandleEventFirstMatch(cases[1..], i - 1, key, row, selection);
    }
  }

  /** A key no case carries does nothing. */
  lemma {:induction false} HandleEventNoMatch(cases: seq<EventCase>, key: string, row: Option<string>, selection: seq<string>)
    requires forall j :: 0 <= j < |cases| ==> cases[j].key != key
    ensures HandleEvent(cases, key, row, selection) == Nothing
    decreases |cases|
  {
    if cases != [] {
      assert cases[0].key != key;
      HandleEventNoMatch(cases[1..], key, row, selection);
    }
  }

  /** Firing the event key of a rendered action runs that action's case, unless an
      earlier rendered action has the same key; it then runs the earlier one. */
  lemma HandlerRunsAction(actions: seq<GridAction>, isAccessible: string -> bool, vmQualifiedName: string,
                          i: nat, row: Option<string>, selection: seq<string>)
    requires i < |PermittedActions(actions, isAccessible)|
    requires var p := PermittedActions(actions, isAccessible);
             forall j :: 0 <= j < i ==> EventKey(p[j]) != EventKey(p[i])
    ensures var a := PermittedActions(actions, isAccessible)[i];
            HandleEvent(EventCases(actions, isAccessible, vmQualifiedName), EventKey(a), row, selection)
            == Run(CaseBodyOf(a, vmQualifiedName), row, selection)
  {
    var p := PermittedActions(actions, isAccessible);
    var cases := EventCases(actions, isAccessible, vmQualifiedName);
    EventCasesOfPermitted(actions, isAccessible, vmQualifiedName);
    HandleEventFirstMatch(cases, i, EventKey(p[i]), row, selection);
  }

  /** Firing a key that no rendered action carries does nothing. */
  lemma HandlerIgnoresUnknownKey(actions: seq<GridAction>, isAccessible: string -> bool, vmQualifiedName: string,
                                 key: string, row: Option<string>, selection: seq<string>)
    requires forall a :: a in actions && Permitted(a, isAccessible) ==> EventKey(a) != key
    ensures HandleEvent(EventCases(actions, isAccessible, vmQualifiedName), key, row, selection) == Nothing
  {
    var p := PermittedActions(actions, isAccessible);
    var cases := EventCases(actions, isAccessible, vmQualifiedName);
    EventCasesOfPermitted(actions, isAccessible, vmQualifiedName);
    forall j | 0 <= j < |cases|
      ensures cases[j].key != key
    {
      PermittedActionsMembers(actions, isAccessible, p[j]);
    }
    HandleEventNoMatch(cases, key, row, selection);
  }

  /** Clicking the toolbar button of a rendered action runs that action's
      case without a row, unless an earlier rendered action has the same key. */
  lemma ToolbarClickRunsAction(actions: seq<GridAction>, isAccessible: string -> bool, vmQualifiedName: string,
                               i: nat, selection: seq<string>)
    requires i < |PermittedActions(actions, isAccessible)|
    requires var p := PermittedActions(actions, isAccessible);
             forall j :: 0 <= j < i ==> EventKey(p[j]) != EventKey(p[i])
    requires !PermittedActions(actions, isAccessible)[i].hideOnToolBar
    ensures var a := PermittedActions(actions, isAccessible)[i];
            && ToolbarButtonFor(a) in ToolbarButtons(actions, isAccessible)
            && ClickToolbarButton(ToolbarButtonFor(a), EventCases(actions, isAccessible, vmQualifiedName), selection)
               == Run(CaseBodyOf(a, vmQualifiedName), None, selection)
  {
    var a := PermittedActions(actions, isAccessible)[i];
    PermittedActionsMembers(actions, isAccessible, a);
    ToolbarButtonsMembers(actions, isAccessible, ToolbarButtonFor(a));
    HandlerRunsAction(actions, isAccessible, vmQualifiedName, i, None, selection);
  }

  /** Clicking the row button of a rendered action runs that action's case
      with the row, unless an earlier rendered action has the same key; the
      button of a RemoveRow action removes the row instead. */
  lemma RowClickRunsAction(actions: seq<GridAction>, isAccessible: string -> bool, vmQualifiedName: string,
                           i: nat, rowId: string, selection: seq<string>)
    requires i < |PermittedActions(actions, isAccessible)|
    requires var p := PermittedActions(actions, isAccessible);
             forall j :: 0 <= j < i ==> EventKey(p[j]) != EventKey(p[i])
    requires PermittedActions(actions, isAccessible)[i].showInRow
    ensures var a := PermittedActions(actions, isAccessible)[i];
            && RowButtonFor(a) in RowButtons(actions, isAccessible)
            && ClickRowButton(RowButtonFor(a), EventCases(actions, isAccessible, vmQualifiedName), rowId, selection)
               == if a.parameterType == RemoveRow then RowRemoved
                  else Run(CaseBodyOf(a, vmQualifiedName), Some(rowId), selection)
  {
    var a := PermittedActions(actions, isAccessible)[i];
    PermittedActionsMembers(actions, isAccessible, a);
    RowButtonsMembers(actions, isAccessible, RowButtonFor(a));
    HandlerRunsAction(actions, isAccessible, vmQualifiedName, i, Some(rowId), selection);
  }

  /** A null area and an empty area give the same event key, but only the
      empty one makes the framework's export a download: with a null area, an
      export without a callback or a dialog is a background request. */
  lemma NullAreaExport(a: GridAction)
    requires IsExport(a) && a.onClickFunc == "" && !a.showDialog
    ensures EventKey(a.(area := None)) == EventKey(a.(area := Some("")))
    ensures InvocationOf(a.(area := None)) == BgRequest
    ensures InvocationOf(a.(area := Some(""))) == DownloadExcelOrPdf
  {
  }

  // ---------------------------------------------------------------------------
  // What a case does: a reference description of the selection rules
  // ---------------------------------------------------------------------------

  /** Whether the clicked row and the selection suit the action. Delete, Edit
      and Details need a clicked row; otherwise SingleId needs a row or exactly
      one checked row, MultiIds at least one checked row, SingleIdWithNull a
      row or at most one checked row. */
  predicate Accepts(a: GridAction, row: Option<string>, selection: seq<string>) {
    if IsSpecial(a) then row.Some?
    else match a.parameterType
      case SingleId => row.Some? || |selection| == 1
      case MultiIds => |selection| >= 1
      case SingleIdWithNull => row.Some? || |selection| <= 1
      case _ => true
  }

  /** The ids the action works on: the clicked row wins for the single-id shapes. */
  function TargetIds(a: GridAction, row: Option<string>, selection: seq<string>): seq<string> {
    if IsSpecial(a) then (if row.Some? then [row.value] else [])
    else match a.parameterType
      case SingleId => if row.Some? then [row.value] else selection
      case SingleIdWithNull => if row.Some? then [row.value] else selection
      case MultiIds => selection
      case MultiIdWithNull => selection
      case _ => []
  }

  /** Each id as its own `&Ids=` query parameter. */
  function IdsQuery(ids: seq<string>): string {
    if ids == [] then "" else "&Ids=" + ids[0] + IdsQuery(ids[1..])
  }

  /** How the target ids travel in the URL: one `&id=` for the single-id shapes,
      one `&Ids=` per id for the export action's optional ids, nothing otherwise. */
  function IdQuery(a: GridAction, ids: seq<string>): string {
    if IsSpecial(a) || a.parameterType == SingleId || a.parameterType == SingleIdWithNull then
      (if ids == [] then "" else "&id=" + ids[0])
    else if a.parameterType == MultiIdWithNull && IsExport(a) then IdsQuery(ids)
    else ""
  }

  /** Shapes whose ids are sent as the body of a POST. */
  predicate PostsIds(a: GridAction) {
    !IsSpecial(a) && (a.parameterType == MultiIds || (a.parameterType == MultiIdWithNull && !IsExport(a)))
  }

  /** What an unsuitable selection leads to: a script error for a missing row,
      else the notice that says what to select. */
  function Rejection(a: GridAction, selection: seq<string>): Outcome {
    if IsSpecial(a) then ScriptFault
    else if a.parameterType == SingleId && |selection| == 0 then Notice(SelectOneRow)
    else if a.parameterType == MultiIds then Notice(AtLeastOneRow)
    else Notice(AtMostOneRow)
  }

  /** `'&Ids=' + ids.join('&Ids=')` puts every id into its own query parameter. */
  lemma {:induction false} JoinIdsQuery(ids: seq<string>)
    requires ids != []
    ensures "&Ids=" + Join(ids, "&Ids=") == IdsQuery(ids)
    decreases |ids|
  {
    if |ids| > 1 {
      JoinIdsQuery(ids[1..]);
      assert IdsQuery(ids) == "&Ids=" + ids[0] + IdsQuery(ids[1..]);
    } else {
      assert ids[1..] == [];
    }
  }

  /** The meaning of the generated case of a dispatching action: an unsuitable
      selection is refused without any request; a suitable one invokes the
      action's call at its URL extended by the target ids, posting them exactly
      for the POST shapes. */
  lemma DispatchMeaning(a: GridAction, vmQualifiedName: string, row: Option<string>, selection: seq<string>)
    requires a.parameterType != AddRow && a.parameterType != RemoveRow
    ensures var o := Run(CaseBodyOf(a, vmQualifiedName), row, selection);
            var ids := TargetIds(a, row, selection);
            && (Accepts(a, row, selection) ==>
                  o == Invoke(InvocationOf(a), RequestUrl(a, vmQualifiedName) + IdQuery(a, ids),
                              if PostsIds(a) then Some(ids) else None))
            && (!Accepts(a, row, selection) ==> o == Rejection(a, selection))
  {
    if !IsSpecial(a) && a.parameterType == MultiIdWithNull && IsExport(a) && selection != [] {
      JoinIdsQuery(selection);
    }
  }

  /** A case reaches its invocation only for a suitable selection, and the
      single-id shapes then carry exactly one id. */
  lemma NoInvocationWithoutSelection(a: GridAction, vmQualifiedName: string, row: Option<string>, selection: seq<string>)
    requires a.parameterType != AddRow && a.parameterType != RemoveRow
    ensures var o := Run(CaseBodyOf(a, vmQualifiedName), row, selection);
            (o.Notice? || o.ScriptFault?) <==> !Accepts(a, row, selection)
    ensures Accepts(a, row, selection) && (IsSpecial(a) || a.parameterType == SingleId) ==>
              |TargetIds(a, row, selection)| == 1
    ensures Accepts(a, row, selection) && a.parameterType == SingleIdWithNull ==>
              |TargetIds(a, row, selection)| <= 1
  {
    DispatchMeaning(a, vmQualifiedName, row, selection);
  }

  /** The cases of the row-editing shapes ignore the row and the selection. */
  lemma RowEditingCases(a: GridAction, vmQualifiedName: string, row: Option<string>, selection: seq<string>)
    ensures a.parameterType == AddRow ==> Run(CaseBodyOf(a, vmQualifiedName), row, selection) == RowAdded
    ensures a.parameterType == RemoveRow ==> Run(CaseBodyOf(a, vmQualifiedName), row, selection) == Nothing
  {
  }

  /** The standard actions get six distinct icons; Delete shares with BatchDelete,
      Edit with BatchEdit. */
  lemma ToolbarIcons()
    ensures ToolbarIcon("Delete") == ToolbarIcon("BatchDelete") && ToolbarIcon("Edit") == ToolbarIcon("BatchEdit")
    ensures var icons := [ToolbarIcon("Create"), ToolbarIcon("Delete"), ToolbarIcon("Edit"),
                          ToolbarIcon("Details"), ToolbarIcon("Import"), ToolbarIcon("GetExportExcel")];
            forall i, j :: 0 <= i < j < |icons| ==> icons[i] != icons[j]
  {
    var icons := [ToolbarIcon("Create"), ToolbarIcon("Delete"), ToolbarIcon("Edit"),
                  ToolbarIcon("Details"), ToolbarIcon("Import"), ToolbarIcon("GetExportExcel")];
    assert icons == [Some("&#xe654;"), Some("&#xe640;"), Some("&#xe642;"),
                     Some("&#xe60e;"), Some("&#xe630;"), Some("&#xe62d;")];
  }
}
