/**
  The data-table tag helper itself: the properties the page sets, the
  identifiers it caches, and `Process`, which defaults the paging properties,
  builds the header matrix and the action output, and gathers the options
  handed to the grid runtime.
*/
module TagHelper {
  import opened Common
  import opened HeaderLayout
  import opened GridActions
  import opened TableConfig

  /** The options and fragments `Process` writes out, before serialisation. */
  datatype TableOptions = TableOptions(
    id: string,
    tableJSVar: string,
    source: DataSource,
    page: bool,
    limit: int,
    limits: Option<seq<int>>,
    height: HeightSetting,
    cols: seq<seq<LayuiColumn>>,
    rowButtons: seq<RowButton>,
    toolbarButtons: seq<ToolbarButton>,
    cases: seq<EventCase>)

  class DataTableTagHelper {
    const uniqueId: string          // the list view model's UniqueId
    const hiddenCheckbox: bool      // HiddenCheckbox
    const hiddenGridIndex: bool     // HiddenGridIndex
    const checkedAll: Option<bool>  // CheckedAll
    const useLocalData: bool        // UseLocalData
    const height: Option<int>       // Height
    var id: string                  // _id ("" when unset)
    var gridIdUserSet: string       // _gridIdUserSet
    var tableJSVar: string          // _tableJSVar
    var url: string                 // Url ("" when unset)
    var limit: Option<int>          // Limit
    var limits: Option<seq<int>>    // Limits

    constructor (uniqueId: string, hiddenCheckbox: bool, hiddenGridIndex: bool, checkedAll: Option<bool>,
                 useLocalData: bool, height: Option<int>, url: string, limit: Option<int>, limits: Option<seq<int>>)
      ensures this.uniqueId == uniqueId && this.hiddenCheckbox == hiddenCheckbox
      ensures this.hiddenGridIndex == hiddenGridIndex && this.checkedAll == checkedAll
      ensures this.useLocalData == useLocalData && this.height == height
      ensures this.url == url && this.limit == limit && this.limits == limits
      ensures id == "" && gridIdUserSet == "" && tableJSVar == ""
    {
      this.uniqueId := uniqueId;
      this.hiddenCheckbox := hiddenCheckbox;
      this.hiddenGridIndex := hiddenGridIndex;
      this.checkedAll := checkedAll;
      this.useLocalData := useLocalData;
      this.height := height;
      this.url := url;
      this.limit := limit;
      this.limits := limits;
      id, gridIdUserSet, tableJSVar := "", "", "";
    }

    /** The `Id` setter: the caller's id is both the id and the id the caller set. */
    method SetId(value: string)
      modifies this`id, this`gridIdUserSet
      ensures id == value && gridIdUserSet == value
    {
      id := value;
      gridIdUserSet := value;
    }

    /** The `Id` getter: computes the id once and caches it; the cached id is
        never empty, so every later read returns the same id. */
    method GetId() returns (r: string)
      modifies this`id
      ensures r == TableId(old(id), gridIdUserSet, uniqueId) && id == r && r != ""
    {
      if id == "" {
        if gridIdUserSet == "" {
          id := TABLE_ID_PREFIX + uniqueId;
        } else {
          id := gridIdUserSet;
        }
      }
      r := id;
    }

    /** The `TableJSVar` getter: computes the name once and caches it, so a
        name read before `SetId` is kept afterwards. */
    method GetTableJSVar() returns (r: string)
      modifies this`tableJSVar
      ensures r == TableJSVarName(old(tableJSVar), gridIdUserSet, uniqueId) && tableJSVar == r && r != ""
    {
      if tableJSVar == "" {
        tableJSVar := TABLE_JSVAR_PREFIX + (if gridIdUserSet == "" then uniqueId else gridIdUserSet);
      }
      r := tableJSVar;
    }

    /** The page-size defaulting of `Process`: an unset page size becomes the
        configured rows-per-page `rpp`; unset choices become the defaults,
        extended by the page size and sorted when it is missing. */
    method ApplyPagingDefaults(rpp: int)
      modifies this`limit, this`limits
      ensures limit == Some(old(limit).GetOr(rpp))
      ensures limits == if old(limits).None? then Some(DefaultedLimits(limit.value)) else old(limits)
    {
      if limit.None? {
        limit := Some(rpp);
      }
      if limits.None? {
        var pageSize := limit.value;
        var list := DefaultLimits;
        if pageSize !in list {
          list := OrderBy(list + [pageSize]);
        }
        assert list == DefaultedLimits(pageSize);
        limits := Some(list);
      }
    }

    /** The configuration half of `Process`: the id, the paging defaults, the
        default data URL, and the paging options emitted from them. `needPage`
        is the view model's paging flag, read before local data switches the
        view model's paging off; `rpp` the configured rows per page;
        `entityCount` the number of entities handed over inline. */
    method Configure(rpp: int, needPage: bool, entityCount: nat)
      returns (tableId: string, source: DataSource, emittedLimit: int, emittedLimits: Option<seq<int>>)
      modifies this`id, this`url, this`limit, this`limits
      ensures tableId == TableId(old(id), gridIdUserSet, uniqueId) && id == tableId
      ensures limit == Some(old(limit).GetOr(rpp))
      ensures limits == if old(limits).None? then Some(DefaultedLimits(limit.value)) else old(limits)
      ensures url == if !useLocalData && old(url) == "" then PagingDataUrl else old(url)
      ensures source == DataSourceOf(useLocalData, old(url))
      ensures emittedLimit == EmittedLimit(needPage, limit, useLocalData, entityCount)
      ensures emittedLimits == EmittedLimits(needPage, limits)
    {
      tableId := GetId();
      ApplyPagingDefaults(rpp);
      if !useLocalData && url == "" {
        url := PagingDataUrl;
      }
      source := DataSource(if url == "" then None else Some(url), useLocalData);
      emittedLimit := if needPage then limit.GetOr(FallbackLimit) else if useLocalData then entityCount else 0;
      emittedLimits := if !needPage then None else if limits.None? || limits.value == [] then Some(DefaultLimits) else limits;
    }

    /** `Process` without its output plumbing: the configured options, the
        header matrix and the action output. */
    method Process(rawCols: seq<GridColumn>, actions: seq<GridAction>, isAccessible: string -> bool,
                   vmQualifiedName: string, rpp: int, needPage: bool, entityCount: nat)
      returns (opts: TableOptions)
      modifies this`id, this`tableJSVar, this`url, this`limit, this`limits
      ensures opts.id == TableId(old(id), gridIdUserSet, uniqueId) && id == opts.id
      ensures opts.tableJSVar == TableJSVarName(old(tableJSVar), gridIdUserSet, uniqueId) && tableJSVar == opts.tableJSVar
      ensures limit == Some(old(limit).GetOr(rpp))
      ensures limits == if old(limits).None? then Some(DefaultedLimits(limit.value)) else old(limits)
      ensures url == if !useLocalData && old(url) == "" then PagingDataUrl else old(url)
      ensures opts.source == DataSourceOf(useLocalData, old(url))
      ensures opts.page == needPage
      ensures opts.limit == EmittedLimit(needPage, limit, useLocalData, entityCount)
      ensures opts.limits == EmittedLimits(needPage, limits)
      ensures opts.height == EncodeHeight(height)
      ensures opts.cols == Header(rawCols, hiddenCheckbox, hiddenGridIndex, checkedAll, ToolBarId(uniqueId))
      ensures opts.rowButtons == RowButtons(actions, isAccessible)
      ensures opts.toolbarButtons == ToolbarButtons(actions, isAccessible)
      ensures opts.cases == EventCases(actions, isAccessible, vmQualifiedName)
    {
      var tableId, source, emittedLimit, emittedLimits := Configure(rpp, needPage, entityCount);
      var cols := BuildHeader(rawCols, hiddenCheckbox, hiddenGridIndex, checkedAll, ToolBarId(uniqueId));
      var rowBtns, toolBarBtns, cases := BuildActions(actions, isAccessible, vmQualifiedName);
      var jsVar := GetTableJSVar();
      opts := TableOptions(tableId, jsVar, source, needPage, emittedLimit, emittedLimits, EncodeHeight(height),
                           cols, rowBtns, toolBarBtns, cases);
    }
  }
}
