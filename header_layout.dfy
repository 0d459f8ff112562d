/**
  Header-tree flattening of the LayUI data-table tag helper.

  The view model supplies a forest of grid columns; a column with children is a
  group header. The tag helper turns the forest into the row-major matrix of
  header cells that the grid runtime expects (`cols`), one row per tree level,
  with a column span on every group cell and a row span on every leaf cell so
  that each leaf reaches the last header row.
*/
module HeaderLayout {
  import opened Common

  datatype FixedSide = FixedLeft | FixedRight
  datatype Alignment = AlignLeft | AlignCenter | AlignRight

  /** The seven properties a header cell copies unchanged from its grid column:
      Title, Field, Width, Sort, Fixed, Align and UnResize. */
  datatype ColumnAttrs = ColumnAttrs(
    title: Option<string>,
    field: Option<string>,
    width: Option<int>,
    sort: Option<bool>,
    fixed: Option<FixedSide>,
    align: Option<Alignment>,
    unResize: Option<bool>)

  /** The attributes of a cell that copies nothing (checkbox and row-number cells). */
  const NoAttrs := ColumnAttrs(None, None, None, None, None, None, None)

  datatype GridColumnType = Normal | Space | Action

  /** A grid column as the view model describes it; `children` is empty for a leaf. */
  datatype GridColumn = GridColumn(attrs: ColumnAttrs, columnType: GridColumnType, children: seq<GridColumn>)

  datatype LayuiColumnType = Checkbox | Numbers | SpaceType

  /** One header cell handed to the grid runtime; `None` is a property the
      serialiser leaves out. */
  datatype LayuiColumn = LayuiColumn(
    attrs: ColumnAttrs,
    cellType: Option<LayuiColumnType>,
    toolbar: Option<string>,
    layChecked: Option<bool>,
    colspan: Option<int>,
    rowspan: Option<int>)

  predicate IsGroup(c: GridColumn) {
    |c.children| > 0
  }

  // ---------------------------------------------------------------------------
  // Tree measures. `ChildrenLength` and `ChildrenDepth` come from the core
  // library of the framework; here they are the leaf-descendant count and the
  // depth of the forest.
  // ---------------------------------------------------------------------------

  /** Number of levels of the tree rooted at `c` (1 for a leaf). */
  function Depth(c: GridColumn): nat
    decreases c
  {
    1 + ForestDepth(c.children)
  }

  /** Largest depth of the trees in `cs` (0 for an empty forest). */
  function ForestDepth(cs: seq<GridColumn>): nat
    decreases cs
  {
    if cs == [] then 0 else Max(Depth(cs[0]), ForestDepth(cs[1..]))
  }

  /** `ChildrenLength`: the number of leaves below a group (1 for a leaf). */
  function ChildrenLength(c: GridColumn): (n: nat)
    ensures n >= 1
    decreases c
  {
    if c.children == [] then 1 else LeafCount(c.children)
  }

  /** Number of leaves of the forest `cs`. */
  function LeafCount(cs: seq<GridColumn>): (n: nat)
    ensures cs != [] ==> n >= 1
    decreases cs
  {
    if cs == [] then 0 else ChildrenLength(cs[0]) + LeafCount(cs[1..])
  }

  /** `ChildrenDepth` of the list view model: the header depth, at least 1. */
  function ChildrenDepth(roots: seq<GridColumn>): nat {
    Max(1, ForestDepth(roots))
  }

  /** The next header level: the children of the group columns of `cs`, left to right. */
  function NextLevel(cs: seq<GridColumn>): seq<GridColumn> {
    if cs == [] then []
    else (if IsGroup(cs[0]) then cs[0].children else []) + NextLevel(cs[1..])
  }

  /** Every node of the forest, in pre-order. */
  function AllNodes(cs: seq<GridColumn>): seq<GridColumn>
    decreases cs
  {
    if cs == [] then [] else [cs[0]] + AllNodes(cs[0].children) + AllNodes(cs[1..])
  }

  /** The levels of the forest `cs`: `cs` itself, then each next level until
      one feeds no further level. */
  function Levels(cs: seq<GridColumn>): (ls: seq<seq<GridColumn>>)
    ensures |ls| >= 1 && ls[0] == cs
    decreases ForestDepth(cs)
  {
    var next := NextLevel(cs);
    if next == [] then [cs]
    else
      NextLevelDepth(cs);
      [cs] + Levels(next)
  }

  // ---------------------------------------------------------------------------
  // Cell construction
  // ---------------------------------------------------------------------------

  /** The cell `CalcChildCol` builds for a column at header row `depth`: the
      column's own attributes and no column type (a nested column is never a
      spacer or the action column); a group spans its leaves, a leaf of a
      multi-row header reaches down to the last header row. */
  function ChildCell(item: GridColumn, maxDepth: int, depth: int): (c: LayuiColumn)
    ensures c.attrs == item.attrs && c.cellType.None? && c.toolbar.None? && c.layChecked.None?
    ensures c.colspan.Some? <==> IsGroup(item)
    ensures c.colspan.Some? ==> c.colspan.value >= 1
    ensures c.rowspan.Some? <==> maxDepth > 1 && !IsGroup(item)
    ensures c.rowspan.Some? ==> depth + c.rowspan.value == maxDepth
  {
    LayuiColumn(
      item.attrs, None, None, None,
      if IsGroup(item) then Some(ChildrenLength(item)) else None,
      if maxDepth > 1 && !IsGroup(item) then Some(maxDepth - depth) else None)
  }

  /** The cell `Process` builds for a root column: it also maps the column type
      (a spacer column, or the action column that points at the row-button
      template) and gives a leaf the full header depth as its row span. */
  function RootCell(item: GridColumn, maxDepth: int, toolBarId: string): (c: LayuiColumn)
    ensures c.attrs == item.attrs && c.layChecked.None?
    ensures c.cellType.Some? <==> item.columnType == Space
    ensures c.cellType.Some? ==> c.cellType.value == SpaceType
    ensures c.toolbar.Some? <==> item.columnType == Action
    ensures c.toolbar.Some? ==> c.toolbar.value == "#" + toolBarId
    ensures c.colspan.Some? <==> IsGroup(item)
    ensures c.colspan.Some? ==> c.colspan.value >= 1
    ensures c.rowspan.Some? <==> maxDepth > 1 && !IsGroup(item)
    ensures c.rowspan.Some? ==> c.rowspan.value == maxDepth
  {
    LayuiColumn(
      item.attrs,
      if item.columnType == Space then Some(SpaceType) else None,
      if item.columnType == Action then Some("#" + toolBarId) else None,
      None,
      if IsGroup(item) then Some(ChildrenLength(item)) else None,
      if maxDepth > 1 && !IsGroup(item) then Some(maxDepth) else None)
  }

  function CheckboxCell(checkedAll: Option<bool>, maxDepth: int): LayuiColumn {
    LayuiColumn(NoAttrs, Some(Checkbox), None, checkedAll, None, Some(maxDepth))
  }

  function NumbersCell(maxDepth: int): LayuiColumn {
    LayuiColumn(NoAttrs, Some(Numbers), None, None, None, Some(maxDepth))
  }

  /** The checkbox and row-number cells that open row 0, each unless hidden. */
  function Prefix(hiddenCheckbox: bool, hiddenGridIndex: bool, checkedAll: Option<bool>, maxDepth: int): seq<LayuiColumn> {
    (if !hiddenCheckbox then [CheckboxCell(checkedAll, maxDepth)] else [])
    + (if !hiddenGridIndex then [NumbersCell(maxDepth)] else [])
  }

  function CellRow(cs: seq<GridColumn>, maxDepth: int, depth: int): (row: seq<LayuiColumn>)
    ensures |row| == |cs|
  {
    seq(|cs|, i requires 0 <= i < |cs| => ChildCell(cs[i], maxDepth, depth))
  }

  function RootRow(cs: seq<GridColumn>, maxDepth: int, toolBarId: string): (row: seq<LayuiColumn>)
    ensures |row| == |cs|
  {
    seq(|cs|, i requires 0 <= i < |cs| => RootCell(cs[i], maxDepth, toolBarId))
  }

  /** The rows `CalcChildCol(_, cs, maxDepth, depth)` appends. */
  function ChildRows(cs: seq<GridColumn>, maxDepth: int, depth: int): (rows: seq<seq<LayuiColumn>>)
    ensures |rows| >= 1 && rows[0] == CellRow(cs, maxDepth, depth)
    decreases ForestDepth(cs)
  {
    var next := NextLevel(cs);
    if next == [] then [CellRow(cs, maxDepth, depth)]
    else
      NextLevelDepth(cs);
      [CellRow(cs, maxDepth, depth)] + ChildRows(next, maxDepth, depth + 1)
  }

  /** The complete header matrix `Process` builds. */
  function Header(roots: seq<GridColumn>, hiddenCheckbox: bool, hiddenGridIndex: bool,
                  checkedAll: Option<bool>, toolBarId: string): seq<seq<LayuiColumn>>
  {
    var maxDepth := ChildrenDepth(roots);
    var next := NextLevel(roots);
    [Prefix(hiddenCheckbox, hiddenGridIndex, checkedAll, maxDepth) + RootRow(roots, maxDepth, toolBarId)]
    + (if next == [] then [] else ChildRows(next, maxDepth, 1))
  }

  // ---------------------------------------------------------------------------
  // Lemmas about the measures
  // ---------------------------------------------------------------------------

  lemma {:induction false} ForestDepthAppend(a: seq<GridColumn>, b: seq<GridColumn>)
    ensures ForestDepth(a + b) == Max(ForestDepth(a), ForestDepth(b))
    decreases a
  {
    if a == [] {
      assert a + b == b;
    } else {
      assert (a + b)[0] == a[0];
      assert (a + b)[1..] == a[1..] + b;
      ForestDepthAppend(a[1..], b);
    }
  }

  lemma {:induction false} NextLevelAppend(a: seq<GridColumn>, b: seq<GridColumn>)
    ensures NextLevel(a + b) == NextLevel(a) + NextLevel(b)
    decreases a
  {
    if a == [] {
      assert a + b == b;
    } else {
      assert (a + b)[0] == a[0];
      assert (a + b)[1..] == a[1..] + b;
      NextLevelAppend(a[1..], b);
    }
  }

  lemma CellRowSnoc(cs: seq<GridColumn>, c: GridColumn, maxDepth: int, depth: int)
    ensures CellRow(cs + [c], maxDepth, depth) == CellRow(cs, maxDepth, depth) + [ChildCell(c, maxDepth, depth)]
  {
  }

  lemma RootRowSnoc(cs: seq<GridColumn>, c: GridColumn, maxDepth: int, toolBarId: string)
    ensures RootRow(cs + [c], maxDepth, toolBarId) == RootRow(cs, maxDepth, toolBarId) + [RootCell(c, maxDepth, toolBarId)]
  {
  }

  /** Moving to the next level removes exactly one level of depth. */
  lemma {:induction false} NextLevelDepth(cs: seq<GridColumn>)
    requires cs != []
    ensures ForestDepth(NextLevel(cs)) == ForestDepth(cs) - 1
    decreases cs
  {
    var kids := if IsGroup(cs[0]) then cs[0].children else [];
    assert kids == cs[0].children;
    ForestDepthAppend(kids, NextLevel(cs[1..]));
    if cs[1..] != [] {
      NextLevelDepth(cs[1..]);
    }
  }

  // ---------------------------------------------------------------------------
  // The imperative header builder
  // ---------------------------------------------------------------------------

  /** `CalcChildCol`: appends to `layuiCols` the row of cells for `rawCols`
      (header row `depth`), then recurses on the children of its group columns
      until a row has no groups. */
  method CalcChildCol(layuiCols: seq<seq<LayuiColumn>>, rawCols: seq<GridColumn>, maxDepth: int, depth: int)
    returns (result: seq<seq<LayuiColumn>>)
    ensures result == layuiCols + ChildRows(rawCols, maxDepth, depth)
    decreases ForestDepth(rawCols)
  {
    var tempCols: seq<LayuiColumn> := [];
    var nextCols: seq<GridColumn> := [];
    for i := 0 to |rawCols|
      invariant tempCols == CellRow(rawCols[..i], maxDepth, depth)
      invariant nextCols == NextLevel(rawCols[..i])
    {
      var item := rawCols[i];
      var tempCol := LayuiColumn(item.attrs, None, None, None, None, None);
      if |item.children| > 0 {
        tempCol := tempCol.(colspan := Some(ChildrenLength(item)));
      }
      if maxDepth > 1 && |item.children| == 0 {
        tempCol := tempCol.(rowspan := Some(maxDepth - depth));
      }
      assert tempCol == ChildCell(item, maxDepth, depth);
      tempCols := tempCols + [tempCol];
      if |item.children| > 0 {
        nextCols := nextCols + item.children;
      }
      assert rawCols[..i + 1] == rawCols[..i] + [item];
      CellRowSnoc(rawCols[..i], item, maxDepth, depth);
      NextLevelAppend(rawCols[..i], [item]);
    }
    assert rawCols[..|rawCols|] == rawCols;
    result := layuiCols + [tempCols];
    if |nextCols| > 0 {
      NextLevelDepth(rawCols);
      result := CalcChildCol(result, nextCols, maxDepth, depth + 1);
    }
  }

  /** The root-column loop of `Process`: appends one cell per root column to
      row 0 and collects the children of the group columns. */
  method AddRootCells(row: seq<LayuiColumn>, rawCols: seq<GridColumn>, maxDepth: int, toolBarId: string)
    returns (tempCols: seq<LayuiColumn>, nextCols: seq<GridColumn>)
    ensures tempCols == row + RootRow(rawCols, maxDepth, toolBarId)
    ensures nextCols == NextLevel(rawCols)
  {
    tempCols, nextCols := row, [];
    for i := 0 to |rawCols|
      invariant tempCols == row + RootRow(rawCols[..i], maxDepth, toolBarId)
      invariant nextCols == NextLevel(rawCols[..i])
    {
      var item := rawCols[i];
      var tempCol := LayuiColumn(item.attrs, None, None, None, None, None);
      match item.columnType {
        case Space => tempCol := tempCol.(cellType := Some(SpaceType));
        case Action => tempCol := tempCol.(toolbar := Some("#" + toolBarId));
        case Normal =>
      }
      if |item.children| > 0 {
        tempCol := tempCol.(colspan := Some(ChildrenLength(item)));
      }
      if maxDepth > 1 && |item.children| == 0 {
        tempCol := tempCol.(rowspan := Some(maxDepth));
      }
      assert tempCol == RootCell(item, maxDepth, toolBarId);
      ghost var done := RootRow(rawCols[..i], maxDepth, toolBarId);
      tempCols := tempCols + [tempCol];
      if |item.children| > 0 {
        nextCols := nextCols + item.children;
      }
      assert rawCols[..i + 1] == rawCols[..i] + [item];
      RootRowSnoc(rawCols[..i], item, maxDepth, toolBarId);
      assert tempCols == row + (done + [tempCol]);
      NextLevelAppend(rawCols[..i], [item]);
    }
    assert rawCols[..|rawCols|] == rawCols;
  }

  /** The header-building region of `Process`: seeds row 0 with the checkbox
      and row-number cells and one cell per root column, then lets
      `CalcChildCol` build the rows below from depth 1. */
  method BuildHeader(rawCols: seq<GridColumn>, hiddenCheckbox: bool, hiddenGridIndex: bool,
                     checkedAll: Option<bool>, toolBarId: string)
    returns (layuiCols: seq<seq<LayuiColumn>>)
    ensures layuiCols == Header(rawCols, hiddenCheckbox, hiddenGridIndex, checkedAll, toolBarId)
  {
    var maxDepth := ChildrenDepth(rawCols);
    var tempCols: seq<LayuiColumn> := [];
    if !hiddenCheckbox {
      tempCols := tempCols + [LayuiColumn(NoAttrs, Some(Checkbox), None, checkedAll, None, Some(maxDepth))];
    }
    if !hiddenGridIndex {
      tempCols := tempCols + [LayuiColumn(NoAttrs, Some(Numbers), None, None, None, Some(maxDepth))];
    }
    assert tempCols == Prefix(hiddenCheckbox, hiddenGridIndex, checkedAll, maxDepth);
    var nextCols;
    tempCols, nextCols := AddRootCells(tempCols, rawCols, maxDepth, toolBarId);
    layuiCols := [tempCols];
    if |nextCols| > 0 {
      layuiCols := CalcChildCol(layuiCols, nextCols, maxDepth, 1);
    }
  }

  // ---------------------------------------------------------------------------
  // Properties of the levels
  // ---------------------------------------------------------------------------

  /** A non-empty forest has as many levels as it is deep. */
  lemma {:induction false} LevelsLength(cs: seq<GridColumn>)
    requires cs != []
    ensures |Levels(cs)| == ForestDepth(cs)
    decreases ForestDepth(cs)
  {
    NextLevelDepth(cs);
    var next := NextLevel(cs);
    if next != [] {
      LevelsLength(next);
    }
  }

  /** Row r+1 is the concatenation of the children of the group columns of row r,
      and the last row holds no group. */
  lemma {:induction false} LevelsNext(cs: seq<GridColumn>, r: nat)
    requires r < |Levels(cs)|
    ensures r + 1 < |Levels(cs)| ==> Levels(cs)[r + 1] == NextLevel(Levels(cs)[r])
    ensures r + 1 == |Levels(cs)| ==> NextLevel(Levels(cs)[r]) == []
    decreases ForestDepth(cs)
  {
    var next := NextLevel(cs);
    if next != [] && r > 0 {
      NextLevelDepth(cs);
      LevelsNext(next, r - 1);
    }
  }

  /** A column of a forest is no deeper than the forest. */
  lemma {:induction false} MemberDepth(cs: seq<GridColumn>, k: nat)
    requires k < |cs|
    ensures Depth(cs[k]) <= ForestDepth(cs)
    decreases cs
  {
    if k > 0 {
      MemberDepth(cs[1..], k - 1);
    }
  }

  /** A column on level r has at most ForestDepth - r levels of its own. */
  lemma {:induction false} LevelDepthBound(cs: seq<GridColumn>, r: nat, k: nat)
    requires r < |Levels(cs)| && k < |Levels(cs)[r]|
    ensures r + Depth(Levels(cs)[r][k]) <= ForestDepth(cs)
    decreases ForestDepth(cs)
  {
    if r == 0 {
      MemberDepth(cs, k);
    } else {
      var next := NextLevel(cs);
      NextLevelDepth(cs);
      LevelDepthBound(next, r - 1, k);
    }
  }

  /** `CalcChildCol` appends one row per level. */
  lemma {:induction false} ChildRowsLength(cs: seq<GridColumn>, maxDepth: int, depth: int)
    ensures |ChildRows(cs, maxDepth, depth)| == |Levels(cs)|
    decreases ForestDepth(cs)
  {
    var next := NextLevel(cs);
    if next != [] {
      NextLevelDepth(cs);
      ChildRowsLength(next, maxDepth, depth + 1);
    }
  }

  /** Row r of the rows `CalcChildCol` appends is built from level r. */
  lemma {:induction false} ChildRowsRow(cs: seq<GridColumn>, maxDepth: int, depth: int, r: nat)
    requires r < |Levels(cs)|
    ensures r < |ChildRows(cs, maxDepth, depth)|
    ensures ChildRows(cs, maxDepth, depth)[r] == CellRow(Levels(cs)[r], maxDepth, depth + r)
    decreases ForestDepth(cs)
  {
    ChildRowsLength(cs, maxDepth, depth);
    if r == 0 {
      assert Levels(cs)[r] == cs && depth + r == depth;
    } else {
      var next := NextLevel(cs);
      assert next != [];
      NextLevelDepth(cs);
      ChildRowsRow(next, maxDepth, depth + 1, r - 1);
      ChildRowsStep(cs, maxDepth, depth, r);
    }
  }

  /** Row `r > 0` of the header of `cs` is row `r - 1` of the header of the next level. */
  lemma ChildRowsStep(cs: seq<GridColumn>, maxDepth: int, depth: int, r: nat)
    requires 0 < r < |Levels(cs)| && NextLevel(cs) != []
    requires r - 1 < |ChildRows(NextLevel(cs), maxDepth, depth + 1)|
    ensures r < |ChildRows(cs, maxDepth, depth)|
    ensures Levels(cs)[r] == Levels(NextLevel(cs))[r - 1]
    ensures ChildRows(cs, maxDepth, depth)[r] == ChildRows(NextLevel(cs), maxDepth, depth + 1)[r - 1]
  {
    var next := NextLevel(cs);
    NextLevelDepth(cs);
    ConsIndex(Levels(cs), cs, Levels(next), r);
    ConsIndex(ChildRows(cs, maxDepth, depth), CellRow(cs, maxDepth, depth), ChildRows(next, maxDepth, depth + 1), r);
  }

  lemma ConsIndex<T>(xs: seq<T>, x: T, rest: seq<T>, r: nat)
    requires xs == [x] + rest && 0 < r < |xs|
    ensures xs[r] == rest[r - 1]
  {
  }

  function PrefixCount(hiddenCheckbox: bool, hiddenGridIndex: bool): nat {
    (if hiddenCheckbox then 0 else 1) + (if hiddenGridIndex then 0 else 1)
  }

  /** The header has one row per level of the forest, as many as `ChildrenDepth`,
      and row 0 is the prefix followed by the root cells. */
  lemma HeaderShape(roots: seq<GridColumn>, hiddenCheckbox: bool, hiddenGridIndex: bool,
                    checkedAll: Option<bool>, toolBarId: string)
    ensures var h := Header(roots, hiddenCheckbox, hiddenGridIndex, checkedAll, toolBarId);
            var maxDepth := ChildrenDepth(roots);
            && |h| == |Levels(roots)| == maxDepth
            && h[0] == Prefix(hiddenCheckbox, hiddenGridIndex, checkedAll, maxDepth) + RootRow(roots, maxDepth, toolBarId)
  {
    var maxDepth := ChildrenDepth(roots);
    var next := NextLevel(roots);
    if roots != [] {
      LevelsLength(roots);
    }
    if next != [] {
      ChildRowsLength(next, maxDepth, 1);
    }
  }

  /** Row r > 0 of the header is built from level r with row span base `maxDepth - r`. */
  lemma HeaderRow(roots: seq<GridColumn>, hiddenCheckbox: bool, hiddenGridIndex: bool,
                  checkedAll: Option<bool>, toolBarId: string, r: nat)
    requires 1 <= r < |Levels(roots)|
    ensures var h := Header(roots, hiddenCheckbox, hiddenGridIndex, checkedAll, toolBarId);
            r < |h| && h[r] == CellRow(Levels(roots)[r], ChildrenDepth(roots), r)
  {
    HeaderShape(roots, hiddenCheckbox, hiddenGridIndex, checkedAll, toolBarId);
    var next := NextLevel(roots);
    var maxDepth := ChildrenDepth(roots);
    assert next != [];
    ChildRowsRow(next, maxDepth, 1, r - 1);
    var h := Header(roots, hiddenCheckbox, hiddenGridIndex, checkedAll, toolBarId);
    var row0 := Prefix(hiddenCheckbox, hiddenGridIndex, checkedAll, maxDepth) + RootRow(roots, maxDepth, toolBarId);
    ConsIndex(Levels(roots), roots, Levels(next), r);
    ConsIndex(h, row0, ChildRows(next, maxDepth, 1), r);
    assert 1 + (r - 1) == r;
  }

  /** Every cell the header holds for a grid column: it copies the column's
      attributes, a group spans its leaves, and a leaf (when the header has
      more than one row) spans from its own row down to the last row. */
  lemma HeaderCell(roots: seq<GridColumn>, hiddenCheckbox: bool, hiddenGridIndex: bool,
                   checkedAll: Option<bool>, toolBarId: string, r: nat, k: nat)
    requires r < |Levels(roots)| && k < |Levels(roots)[r]|
    ensures var h := Header(roots, hiddenCheckbox, hiddenGridIndex, checkedAll, toolBarId);
            var off := if r == 0 then PrefixCount(hiddenCheckbox, hiddenGridIndex) else 0;
            var node := Levels(roots)[r][k];
            var maxDepth := ChildrenDepth(roots);
            && r < |h| && |h[r]| == off + |Levels(roots)[r]|
            && h[r][off + k].attrs == node.attrs
            && h[r][off + k].colspan == (if IsGroup(node) then Some(ChildrenLength(node)) else None)
            && h[r][off + k].rowspan == (if maxDepth > 1 && !IsGroup(node) then Some(maxDepth - r) else None)
            && (!IsGroup(node) ==> 1 <= |h| - r == maxDepth - r)
            && (r > 0 ==> h[r][off + k].cellType == None && h[r][off + k].toolbar == None)
  {
    HeaderShape(roots, hiddenCheckbox, hiddenGridIndex, checkedAll, toolBarId);
    if r > 0 {
      HeaderRow(roots, hiddenCheckbox, hiddenGridIndex, checkedAll, toolBarId, r);
    }
    LevelDepthBound(roots, r, k);
    if roots != [] {
      LevelsLength(roots);
    }
  }

  /** Row 0 opens with a checkbox cell exactly when the checkbox is not hidden
      and a row-number cell exactly when the index is not hidden, both spanning
      the whole header, followed by one cell per root column in root order. */
  lemma RowZero(roots: seq<GridColumn>, hiddenCheckbox: bool, hiddenGridIndex: bool,
                checkedAll: Option<bool>, toolBarId: string)
    ensures var h := Header(roots, hiddenCheckbox, hiddenGridIndex, checkedAll, toolBarId);
            var p := PrefixCount(hiddenCheckbox, hiddenGridIndex);
            && |h[0]| == p + |roots|
            && (!hiddenCheckbox ==> h[0][0] == CheckboxCell(checkedAll, |h|))
            && (!hiddenGridIndex ==> h[0][p - 1] == NumbersCell(|h|))
            && (forall j :: 0 <= j < |h[0]| ==>
                  (h[0][j].cellType == Some(Checkbox) <==> !hiddenCheckbox && j == 0))
            && (forall j :: 0 <= j < |h[0]| ==>
                  (h[0][j].cellType == Some(Numbers) <==> !hiddenGridIndex && j == p - 1))
            && (forall k :: 0 <= k < |roots| ==> h[0][p + k] == RootCell(roots[k], |h|, toolBarId))
  {
    HeaderShape(roots, hiddenCheckbox, hiddenGridIndex, checkedAll, toolBarId);
  }

  /** When no root column has children the header is a single row and no
      root cell carries a span. */
  lemma SingleRowHeader(roots: seq<GridColumn>, hiddenCheckbox: bool, hiddenGridIndex: bool,
                        checkedAll: Option<bool>, toolBarId: string)
    requires ChildrenDepth(roots) == 1
    ensures var h := Header(roots, hiddenCheckbox, hiddenGridIndex, checkedAll, toolBarId);
            var p := PrefixCount(hiddenCheckbox, hiddenGridIndex);
            && |h| == 1 && |h[0]| == p + |roots|
            && forall j :: p <= j < |h[0]| ==> h[0][j].colspan == None && h[0][j].rowspan == None
  {
    HeaderShape(roots, hiddenCheckbox, hiddenGridIndex, checkedAll, toolBarId);
    forall k | 0 <= k < |roots|
      ensures !IsGroup(roots[k])
    {
      MemberDepth(roots, k);
      if IsGroup(roots[k]) {
        MemberDepth(roots[k].children, 0);
      }
    }
  }

  lemma {:induction false} AllNodesAppend(a: seq<GridColumn>, b: seq<GridColumn>)
    ensures AllNodes(a + b) == AllNodes(a) + AllNodes(b)
    decreases a
  {
    if a == [] {
      assert a + b == b;
    } else {
      assert (a + b)[0] == a[0];
      assert (a + b)[1..] == a[1..] + b;
      AllNodesAppend(a[1..], b);
    }
  }

  /** The multiset bookkeeping of one step of `AllNodesNextLevel`. */
  lemma Regroup<T>(all: seq<T>, cs: seq<T>, c: T, rest: seq<T>,
                   below: seq<T>, restNodes: seq<T>, restBelow: seq<T>, nextNodes: seq<T>)
    requires all == [c] + below + restNodes && cs == [c] + rest
    requires multiset(restNodes) == multiset(rest) + multiset(restBelow)
    requires nextNodes == below + restBelow
    ensures multiset(all) == multiset(cs) + multiset(nextNodes)
  {
  }

  /** The nodes of a forest are its roots plus the nodes of its next level. */
  lemma {:induction false} AllNodesNextLevel(cs: seq<GridColumn>)
    ensures multiset(AllNodes(cs)) == multiset(cs) + multiset(AllNodes(NextLevel(cs)))
    decreases cs
  {
    if cs != [] {
      var c, rest := cs[0], cs[1..];
      assert NextLevel(cs) == c.children + NextLevel(rest);
      AllNodesAppend(c.children, NextLevel(rest));
      AllNodesNextLevel(rest);
      assert cs == [c] + rest;
      Regroup(AllNodes(cs), cs, c, rest, AllNodes(c.children), AllNodes(rest),
              AllNodes(NextLevel(rest)), AllNodes(NextLevel(cs)));
    }
  }

  /** Every node of the forest lies on exactly one level (as a multiset, so
      equal columns are counted separately). */
  lemma {:induction false} LevelsCoverNodes(cs: seq<GridColumn>)
    ensures multiset(Flatten(Levels(cs))) == multiset(AllNodes(cs))
    decreases ForestDepth(cs)
  {
    AllNodesNextLevel(cs);
    var next := NextLevel(cs);
    if next == [] {
      assert Levels(cs) == [cs];
      assert Flatten([cs]) == cs + Flatten([cs][1..]);
      assert [cs][1..] == [];
      assert cs + [] == cs;
    } else {
      NextLevelDepth(cs);
      LevelsCoverNodes(next);
      assert Levels(cs)[1..] == Levels(next);
    }
  }

  /** The header example with a group "Info" over "Name" and "Age" beside a leaf
      "Status", with both the checkbox and the row-number cell shown: row 0 is
      checkbox, row number, Info spanning two columns and Status spanning two
      rows; row 1 is Name and Age, each with no column span and a row span of 1
      (a leaf below row 0 still gets `maxDepth - depth`). */
  lemma InfoStatusExample(info: ColumnAttrs, name: ColumnAttrs, age: ColumnAttrs, status: ColumnAttrs, toolBarId: string)
    ensures var kids := [GridColumn(name, Normal, []), GridColumn(age, Normal, [])];
            var h := Header([GridColumn(info, Normal, kids), GridColumn(status, Normal, [])], false, false, None, toolBarId);
            && |h| == 2 && |h[0]| == 4 && |h[1]| == 2
            && h[0][0].cellType == Some(Checkbox) && h[0][0].rowspan == Some(2)
            && h[0][1].cellType == Some(Numbers) && h[0][1].rowspan == Some(2)
            && h[0][2].attrs == info && h[0][2].colspan == Some(2) && h[0][2].rowspan == None
            && h[0][3].attrs == status && h[0][3].colspan == None && h[0][3].rowspan == Some(2)
            && h[1][0].attrs == name && h[1][0].colspan == None && h[1][0].rowspan == Some(1)
            && h[1][1].attrs == age && h[1][1].colspan == None && h[1][1].rowspan == Some(1)
  {
    var nameCol, ageCol := GridColumn(name, Normal, []), GridColumn(age, Normal, []);
    var kids := [nameCol, ageCol];
    var infoCol, statusCol := GridColumn(info, Normal, kids), GridColumn(status, Normal, []);
    var roots := [infoCol, statusCol];
    assert kids[1..] == [ageCol] && [ageCol][1..] == [];
    assert roots[1..] == [statusCol] && [statusCol][1..] == [];
    assert Depth(nameCol) == 1 && Depth(ageCol) == 1 && Depth(statusCol) == 1;
    assert ForestDepth([ageCol]) == 1;
    assert ForestDepth(kids) == 1;
    assert ForestDepth([statusCol]) == 1;
    assert Depth(infoCol) == 2;
    assert ForestDepth(roots) == 2;
    assert ChildrenLength(nameCol) == 1 && ChildrenLength(ageCol) == 1;
    assert LeafCount([ageCol]) == 1;
    assert LeafCount(kids) == 2;
    assert ChildrenLength(infoCol) == 2;
    assert NextLevel([statusCol]) == [];
    assert NextLevel(roots) == kids;
    assert NextLevel([ageCol]) == [];
    assert NextLevel(kids) == [];
    var h := Header(roots, false, false, None, toolBarId);
    assert h[0] == [CheckboxCell(None, 2), NumbersCell(2)] + RootRow(roots, 2, toolBarId);
    assert h[1..] == ChildRows(kids, 2, 1) == [CellRow(kids, 2, 1)];
    assert |h| == 2 && |h[0]| == 4 && |h[1]| == 2;
    assert h[0][0].cellType == Some(Checkbox) && h[0][0].rowspan == Some(2);
    assert h[0][1].cellType == Some(Numbers) && h[0][1].rowspan == Some(2);
    assert h[0][2] == RootCell(infoCol, 2, toolBarId);
    assert h[0][2].attrs == info && h[0][2].colspan == Some(2) && h[0][2].rowspan == None;
    assert h[0][3].attrs == status && h[0][3].colspan == None && h[0][3].rowspan == Some(2);
  }

  // ---------------------------------------------------------------------------
  // Widths: every header row covers all data columns
  // ---------------------------------------------------------------------------

  /** The number of data columns a row of cells covers: a cell covers its
      column span, or one column without one. */
  function SpanWidth(cells: seq<LayuiColumn>): int {
    if cells == [] then 0 else cells[0].colspan.GetOr(1) + SpanWidth(cells[1..])
  }

  /** The number of leaf columns in `cs` itself. */
  function LeafNodes(cs: seq<GridColumn>): nat {
    if cs == [] then 0 else (if IsGroup(cs[0]) then 0 else 1) + LeafNodes(cs[1..])
  }

  /** The leaves that end on the levels above level r; their cells span down through row r. */
  function LeavesAbove(cs: seq<GridColumn>, r: nat): nat
    requires r <= |Levels(cs)|
  {
    if r == 0 then 0 else LeavesAbove(cs, r - 1) + LeafNodes(Levels(cs)[r - 1])
  }

  /** A row of cells built from `cs` covers as many columns as `cs` has leaves. */
  lemma {:induction false} CellRowWidth(cs: seq<GridColumn>, maxDepth: int, depth: int)
    ensures SpanWidth(CellRow(cs, maxDepth, depth)) == LeafCount(cs)
    decreases |cs|
  {
    if cs != [] {
      assert CellRow(cs, maxDepth, depth)[1..] == CellRow(cs[1..], maxDepth, depth);
      CellRowWidth(cs[1..], maxDepth, depth);
    }
  }

  lemma {:induction false} RootRowWidth(cs: seq<GridColumn>, maxDepth: int, toolBarId: string)
    ensures SpanWidth(RootRow(cs, maxDepth, toolBarId)) == LeafCount(cs)
    decreases |cs|
  {
    if cs != [] {
      assert RootRow(cs, maxDepth, toolBarId)[1..] == RootRow(cs[1..], maxDepth, toolBarId);
      RootRowWidth(cs[1..], maxDepth, toolBarId);
    }
  }

  lemma {:induction false} LeafCountAppend(a: seq<GridColumn>, b: seq<GridColumn>)
    ensures LeafCount(a + b) == LeafCount(a) + LeafCount(b)
    decreases |a|
  {
    if a == [] {
      assert a + b == b;
    } else {
      assert (a + b)[0] == a[0];
      assert (a + b)[1..] == a[1..] + b;
      LeafCountAppend(a[1..], b);
    }
  }

  /** The leaves of a forest are its leaf roots plus the leaves of its next level. */
  lemma {:induction false} LeafCountNextLevel(cs: seq<GridColumn>)
    ensures LeafCount(cs) == LeafNodes(cs) + LeafCount(NextLevel(cs))
    decreases |cs|
  {
    if cs != [] {
      var kids := if IsGroup(cs[0]) then cs[0].children else [];
      LeafCountAppend(kids, NextLevel(cs[1..]));
      LeafCountNextLevel(cs[1..]);
    }
  }

  lemma {:induction false} LevelWidth(cs: seq<GridColumn>, r: nat)
    requires r < |Levels(cs)|
    ensures LeavesAbove(cs, r) + LeafCount(Levels(cs)[r]) == LeafCount(cs)
    decreases r
  {
    if r > 0 {
      LevelWidth(cs, r - 1);
      LevelsNext(cs, r - 1);
      LeafCountNextLevel(Levels(cs)[r - 1]);
    }
  }

  /** Every header row, together with the leaf cells of the rows above that
      span down through it, covers exactly the leaf columns of the forest. */
  lemma HeaderRowWidth(roots: seq<GridColumn>, hiddenCheckbox: bool, hiddenGridIndex: bool,
                       checkedAll: Option<bool>, toolBarId: string, r: nat)
    requires r < |Levels(roots)|
    ensures var h := Header(roots, hiddenCheckbox, hiddenGridIndex, checkedAll, toolBarId);
            var off := if r == 0 then PrefixCount(hiddenCheckbox, hiddenGridIndex) else 0;
            r < |h| && off <= |h[r]| && LeavesAbove(roots, r) + SpanWidth(h[r][off..]) == LeafCount(roots)
  {
    var h := Header(roots, hiddenCheckbox, hiddenGridIndex, checkedAll, toolBarId);
    var maxDepth := ChildrenDepth(roots);
    HeaderShape(roots, hiddenCheckbox, hiddenGridIndex, checkedAll, toolBarId);
    LevelWidth(roots, r);
    if r == 0 {
      var p := Prefix(hiddenCheckbox, hiddenGridIndex, checkedAll, maxDepth);
      assert h[0][|p|..] == RootRow(roots, maxDepth, toolBarId);
      RootRowWidth(roots, maxDepth, toolBarId);
    } else {
      HeaderRow(roots, hiddenCheckbox, hiddenGridIndex, checkedAll, toolBarId, r);
      assert h[r][0..] == h[r];
      CellRowWidth(Levels(roots)[r], maxDepth, r);
    }
  }
}
