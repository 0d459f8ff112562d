/**
  Table-level defaults of the LayUI data-table tag helper: the page size and
  the page-size choices, the `limit` and `height` options handed to the grid
  runtime, the data source, and the identifiers derived from the list view
  model's unique id.
*/
module TableConfig {
  import opened Common

  const TABLE_ID_PREFIX := "wtTable_"
  const TABLE_JSVAR_PREFIX := "wtVar_"
  const TABLE_TOOLBAR_PREFIX := "wtToolBar_"

  /** The page-size choices used when the caller gives none. */
  const DefaultLimits: seq<int> := [10, 20, 50, 80, 100, 150, 200]

  /** The page size used when paging and no page size is known. */
  const FallbackLimit := 50

  const PagingDataUrl := "/_Framework/GetPagingData"

  // ---------------------------------------------------------------------------
  // Sorting the page-size choices
  // ---------------------------------------------------------------------------

  predicate Sorted(s: seq<int>) {
    forall i, j :: 0 <= i < j < |s| ==> s[i] <= s[j]
  }

  predicate StrictlyIncreasing(s: seq<int>) {
    forall i, j :: 0 <= i < j < |s| ==> s[i] < s[j]
  }

  /** Inserts `x` into the ascending sequence `s`, before the first larger element. */
  function InsertSorted(x: int, s: seq<int>): seq<int> {
    if s == [] then [x]
    else if x < s[0] then [x] + s
    else [s[0]] + InsertSorted(x, s[1..])
  }

  /** `OrderBy(v => v)`: the elements of `s` in ascending order, by inserting
      the last element into the ordered rest. */
  function OrderBy(s: seq<int>): seq<int> {
    if s == [] then [] else InsertSorted(s[|s| - 1], OrderBy(s[..|s| - 1]))
  }

  /** Every element of a sequence holding the elements of `s` and `x` is `x` or an element of `s`. */
  lemma MembersOfInsert(s: seq<int>, x: int, rest: seq<int>)
    requires multiset(rest) == multiset(s) + multiset{x}
    ensures forall k :: 0 <= k < |rest| ==> rest[k] == x || rest[k] in s
  {
    forall k | 0 <= k < |rest| ensures rest[k] == x || rest[k] in s {
      assert rest[k] in multiset(rest);
    }
  }

  /** A bound below every element of `s` and below `x` is below every element
      of a sequence holding `s` and `x`; put first, it keeps `rest` ascending. */
  lemma BoundedAbove(h: int, s: seq<int>, x: int, rest: seq<int>)
    requires Sorted([h] + s) && h <= x && Sorted(rest)
    requires multiset(rest) == multiset(s) + multiset{x}
    ensures Sorted([h] + rest)
  {
    MembersOfInsert(s, x, rest);
    forall k | 0 <= k < |rest| ensures h <= rest[k] {
      if rest[k] != x {
        var j :| 0 <= j < |s| && s[j] == rest[k];
        assert ([h] + s)[0] == h && ([h] + s)[j + 1] == s[j];
        assert h <= s[j];
      }
    }
  }

  /** An element no larger than the head of an ascending sequence can be put before it. */
  lemma SortedCons(h: int, s: seq<int>)
    requires Sorted(s) && s != [] && h <= s[0]
    ensures Sorted([h] + s)
  {
    forall i, j | 0 <= i < j < |s| + 1 ensures ([h] + s)[i] <= ([h] + s)[j] {
      if i == 0 {
        assert s[0] <= s[j - 1];
      }
    }
  }

  /** Inserting into an ascending sequence keeps it ascending and adds exactly the one element. */
  lemma {:induction false} InsertSortedSpec(x: int, s: seq<int>)
    requires Sorted(s)
    ensures Sorted(InsertSorted(x, s)) && multiset(InsertSorted(x, s)) == multiset(s) + multiset{x}
    decreases |s|
  {
    if s != [] && x < s[0] {
      SortedCons(x, s);
    } else if s != [] {
      var rest := InsertSorted(x, s[1..]);
      assert s == [s[0]] + s[1..];
      InsertSortedSpec(x, s[1..]);
      BoundedAbove(s[0], s[1..], x, rest);
    }
  }

  /** Ordering yields an ascending permutation of its input. */
  lemma {:induction false} OrderBySpec(s: seq<int>)
    ensures Sorted(OrderBy(s)) && multiset(OrderBy(s)) == multiset(s)
    decreases |s|
  {
    if s != [] {
      var init, last := s[..|s| - 1], s[|s| - 1];
      OrderBySpec(init);
      InsertSortedSpec(last, OrderBy(init));
      assert s == init + [last];
    }
  }

  lemma {:induction false} InsertSortedAtEnd(x: int, s: seq<int>)
    requires Sorted(s) && forall k :: 0 <= k < |s| ==> s[k] <= x
    ensures InsertSorted(x, s) == s + [x]
    decreases |s|
  {
    if s != [] {
      InsertSortedAtEnd(x, s[1..]);
      assert s == [s[0]] + s[1..];
    }
  }

  /** Dropping the last element of an ascending sequence leaves an ascending
      sequence whose elements are all at most the dropped one. */
  lemma SortedInit(s: seq<int>)
    requires Sorted(s) && s != []
    ensures Sorted(s[..|s| - 1])
    ensures forall k :: 0 <= k < |s| - 1 ==> s[k] <= s[|s| - 1]
  {
  }

  /** Ordering an ascending sequence leaves it unchanged. */
  lemma {:induction false} OrderBySorted(s: seq<int>)
    requires Sorted(s)
    ensures OrderBy(s) == s
    decreases |s|
  {
    if s != [] {
      var init, last := s[..|s| - 1], s[|s| - 1];
      SortedInit(s);
      OrderBySorted(init);
      InsertSortedAtEnd(last, init);
      assert init + [last] == s;
    }
  }

  /** Inserting a new value into a strictly increasing sequence keeps it strictly increasing. */
  lemma {:induction false} InsertStrict(x: int, s: seq<int>)
    requires StrictlyIncreasing(s) && x !in s
    ensures StrictlyIncreasing(InsertSorted(x, s))
    decreases |s|
  {
    if s != [] && x < s[0] {
      SortedCons(x, s);
    } else if s != [] {
      var rest := InsertSorted(x, s[1..]);
      InsertStrict(x, s[1..]);
      InsertSortedSpec(x, s[1..]);
      MembersOfInsert(s[1..], x, rest);
      assert forall k :: 0 <= k < |rest| ==> rest[k] > s[0];
      assert InsertSorted(x, s) == [s[0]] + rest;
    }
  }

  /** The page-size choices when the caller sets none: the defaults, with the
      page size added and the list sorted if it is not among them. */
  function DefaultedLimits(limit: int): seq<int> {
    if limit in DefaultLimits then DefaultLimits else OrderBy(DefaultLimits + [limit])
  }

  /** The defaulted choices are strictly increasing (so they have no
      duplicates), hold the page size, and hold nothing but the defaults and
      the page size. */
  lemma DefaultedLimitsChoices(limit: int)
    ensures var r := DefaultedLimits(limit);
            && StrictlyIncreasing(r)
            && limit in r
            && forall x :: x in r <==> x in DefaultLimits || x == limit
  {
    DefaultLimitsIncreasing();
    if limit !in DefaultLimits {
      InsertIntoDefaults(limit);
    }
  }

  lemma DefaultLimitsIncreasing()
    ensures StrictlyIncreasing(DefaultLimits)
  {
  }

  /** Sorting the defaults with a new page size appended inserts it in place. */
  lemma InsertIntoDefaults(limit: int)
    requires limit !in DefaultLimits
    ensures var r := OrderBy(DefaultLimits + [limit]);
            StrictlyIncreasing(r) && forall x :: x in r <==> x in DefaultLimits || x == limit
  {
    var list := DefaultLimits + [limit];
    assert list[..|list| - 1] == DefaultLimits;
    DefaultLimitsIncreasing();
    OrderBySorted(DefaultLimits);
    InsertStrict(limit, DefaultLimits);
    InsertSortedSpec(limit, DefaultLimits);
    var r := OrderBy(list);
    assert r == InsertSorted(limit, DefaultLimits);
    forall x
      ensures x in r <==> x in DefaultLimits || x == limit
    {
      assert x in r <==> x in multiset(r);
      assert x in DefaultLimits <==> x in multiset(DefaultLimits);
    }
  }

  // ---------------------------------------------------------------------------
  // Options handed to the grid runtime
  // ---------------------------------------------------------------------------

  /** The `limit` option: the page size when paging; without paging, the
      number of entities when they are handed over inline, else 0. */
  function EmittedLimit(page: bool, limit: Option<int>, useLocalData: bool, entityCount: nat): int {
    if page then limit.GetOr(FallbackLimit) else if useLocalData then entityCount else 0
  }

  /** The `limits` option: only when paging; an unset or empty list falls back to the defaults. */
  function EmittedLimits(page: bool, limits: Option<seq<int>>): (r: Option<seq<int>>)
    ensures r.Some? <==> page
    ensures r.Some? ==> r.value != []
    ensures page && limits.Some? && limits.value != [] ==> r == limits
  {
    if !page then None
    else if limits.None? || limits.value == [] then Some(DefaultLimits)
    else limits
  }

  /** Where the rows come from: a URL (the framework's paging endpoint unless
      the caller names one or the data is inline) and/or inline data. */
  datatype DataSource = DataSource(url: Option<string>, inlineData: bool)

  function DataSourceOf(useLocalData: bool, url: string): (d: DataSource)
    ensures d.url.Some? || d.inlineData
    ensures d.url.Some? && d.inlineData <==> useLocalData && url != ""
    ensures d.inlineData == useLocalData
    ensures !useLocalData ==> d.url == Some(if url == "" then PagingDataUrl else url)
    ensures useLocalData ==> d.url == (if url == "" then None else Some(url))
  {
    var effective := if !useLocalData && url == "" then PagingDataUrl else url;
    DataSource(if effective == "" then None else Some(effective), useLocalData)
  }

  /** The height of the table: `Auto` when unset, a fixed number of pixels,
      or "fill the window minus `gap` pixels" (gap > 0). */
  datatype HeightSetting = Auto | Fixed(px: nat) | FullMinus(gap: nat)

  function DecodeHeight(s: HeightSetting): Option<int> {
    match s
    case Auto => None
    case Fixed(px) => Some(px)
    case FullMinus(gap) => Some(-(gap as int))
  }

  /** A non-negative height is a fixed height; a negative height -N means 'full-N'. */
  function EncodeHeight(h: Option<int>): (s: HeightSetting)
    ensures DecodeHeight(s) == h
    ensures s.FullMinus? ==> s.gap > 0
  {
    match h
    case None => Auto
    case Some(v) => if v >= 0 then Fixed(v) else FullMinus(-v)
  }

  function DigitChar(d: nat): (c: char)
    requires d < 10
    ensures IsDigit(c) && c as int - '0' as int == d
  {
    ('0' as int + d) as char
  }

  /** Decimal digits of `n`. */
  function NatToString(n: nat): (s: string)
    ensures |s| >= 1 && forall k :: 0 <= k < |s| ==> IsDigit(s[k])
    decreases n
  {
    if n < 10 then [DigitChar(n)] else NatToString(n / 10) + [DigitChar(n % 10)]
  }

  /** `int.ToString()`: a minus sign before the digits of a negative number. */
  function IntToString(v: int): string {
    if v < 0 then "-" + NatToString(-v) else NatToString(v)
  }

  predicate IsDigit(c: char) {
    '0' <= c <= '9'
  }

  function ParseNat(s: string): nat
    requires forall k :: 0 <= k < |s| ==> IsDigit(s[k])
    decreases |s|
  {
    if s == [] then 0
    else
      assert IsDigit(s[|s| - 1]);
      ParseNat(s[..|s| - 1]) * 10 + (s[|s| - 1] as int - '0' as int) as nat
  }

  /** Reading back the digits gives the number. */
  lemma {:induction false} ParseNatToString(n: nat)
    ensures ParseNat(NatToString(n)) == n
    decreases n
  {
    if n >= 10 {
      ParseNatToString(n / 10);
      var s := NatToString(n);
      assert s[..|s| - 1] == NatToString(n / 10);
    }
  }

  /** The `height` option as the tag helper writes it. */
  function HeightOption(h: Option<int>): (r: string)
    ensures r == "" <==> h.None?
  {
    match h
    case None => ""
    case Some(v) => if v >= 0 then ",height: " + IntToString(v) else ",height: 'full" + IntToString(v) + "'"
  }

  /** The paging options the grid receives once `Process` has defaulted the
      page size to the configured rows per page and the choices to
      `DefaultedLimits`: when paging, the page size is the caller's or the
      configured one (the fallback of 50 is then never used) and the choices
      are never empty, hold the page size when defaulted, and are the
      caller's own when given; without paging there are no choices, and the
      page size is the number of inline entities, or 0. */
  lemma EmittedPagingOptions(rpp: int, callerLimit: Option<int>, callerLimits: Option<seq<int>>,
                             page: bool, useLocalData: bool, entityCount: nat)
    ensures var limit := Some(callerLimit.GetOr(rpp));
            var limits := if callerLimits.None? then Some(DefaultedLimits(limit.value)) else callerLimits;
            var l := EmittedLimit(page, limit, useLocalData, entityCount);
            var ls := EmittedLimits(page, limits);
            && (page ==> l == callerLimit.GetOr(rpp) && ls.Some? && ls.value != [])
            && (page && callerLimits.None? ==> l in ls.value && StrictlyIncreasing(ls.value))
            && (page && callerLimits.Some? && callerLimits.value != [] ==> ls == callerLimits)
            && (page && callerLimits == Some([]) ==> ls == Some(DefaultLimits))
            && (!page ==> ls.None? && l == (if useLocalData then entityCount else 0))
  {
    DefaultedLimitsChoices(callerLimit.GetOr(rpp));
  }

  /** The written option is the height setting: the digits of a fixed height,
      or 'full-' followed by the digits of the gap, and the digits read back
      as the number. */
  lemma HeightOptionText(h: Option<int>)
    ensures var s := EncodeHeight(h);
            match s
            case Auto => HeightOption(h) == ""
            case Fixed(px) => HeightOption(h) == ",height: " + NatToString(px) && ParseNat(NatToString(px)) == px
            case FullMinus(gap) => HeightOption(h) == ",height: 'full-" + NatToString(gap) + "'" && ParseNat(NatToString(gap)) == gap
  {
    match h
    case None =>
    case Some(v) =>
      if v >= 0 {
        ParseNatToString(v);
      } else {
        ParseNatToString(-v);
      }
  }

  // ---------------------------------------------------------------------------
  // Identifiers
  // ---------------------------------------------------------------------------

  /** The `Id` getter: the cached id, else the caller's id, else one derived from the unique id. */
  function TableId(cached: string, userSet: string, uniqueId: string): string {
    if cached != "" then cached else if userSet == "" then TABLE_ID_PREFIX + uniqueId else userSet
  }

  /** The `TableJSVar` getter: the cached name, else one derived from the caller's id or the unique id. */
  function TableJSVarName(cached: string, userSet: string, uniqueId: string): string {
    if cached != "" then cached else TABLE_JSVAR_PREFIX + (if userSet == "" then uniqueId else userSet)
  }

  function ToolBarId(uniqueId: string): string {
    TABLE_TOOLBAR_PREFIX + uniqueId
  }

  /** The derived identifiers are never empty, differ from one another, and
      differ between view models with different unique ids. */
  lemma DerivedIdentifiers(u1: string, u2: string)
    ensures TableId("", "", u1) != "" && TableJSVarName("", "", u1) != ""
    ensures TableId("", "", u1) != TableJSVarName("", "", u1)
    ensures TableId("", "", u1) != ToolBarId(u1) && TableJSVarName("", "", u1) != ToolBarId(u1)
    ensures u1 != u2 ==> TableId("", "", u1) != TableId("", "", u2)
    ensures u1 != u2 ==> TableJSVarName("", "", u1) != TableJSVarName("", "", u2)
    ensures u1 != u2 ==> ToolBarId(u1) != ToolBarId(u2)
  {
    assert (TABLE_ID_PREFIX + u1)[2] == 'T';
    assert (TABLE_JSVAR_PREFIX + u1)[2] == 'V';
    assert (TABLE_TOOLBAR_PREFIX + u1)[2] == 'T' && (TABLE_TOOLBAR_PREFIX + u1)[3] == 'o';
    assert (TABLE_ID_PREFIX + u1)[3] == 'a';
    if u1 != u2 {
      assert (TABLE_ID_PREFIX + u1)[|TABLE_ID_PREFIX|..] == u1;
      assert (TABLE_ID_PREFIX + u2)[|TABLE_ID_PREFIX|..] == u2;
      assert (TABLE_JSVAR_PREFIX + u1)[|TABLE_JSVAR_PREFIX|..] == u1;
      assert (TABLE_JSVAR_PREFIX + u2)[|TABLE_JSVAR_PREFIX|..] == u2;
      assert (TABLE_TOOLBAR_PREFIX + u1)[|TABLE_TOOLBAR_PREFIX|..] == u1;
      assert (TABLE_TOOLBAR_PREFIX + u2)[|TABLE_TOOLBAR_PREFIX|..] == u2;
    }
  }
}
