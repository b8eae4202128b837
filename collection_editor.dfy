/** The admin table (`CollectionEditor`): a search over chosen record fields, a
    page size that defaults to ten, the page count and the rows of the current
    page, with the "No records found." row and the pagination control. */
module CollectionEditor {
  import opened Wrappers
  import opened Text
  import opened Seqs
  import opened Paging

  /** A record field's value, as far as the search reads it; `Null` stands for
      `null` and for a missing field (`undefined`). */
  datatype Value = Str(s: string) | Num(n: int) | Bool(b: bool) | Null

  /** One record of `data`, field name to value. */
  type Row = map<string, Value>

  const DefaultItemsPerPage: PageSize := 10

  /** `itemsPerPage = 10`: the default applies when no size is passed. */
  function ItemsPerPage(prop: Option<PageSize>): (size: PageSize)
    ensures prop.None? ==> size == 10
    ensures prop.Some? ==> size == prop.value
  {
    prop.GetOr(DefaultItemsPerPage)
  }

  /** `item[key]`. */
  function Field(item: Row, key: string): Value {
    if key in item then item[key] else Null
  }

  predicate Truthy(v: Value) {
    match v
    case Str(s) => s != ""
    case Num(n) => n != 0
    case Bool(b) => b
    case Null => false
  }

  /** `String(value)`. */
  function ValueString(v: Value): string {
    match v
    case Str(s) => s
    case Num(n) => IntString(n)
    case Bool(b) => if b then "true" else "false"
    case Null => "null"
  }

  /** The test inside `searchKeys.some(...)`: a truthy value whose lower-cased
      text contains the lower-cased term. */
  predicate KeyMatches(item: Row, key: string, term: string) {
    var v := Field(item, key);
    Truthy(v) && Contains(ToLower(ValueString(v)), ToLower(term))
  }

  predicate ItemMatches(item: Row, searchKeys: seq<string>, term: string) {
    exists i :: 0 <= i < |searchKeys| && KeyMatches(item, searchKeys[i], term)
  }

  /** `filteredData`: all of `data` for an empty term, otherwise the records in
      which some search key matches, in their original order. */
  function FilteredData(data: seq<Row>, searchKeys: seq<string>, searchTerm: string): (r: seq<Row>)
    ensures searchTerm == "" ==> r == data
    ensures IsSubsequence(r, data)
    ensures searchTerm != "" ==>
              forall x :: x in r <==> x in data && ItemMatches(x, searchKeys, searchTerm)
    ensures searchTerm != "" ==>
              forall x :: multiset(r)[x] == if ItemMatches(x, searchKeys, searchTerm) then multiset(data)[x] else 0
  {
    if searchTerm == "" then
      IsSubsequenceRefl(data);
      data
    else
      Filter(data, x => ItemMatches(x, searchKeys, searchTerm))
  }

  /** With no search keys, a non-empty term keeps no record. */
  lemma NoSearchKeysKeepNothing(data: seq<Row>, searchTerm: string)
    requires searchTerm != ""
    ensures FilteredData(data, [], searchTerm) == []
  {
    FilterKeepsNone(data, x => ItemMatches(x, [], searchTerm));
  }

  /** A falsy field (empty text, 0, false, null or missing) never matches, not
      even a term equal to its rendering: a 0 is not found by searching "0". */
  lemma FalsyFieldNeverMatches(item: Row, key: string, term: string)
    requires !Truthy(Field(item, key))
    ensures !KeyMatches(item, key, term)
    ensures Field(item, key) == Num(0) ==> Contains(ToLower(ValueString(Field(item, key))), "0")
  {
    if Field(item, key) == Num(0) {
      assert ToLower(IntString(0)) == "0";
    }
  }

  /** `totalPages`. */
  function TotalPages(filtered: seq<Row>, itemsPerPage: PageSize): (pages: nat)
    ensures |filtered| <= pages * itemsPerPage
    ensures pages > 0 ==> (pages - 1) * itemsPerPage < |filtered|
  {
    PageCount(|filtered|, itemsPerPage)
  }

  /** `paginatedData`. */
  function PaginatedData(filtered: seq<Row>, currentPage: int, itemsPerPage: PageSize): (page: seq<Row>)
    ensures |page| <= itemsPerPage
    ensures currentPage >= 1 ==>
              page == filtered[Min(PageStart(currentPage, itemsPerPage), |filtered|)..
                               Min(PageStart(currentPage, itemsPerPage) + itemsPerPage, |filtered|)]
  {
    PageAt(filtered, currentPage, itemsPerPage)
  }

  /** The page slice is empty (the "No records found." row) exactly when its start
      `(currentPage - 1) * itemsPerPage` is at or past the end of the filtered rows. */
  lemma PageSliceShape(filtered: seq<Row>, currentPage: int, itemsPerPage: PageSize)
    requires currentPage >= 1
    ensures PaginatedData(filtered, currentPage, itemsPerPage) == [] <==>
              (currentPage - 1) * itemsPerPage >= |filtered|
  {
    PageEmptyIff(filtered, currentPage, itemsPerPage);
    var n := PageCount(|filtered|, itemsPerPage);
    if currentPage > n {
      MulMonotone(n, currentPage - 1, itemsPerPage);
    } else {
      MulMonotone(currentPage - 1, n - 1, itemsPerPage);
    }
  }

  /** The pagination control is shown exactly when the rows do not fit on one page. */
  lemma PaginationShownIffOverflow(filtered: seq<Row>, itemsPerPage: PageSize)
    ensures TotalPages(filtered, itemsPerPage) > 1 <==> |filtered| > itemsPerPage
  {
    var n := TotalPages(filtered, itemsPerPage);
    if n > 1 {
      MulMonotone(1, n - 1, itemsPerPage);
    }
  }

  /** The table's state: the current page and the search term. */
  datatype EditorState = EditorState(currentPage: int, searchTerm: string)

  const InitialEditorState := EditorState(1, "")

  /** The search box's `onChange` as written: only the term changes; the current
      page stays where it was. */
  function SetSearchTerm(st: EditorState, term: string): (r: EditorState)
    ensures r.searchTerm == term && r.currentPage == st.currentPage
  {
    st.(searchTerm := term)
  }

  /** The search box's `onChange` as evidently intended (and as the home page
      does it): the new term, and back to page 1. */
  function SetSearchTermResettingPage(st: EditorState, term: string): (r: EditorState)
    ensures r.searchTerm == term && r.currentPage == 1
  {
    EditorState(1, term)
  }

  /** The rows shown for a state. */
  function ShownRows(data: seq<Row>, searchKeys: seq<string>, itemsPerPage: PageSize, st: EditorState)
    : seq<Row>
  {
    PaginatedData(FilteredData(data, searchKeys, st.searchTerm), st.currentPage, itemsPerPage)
  }

  /** As written: on page 2, a search that leaves between one and `itemsPerPage`
      matches shows "No records found." although rows match. */
  lemma StalePageHidesMatches(data: seq<Row>, searchKeys: seq<string>, itemsPerPage: PageSize,
                              st: EditorState, term: string)
    requires st.currentPage == 2
    requires 1 <= |FilteredData(data, searchKeys, term)| <= itemsPerPage
    ensures FilteredData(data, searchKeys, SetSearchTerm(st, term).searchTerm) != []
    ensures ShownRows(data, searchKeys, itemsPerPage, SetSearchTerm(st, term)) == []
  {
    PageSliceShape(FilteredData(data, searchKeys, term), 2, itemsPerPage);
  }

  /** A concrete instance: ten records without a name and one named "Zed", ten
      per page, on page 2, then searching for "zed". */
  lemma StalePageExample()
    ensures var data := seq(10, _ => map[]) + [map["name" := Str("Zed")]];
            var st := SetSearchTerm(EditorState(2, ""), "zed");
            && |ShownRows(data, ["name"], DefaultItemsPerPage, EditorState(2, ""))| == 1
            && FilteredData(data, ["name"], "zed") == [map["name" := Str("Zed")]]
            && ShownRows(data, ["name"], DefaultItemsPerPage, st) == []
  {
    var blank: Row := map[];
    var zed: Row := map["name" := Str("Zed")];
    var data := seq(10, _ => blank) + [zed];
    assert !ItemMatches(blank, ["name"], "zed") by {
      FalsyFieldNeverMatches(blank, "name", "zed");
    }
    assert ItemMatches(zed, ["name"], "zed") by {
      assert ToLower("Zed") == "zed";
      assert ToLower("zed") == "zed";
      assert StartsWith("zed", "zed");
      assert KeyMatches(zed, ["name"][0], "zed");
    }
    FilterNoneThenOne(seq(10, _ => blank), zed, blank, x => ItemMatches(x, ["name"], "zed"));
    PageSliceShape(data, 2, DefaultItemsPerPage);
    PageSliceShape([zed], 2, DefaultItemsPerPage);
  }

  lemma {:induction false} FilterNoneThenOne(others: seq<Row>, y: Row, z: Row, p: Row -> bool)
    requires forall i :: 0 <= i < |others| ==> others[i] == z
    requires !p(z) && p(y)
    ensures Filter(others + [y], p) == [y]
    decreases |others|
  {
    if |others| > 0 {
      assert (others + [y])[1..] == others[1..] + [y];
      FilterNoneThenOne(others[1..], y, z, p);
    }
  }

  /** Without an `itemsPerPage` prop the table shows ten rows a page, and the
      pagination control appears once there are more than ten rows. */
  lemma DefaultPageSizeIsTen(filtered: seq<Row>)
    ensures |PaginatedData(filtered, 1, ItemsPerPage(None))| == Min(10, |filtered|)
    ensures TotalPages(filtered, ItemsPerPage(None)) > 1 <==> |filtered| > 10
  {
    PaginationShownIffOverflow(filtered, ItemsPerPage(None));
  }

  /** The current page is page 1 or one of the pages that exist. */
  predicate PageInRange(data: seq<Row>, searchKeys: seq<string>, itemsPerPage: PageSize, st: EditorState) {
    st.currentPage == 1 ||
    1 <= st.currentPage <= TotalPages(FilteredData(data, searchKeys, st.searchTerm), itemsPerPage)
  }

  /** With the page reset on every search, the page stays in range, and then
      "No records found." appears exactly when no record matches. */
  lemma ResettingSearchShowsMatches(data: seq<Row>, searchKeys: seq<string>, itemsPerPage: PageSize,
                                    st: EditorState, term: string)
    ensures PageInRange(data, searchKeys, itemsPerPage, SetSearchTermResettingPage(st, term))
    ensures var st' := SetSearchTermResettingPage(st, term);
            ShownRows(data, searchKeys, itemsPerPage, st') == [] <==>
              FilteredData(data, searchKeys, term) == []
  {
    PageEmptyIff(FilteredData(data, searchKeys, term), 1, itemsPerPage);
  }

  /** The table as first rendered is on page 1 with no search, and shows the first
      page of all the data. Page 1 exists exactly when there is data; without data
      there are no pages and nothing is shown. */
  lemma InitialEditorStateShowsFirstPage(data: seq<Row>, searchKeys: seq<string>, itemsPerPage: PageSize)
    ensures PageInRange(data, searchKeys, itemsPerPage, InitialEditorState)
    ensures var pages := TotalPages(FilteredData(data, searchKeys, InitialEditorState.searchTerm), itemsPerPage);
            (1 <= InitialEditorState.currentPage <= pages) <==> data != []
    ensures ShownRows(data, searchKeys, itemsPerPage, InitialEditorState) ==
              data[..Min(itemsPerPage, |data|)]
  {
  }

  /** Whenever the page is in range, the empty-table row means no record matches. */
  lemma NoRecordsIffNothingMatches(data: seq<Row>, searchKeys: seq<string>, itemsPerPage: PageSize,
                                   st: EditorState)
    requires PageInRange(data, searchKeys, itemsPerPage, st)
    ensures ShownRows(data, searchKeys, itemsPerPage, st) == [] <==>
              FilteredData(data, searchKeys, st.searchTerm) == []
  {
    var filtered := FilteredData(data, searchKeys, st.searchTerm);
    assert ShownRows(data, searchKeys, itemsPerPage, st) == PaginatedData(filtered, st.currentPage, itemsPerPage);
    PageEmptyIff(filtered, st.currentPage, itemsPerPage);
  }
}
