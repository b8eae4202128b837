/** The storefront home page: the category menu, the search-and-category filter,
    twenty products per page, and the page state with its guarded page change. */
module Home {
  import opened Wrappers
  import opened Text
  import opened Seqs
  import opened Paging

  const ProductsPerPage: PageSize := 20

  /** The menu entry that selects every category. */
  const AllCategories := "All"

  /** The product fields the page filters on. */
  datatype Product = Product(id: string, name: string, category: string)

  function CategoryList(ps: seq<Product>): (r: seq<string>)
    ensures |r| == |ps|
    ensures forall i :: 0 <= i < |ps| ==> r[i] == ps[i].category
  {
    seq(|ps|, i requires 0 <= i < |ps| => ps[i].category)
  }

  /** `categories`: "All", then each product category once, in the order the
      categories first appear; no options until the products have loaded. */
  function Categories(products: Option<seq<Product>>): (r: seq<string>)
    ensures products.None? ==> r == []
    ensures products.Some? ==> |r| >= 1 && r[0] == AllCategories
    ensures products.Some? ==> NoDuplicates(r[1..])
    ensures products.Some? ==>
              forall c :: c in r[1..] <==> exists i :: 0 <= i < |products.value| && products.value[i].category == c
  {
    match products
    case None => []
    case Some(ps) =>
      var cats := Distinct(CategoryList(ps));
      assert forall c :: c in cats <==> exists i :: 0 <= i < |ps| && ps[i].category == c by {
        forall c | c in cats ensures exists i :: 0 <= i < |ps| && ps[i].category == c {
          var i :| 0 <= i < |ps| && CategoryList(ps)[i] == c;
        }
        forall c | exists i :: 0 <= i < |ps| && ps[i].category == c ensures c in cats {
          var i :| 0 <= i < |ps| && ps[i].category == c;
          assert CategoryList(ps)[i] == c;
        }
      }
      assert ([AllCategories] + cats)[1..] == cats;
      [AllCategories] + cats
  }

  /** The categories after "All" are listed in the order in which the products
      first use them. */
  lemma CategoriesInFirstAppearanceOrder(ps: seq<Product>)
    ensures var tail := Categories(Some(ps))[1..];
            forall i, j :: 0 <= i < j < |tail| ==>
              FirstIndex(CategoryList(ps), tail[i]) < FirstIndex(CategoryList(ps), tail[j])
  {
    DistinctInFirstOccurrenceOrder(CategoryList(ps));
    assert Categories(Some(ps))[1..] == Distinct(CategoryList(ps));
  }

  /** The filter of `filteredProducts`: the lower-cased name contains the
      lower-cased search text, and the category is "All" or the product's own. */
  predicate Matches(p: Product, search: string, category: string) {
    Contains(ToLower(p.name), ToLower(search)) && (category == AllCategories || p.category == category)
  }

  /** `filteredProducts`: the matching products, in catalog order. */
  function FilteredProducts(products: Option<seq<Product>>, search: string, category: string)
    : (r: seq<Product>)
    ensures products.None? ==> r == []
    ensures products.Some? ==> IsSubsequence(r, products.value)
    ensures products.Some? ==>
              forall p :: p in r <==> p in products.value && Matches(p, search, category)
    ensures products.Some? ==>
              forall p :: multiset(r)[p] == if Matches(p, search, category) then multiset(products.value)[p] else 0
  {
    match products
    case None => []
    case Some(ps) => Filter(ps, p => Matches(p, search, category))
  }

  /** With no search text and "All" selected, every product is listed. */
  lemma EmptySearchListsAll(ps: seq<Product>)
    ensures FilteredProducts(Some(ps), "", AllCategories) == ps
  {
    forall p | p in ps ensures Matches(p, "", AllCategories) {
      assert ToLower("") == "";
    }
    FilterKeepsAll(ps, p => Matches(p, "", AllCategories));
  }

  /** Search texts that differ only in letter case give the same products. */
  lemma SearchIgnoresCase(products: Option<seq<Product>>, s1: string, s2: string, category: string)
    requires ToLower(s1) == ToLower(s2)
    ensures FilteredProducts(products, s1, category) == FilteredProducts(products, s2, category)
  {
    if products.Some? {
      FilterCongruent(products.value, p => Matches(p, s1, category), p => Matches(p, s2, category));
    }
  }

  /** `totalPages`. */
  function TotalPages(filtered: seq<Product>): (pages: nat)
    ensures |filtered| <= pages * 20
    ensures pages > 0 ==> (pages - 1) * 20 < |filtered|
  {
    PageCount(|filtered|, ProductsPerPage)
  }

  /** `paginatedProducts`. */
  function PaginatedProducts(filtered: seq<Product>, currentPage: int): (page: seq<Product>)
    ensures |page| <= 20
    ensures currentPage >= 1 ==>
              page == filtered[Min((currentPage - 1) * 20, |filtered|)..Min(currentPage * 20, |filtered|)]
  {
    PageAt(filtered, currentPage, ProductsPerPage)
  }

  /** Page `page` shows items `(page - 1) * 20` up to `page * 20` of the filtered
      list, never more than twenty, and pages `1..totalPages` together show every
      filtered product exactly once, in order. */
  lemma PaginationSplitsFiltered(filtered: seq<Product>, page: int)
    requires page >= 1
    ensures |PaginatedProducts(filtered, page)| <= 20
    ensures PaginatedProducts(filtered, page) ==
              filtered[Min((page - 1) * 20, |filtered|)..Min((page - 1) * 20 + 20, |filtered|)]
    ensures Pages(filtered, ProductsPerPage, TotalPages(filtered)) == filtered
  {
    AllPagesCoverAll(filtered, ProductsPerPage);
  }

  /** The Prev / page / Next controls are shown exactly when more than twenty
      products match. */
  lemma PaginationShownIffMoreThanOnePage(filtered: seq<Product>)
    ensures TotalPages(filtered) > 1 <==> |filtered| > 20
  {
    var n := TotalPages(filtered);
    if n > 1 {
      MulMonotone(1, n - 1, 20);
    }
  }

  /** The page's state: the search text, the selected category and the current page. */
  datatype HomeState = HomeState(search: string, category: string, currentPage: int)

  const InitialState := HomeState("", AllCategories, 1)

  function Filtered(products: Option<seq<Product>>, st: HomeState): seq<Product> {
    FilteredProducts(products, st.search, st.category)
  }

  /** `handlePageChange`: a page outside `1..totalPages` is ignored. */
  function HandlePageChange(products: Option<seq<Product>>, st: HomeState, page: int): (r: HomeState)
    ensures r.search == st.search && r.category == st.category
    ensures 1 <= page <= TotalPages(Filtered(products, st)) ==> r.currentPage == page
    ensures !(1 <= page <= TotalPages(Filtered(products, st))) ==> r == st
  {
    if page < 1 || page > TotalPages(Filtered(products, st)) then st
    else st.(currentPage := page)
  }

  /** Typing in the search box: new text, back to page 1. */
  function SetSearch(st: HomeState, text: string): (r: HomeState)
    ensures r.currentPage == 1 && r.search == text && r.category == st.category
  {
    st.(search := text, currentPage := 1)
  }

  /** Choosing a category: new category, back to page 1. */
  function SetCategory(st: HomeState, category: string): (r: HomeState)
    ensures r.currentPage == 1 && r.category == category && r.search == st.search
  {
    st.(category := category, currentPage := 1)
  }

  /** The current page is page 1 or one of the pages that exist. */
  predicate PageInRange(products: Option<seq<Product>>, st: HomeState) {
    st.currentPage == 1 || 1 <= st.currentPage <= TotalPages(Filtered(products, st))
  }

  /** Every transition of the page keeps the current page in range. */
  lemma TransitionsKeepPageInRange(products: Option<seq<Product>>, st: HomeState, text: string, page: int)
    requires PageInRange(products, st)
    ensures PageInRange(products, InitialState)
    ensures PageInRange(products, SetSearch(st, text))
    ensures PageInRange(products, SetCategory(st, text))
    ensures PageInRange(products, HandlePageChange(products, st, page))
  {
  }

  /** While the current page is in range, "No products match your criteria" is
      shown exactly when no product matches. */
  lemma NoMatchMessageIffNothingMatches(products: Option<seq<Product>>, st: HomeState)
    requires PageInRange(products, st)
    ensures PaginatedProducts(Filtered(products, st), st.currentPage) == [] <==> Filtered(products, st) == []
  {
    PageEmptyIff(Filtered(products, st), st.currentPage, ProductsPerPage);
  }
}
