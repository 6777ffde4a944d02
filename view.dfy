/** The view state of the coupon page: the two strings held with `useState`,
    their setters, the clear-filters handlers and the values the page derives
    from them on every render. */
module View {
  import opened Coupons
  import opened Filter

  class CouponFinder {
    /** The coupon list loaded from the data file; it never changes. */
    const coupons: seq<Coupon>
    /** The text typed into the search box. */
    var searchQuery: string
    /** The selected category chip, or `""` for "All Deals". */
    var selectedCategory: string

    /** A fresh page: both strings start empty, so every coupon is visible. */
    constructor (data: seq<Coupon>)
      ensures coupons == data
      ensures searchQuery == "" && selectedCategory == ""
      ensures Visible() == data
    {
      coupons := data;
      searchQuery := "";
      selectedCategory := "";
      new;
      FilterIdentity(data);
    }

    /** The category chips, recomputed from the (constant) coupon list. */
    function CategoryList(): (r: seq<string>)
      ensures NoDuplicates(r)
      ensures forall x :: x in r <==> x in Labels(coupons)
      ensures forall i, j :: 0 <= i < j < |r| ==>
        IndexOf(Labels(coupons), r[i]) < IndexOf(Labels(coupons), r[j])
    {
      Categories(coupons)
    }

    /** The coupons on screen, recomputed from the current state. */
    function Visible(): (r: seq<Coupon>)
      reads this
      ensures IsSubsequence(r, coupons)
      ensures forall c :: c in r <==> c in coupons && Keep(c, searchQuery, selectedCategory)
      ensures forall c :: multiset(r)[c]
                       == if Keep(c, searchQuery, selectedCategory) then multiset(coupons)[c] else 0
    {
      FilterSubsequence(coupons, searchQuery, selectedCategory);
      FilterMembershipAll(coupons, searchQuery, selectedCategory);
      FilterMultiplicityAll(coupons, searchQuery, selectedCategory);
      FilterCoupons(coupons, searchQuery, selectedCategory)
    }

    /** The "Showing N" figure. */
    function ResultCount(): (n: nat)
      reads this
      ensures n == |Visible()|
      ensures n <= TotalCount()
      ensures n == 0 ==> coupons == [] || searchQuery != "" || selectedCategory != ""
    {
      var r := Visible();
      if r == [] && coupons != [] then
        NoResultsMeansActiveFilter(coupons, searchQuery, selectedCategory);
        |r|
      else
        |r|
    }

    /** The "of M coupons" figure. */
    function TotalCount(): nat {
      |coupons|
    }

    /** The "Clear filters" button is rendered while a query or a category is set;
        when it is hidden, every coupon is already visible. */
    predicate ShowsClearButton(): (b: bool)
      reads this
      ensures b <==> searchQuery != "" || selectedCategory != ""
      ensures !b ==> Visible() == coupons
    {
      if searchQuery == "" && selectedCategory == "" then
        FilterIdentity(coupons);
        false
      else
        true
    }

    /** `setSearchQuery`: replaces the query, whatever it is; the category stays. */
    method SetSearchQuery(query: string)
      modifies this
      ensures searchQuery == query
      ensures selectedCategory == old(selectedCategory)
    {
      searchQuery := query;
    }

    /** `setSelectedCategory`: replaces the category, whatever it is (an unknown
        one simply matches nothing); the query stays. */
    method SetSelectedCategory(selected: string)
      modifies this
      ensures selectedCategory == selected
      ensures searchQuery == old(searchQuery)
    {
      selectedCategory := selected;
    }

    /** The "Clear filters" and "Show all coupons" handlers: both strings back
        to `""`, after which every coupon is visible again. */
    method ClearFilters()
      modifies this
      ensures searchQuery == "" && selectedCategory == ""
      ensures Visible() == coupons
      ensures ResultCount() == TotalCount()
    {
      searchQuery := "";
      selectedCategory := "";
      FilterIdentity(coupons);
    }
  }
}
