/** The filter engine of the coupon page: `coupons.filter(...)` with the
    search-match and category-match predicates. */
module Filter {
  import opened Text
  import opened Coupons

  /** `searchQuery === ''`, or the lower-cased query occurs in the lower-cased
      store, code or description. */
  predicate MatchesSearch(c: Coupon, query: string) {
    query == ""
    || Contains(LowerStr(c.store), LowerStr(query))
    || Contains(LowerStr(c.code), LowerStr(query))
    || Contains(LowerStr(c.description), LowerStr(query))
  }

  /** `selectedCategory === ''` (the "All Deals" sentinel), or an exact,
      case-sensitive match on the coupon's category. */
  predicate MatchesCategory(c: Coupon, selected: string) {
    selected == "" || c.category == selected
  }

  /** The callback given to `filter`: both conditions must hold. */
  predicate Keep(c: Coupon, query: string, selected: string) {
    MatchesSearch(c, query) && MatchesCategory(c, selected)
  }

  /** `Array.prototype.filter` with `Keep`: walks the list front to back and
      keeps the coupons the callback accepts. */
  function FilterCoupons(cs: seq<Coupon>, query: string, selected: string): (r: seq<Coupon>)
    ensures |r| <= |cs|
    ensures forall c :: c in r ==> c in cs && Keep(c, query, selected)
  {
    if cs == [] then []
    else
      var rest := FilterCoupons(cs[1..], query, selected);
      if Keep(cs[0], query, selected) then [cs[0]] + rest else rest
  }

  /** `a` is obtained from `b` by deleting elements, keeping the rest in order. */
  predicate IsSubsequence(a: seq<Coupon>, b: seq<Coupon>)
    decreases |b|
  {
    if a == [] then true
    else if b == [] then false
    else (a[0] == b[0] && IsSubsequence(a[1..], b[1..])) || IsSubsequence(a, b[1..])
  }

  /** The result is a subsequence of the input: nothing is reordered or invented. */
  lemma {:induction false} FilterSubsequence(cs: seq<Coupon>, query: string, selected: string)
    ensures IsSubsequence(FilterCoupons(cs, query, selected), cs)
    decreases |cs|
  {
    if cs != [] {
      FilterSubsequence(cs[1..], query, selected);
      var rest := FilterCoupons(cs[1..], query, selected);
      if Keep(cs[0], query, selected) {
        assert ([cs[0]] + rest)[1..] == rest;
      } else if rest != [] {
        assert IsSubsequence(rest, cs);
      }
    }
  }

  /** A coupon is shown exactly when it is in the list and passes both conditions. */
  lemma {:induction false} FilterMembership(cs: seq<Coupon>, query: string, selected: string, c: Coupon)
    ensures c in FilterCoupons(cs, query, selected) <==> c in cs && Keep(c, query, selected)
    decreases |cs|
  {
    if cs != [] {
      FilterMembership(cs[1..], query, selected, c);
      assert c in cs <==> c == cs[0] || c in cs[1..];
    }
  }

  /** `FilterMembership` for every coupon at once. */
  lemma {:induction false} FilterMembershipAll(cs: seq<Coupon>, query: string, selected: string)
    ensures forall c :: c in FilterCoupons(cs, query, selected) <==> c in cs && Keep(c, query, selected)
  {
    forall c ensures c in FilterCoupons(cs, query, selected) <==> c in cs && Keep(c, query, selected) {
      FilterMembership(cs, query, selected, c);
    }
  }

  /** Each kept coupon appears as often as in the input, each dropped one never:
      the filter neither duplicates nor loses a matching entry. */
  lemma {:induction false} FilterMultiplicity(cs: seq<Coupon>, query: string, selected: string, c: Coupon)
    ensures multiset(FilterCoupons(cs, query, selected))[c]
         == if Keep(c, query, selected) then multiset(cs)[c] else 0
    decreases |cs|
  {
    if cs != [] {
      FilterMultiplicity(cs[1..], query, selected, c);
      assert cs == [cs[0]] + cs[1..];
      assert multiset(cs) == multiset([cs[0]]) + multiset(cs[1..]);
      var rest := FilterCoupons(cs[1..], query, selected);
      assert multiset([cs[0]] + rest) == multiset([cs[0]]) + multiset(rest);
    }
  }

  /** `FilterMultiplicity` for every coupon at once. */
  lemma {:induction false} FilterMultiplicityAll(cs: seq<Coupon>, query: string, selected: string)
    ensures forall c :: multiset(FilterCoupons(cs, query, selected))[c]
                     == if Keep(c, query, selected) then multiset(cs)[c] else 0
  {
    forall c ensures multiset(FilterCoupons(cs, query, selected))[c]
                  == if Keep(c, query, selected) then multiset(cs)[c] else 0 {
      FilterMultiplicity(cs, query, selected, c);
    }
  }

  /** Filtering distributes over concatenation: the kept coupons come out in input order. */
  lemma {:induction false} FilterAppend(a: seq<Coupon>, b: seq<Coupon>, query: string, selected: string)
    ensures FilterCoupons(a + b, query, selected)
         == FilterCoupons(a, query, selected) + FilterCoupons(b, query, selected)
    decreases |a|
  {
    if a != [] {
      assert (a + b)[1..] == a[1..] + b;
      FilterAppend(a[1..], b, query, selected);
    } else {
      assert a + b == b;
    }
  }

  /** When every coupon passes, the result is the whole list. */
  lemma {:induction false} FilterAllKept(cs: seq<Coupon>, query: string, selected: string)
    requires forall k :: 0 <= k < |cs| ==> Keep(cs[k], query, selected)
    ensures FilterCoupons(cs, query, selected) == cs
    decreases |cs|
  {
    if cs != [] {
      assert Keep(cs[0], query, selected);
      FilterAllKept(cs[1..], query, selected);
    }
  }

  /** With an empty query and the "All Deals" sentinel every coupon is shown, in order. */
  lemma {:induction false} FilterIdentity(cs: seq<Coupon>)
    ensures FilterCoupons(cs, "", "") == cs
  {
    FilterAllKept(cs, "", "");
  }

  /** Filtering the result again with the same query and category changes nothing. */
  lemma {:induction false} FilterIdempotent(cs: seq<Coupon>, query: string, selected: string)
    ensures FilterCoupons(FilterCoupons(cs, query, selected), query, selected)
         == FilterCoupons(cs, query, selected)
  {
    var r := FilterCoupons(cs, query, selected);
    assert forall k :: 0 <= k < |r| ==> r[k] in r;
    FilterAllKept(r, query, selected);
  }

  /** Queries with the same lower-casing select the same coupons. */
  lemma {:induction false} FilterCaseInsensitive(cs: seq<Coupon>, q1: string, q2: string, selected: string)
    requires LowerStr(q1) == LowerStr(q2)
    ensures FilterCoupons(cs, q1, selected) == FilterCoupons(cs, q2, selected)
    decreases |cs|
  {
    LowerStrEmpty(q1);
    LowerStrEmpty(q2);
    if cs != [] {
      assert Keep(cs[0], q1, selected) == Keep(cs[0], q2, selected);
      FilterCaseInsensitive(cs[1..], q1, q2, selected);
    }
  }

  /** With a category selected, a coupon of any other category (even one that
      differs only in letter case) is never shown. */
  lemma {:induction false} FilterCategoryExact(cs: seq<Coupon>, query: string, selected: string, c: Coupon)
    requires selected != "" && c.category != selected
    ensures c !in FilterCoupons(cs, query, selected)
  {
    FilterMembership(cs, query, selected, c);
  }

  /** With the sentinel, the category never excludes a coupon. */
  lemma {:induction false} FilterAnyCategory(cs: seq<Coupon>, query: string, c: Coupon)
    ensures c in FilterCoupons(cs, query, "") <==> c in cs && MatchesSearch(c, query)
  {
    FilterMembership(cs, query, "", c);
  }

  /** An empty result from a non-empty list means that a query or a category is set. */
  lemma {:induction false} NoResultsMeansActiveFilter(cs: seq<Coupon>, query: string, selected: string)
    requires cs != [] && FilterCoupons(cs, query, selected) == []
    ensures query != "" || selected != ""
  {
    FilterIdentity(cs);
  }
}
