/** The coupon record and the category extractor of the coupon page:
    `[...new Set(coupons.map((coupon) => coupon.category))]`. */
module Coupons {

  /** One entry of the coupon list. `expiry` stays the raw date string. */
  datatype Coupon = Coupon(
    id: int,
    store: string,
    code: string,
    discount: string,
    description: string,
    expiry: string,
    category: string)

  /** `coupons.map((coupon) => coupon.category)`. */
  function Labels(cs: seq<Coupon>): (r: seq<string>)
    ensures |r| == |cs|
    ensures forall k :: 0 <= k < |cs| ==> r[k] == cs[k].category
  {
    seq(|cs|, k requires 0 <= k < |cs| => cs[k].category)
  }

  /** No value occurs twice in `s`. */
  predicate NoDuplicates(s: seq<string>) {
    forall i, j :: 0 <= i < j < |s| ==> s[i] != s[j]
  }

  /** Position of the first occurrence of `x` in `s`. */
  function IndexOf(s: seq<string>, x: string): (r: nat)
    requires x in s
    ensures r < |s| && s[r] == x
    ensures forall j :: 0 <= j < r ==> s[j] != x
  {
    if s[0] == x then 0 else 1 + IndexOf(s[1..], x)
  }

  /** Any position holding `x` with no earlier `x` is the one `IndexOf` returns. */
  lemma IndexOfUnique(s: seq<string>, x: string, k: nat)
    requires k < |s| && s[k] == x
    requires forall j :: 0 <= j < k ==> s[j] != x
    ensures IndexOf(s, x) == k
  {
  }

  /** Extending a sequence does not move the first occurrence of a value already in it. */
  lemma IndexOfExtend(s: seq<string>, y: string, x: string)
    requires x in s
    ensures IndexOf(s + [y], x) == IndexOf(s, x)
  {
    var t := s + [y];
    IndexOfUnique(t, x, IndexOf(s, x));
  }

  /** `[...new Set(s)]`: the values of `s`, each once, in the order a JavaScript
      `Set` keeps them (insertion order, so first occurrence wins). Each element
      is offered to the set in turn and appended only when not yet present. */
  function Distinct(s: seq<string>): (r: seq<string>)
    ensures NoDuplicates(r)
    ensures forall x :: x in r <==> x in s
    ensures forall i, j :: 0 <= i < j < |r| ==> IndexOf(s, r[i]) < IndexOf(s, r[j])
  {
    if s == [] then []
    else
      var p := s[..|s| - 1];
      var x := s[|s| - 1];
      assert s == p + [x];
      var rp := Distinct(p);
      forall y | y in p ensures IndexOf(s, y) == IndexOf(p, y) {
        IndexOfExtend(p, x, y);
      }
      if x in rp then rp
      else
        assert IndexOf(s, x) == |p| by {
          IndexOfUnique(s, x, |p|);
        }
        rp + [x]
  }

  /** The category chips of the page: the distinct categories of `cs` in
      first-seen order. */
  function Categories(cs: seq<Coupon>): (r: seq<string>)
    ensures NoDuplicates(r)
    ensures forall x :: x in r <==> x in Labels(cs)
    ensures forall i, j :: 0 <= i < j < |r| ==> IndexOf(Labels(cs), r[i]) < IndexOf(Labels(cs), r[j])
  {
    Distinct(Labels(cs))
  }

  /** The chips never repeat a category. */
  lemma CategoriesNoDuplicates(cs: seq<Coupon>)
    ensures NoDuplicates(Categories(cs))
  {
  }

  /** A string is a chip exactly when some coupon carries it as its category. */
  lemma {:induction false} CategoriesExact(cs: seq<Coupon>, x: string)
    ensures x in Categories(cs) <==> exists k :: 0 <= k < |cs| && cs[k].category == x
  {
    var ls := Labels(cs);
    if x in ls {
      var k := IndexOf(ls, x);
      assert cs[k].category == x;
    }
    if exists k :: 0 <= k < |cs| && cs[k].category == x {
      var k :| 0 <= k < |cs| && cs[k].category == x;
      assert ls[k] == x;
    }
  }

  /** Chips come in the order in which their categories first occur among the coupons. */
  lemma CategoriesFirstSeenOrder(cs: seq<Coupon>)
    ensures forall i, j :: 0 <= i < j < |Categories(cs)| ==>
      IndexOf(Labels(cs), Categories(cs)[i]) < IndexOf(Labels(cs), Categories(cs)[j])
  {
  }

  /** No coupons, no chips. */
  lemma CategoriesEmpty()
    ensures Categories([]) == []
  {
  }

  /** `Distinct` is the only sequence that lists the values of `s` once each in
      first-occurrence order: the three properties determine the chip list. */
  lemma {:induction false} DistinctUnique(s: seq<string>, u: seq<string>)
    requires NoDuplicates(u)
    requires forall x :: x in u <==> x in s
    requires forall i, j :: 0 <= i < j < |u| ==> IndexOf(s, u[i]) < IndexOf(s, u[j])
    ensures u == Distinct(s)
  {
    SameOrderedSets(s, u, Distinct(s));
  }

  /** Two duplicate-free sequences with the same elements, both ordered by first
      occurrence in `s`, are equal. */
  lemma {:induction false} SameOrderedSets(s: seq<string>, u: seq<string>, v: seq<string>)
    requires NoDuplicates(u) && NoDuplicates(v)
    requires forall x :: x in u <==> x in v
    requires forall x :: x in u ==> x in s
    requires forall i, j :: 0 <= i < j < |u| ==> IndexOf(s, u[i]) < IndexOf(s, u[j])
    requires forall i, j :: 0 <= i < j < |v| ==> IndexOf(s, v[i]) < IndexOf(s, v[j])
    ensures u == v
    decreases |u|
  {
    if u == [] {
      assert forall k :: 0 <= k < |v| ==> v[k] in v;
    } else {
      assert u[0] in v;
      SameHeads(s, u, v);
      SameTails(u, v);
      SameOrderedSets(s, u[1..], v[1..]);
      assert u == [u[0]] + u[1..] && v == [v[0]] + v[1..];
    }
  }

  /** Both sequences start with the element whose first occurrence in `s` comes first. */
  lemma SameHeads(s: seq<string>, u: seq<string>, v: seq<string>)
    requires u != [] && v != []
    requires forall x :: x in u <==> x in v
    requires forall x :: x in u ==> x in s
    requires forall i, j :: 0 <= i < j < |u| ==> IndexOf(s, u[i]) < IndexOf(s, u[j])
    requires forall i, j :: 0 <= i < j < |v| ==> IndexOf(s, v[i]) < IndexOf(s, v[j])
    ensures u[0] == v[0]
  {
    assert u[0] in v && v[0] in u;
    var i :| 0 <= i < |u| && u[i] == v[0];
    var j :| 0 <= j < |v| && v[j] == u[0];
    assert IndexOf(s, u[0]) <= IndexOf(s, u[i]);
    assert IndexOf(s, v[0]) <= IndexOf(s, v[j]);
  }

  /** Removing a common, unrepeated head leaves sequences with the same elements. */
  lemma SameTails(u: seq<string>, v: seq<string>)
    requires u != [] && v != [] && u[0] == v[0]
    requires NoDuplicates(u) && NoDuplicates(v)
    requires forall x :: x in u <==> x in v
    ensures forall x :: x in u[1..] <==> x in v[1..]
  {
    forall x | x in u[1..] ensures x in v[1..] {
      var i :| 1 <= i < |u| && u[i] == x;
      assert x in v;
      var j :| 0 <= j < |v| && v[j] == x;
      assert j != 0;
      assert v[1..][j - 1] == x;
    }
    forall x | x in v[1..] ensures x in u[1..] {
      var j :| 1 <= j < |v| && v[j] == x;
      assert x in u;
      var i :| 0 <= i < |u| && u[i] == x;
      assert i != 0;
      assert u[1..][i - 1] == x;
    }
  }

  /** The three chip properties determine the chip list: any duplicate-free
      list of exactly the coupons' categories, in first-seen order, is it. */
  lemma CategoriesCharacterized(cs: seq<Coupon>, u: seq<string>)
    requires NoDuplicates(u)
    requires forall x :: x in u <==> x in Labels(cs)
    requires forall i, j :: 0 <= i < j < |u| ==> IndexOf(Labels(cs), u[i]) < IndexOf(Labels(cs), u[j])
    ensures u == Categories(cs)
  {
    DistinctUnique(Labels(cs), u);
  }
}
