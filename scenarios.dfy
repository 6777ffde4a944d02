/** Worked examples: a two-coupon list and the filter states a user can reach. */
module Scenarios {
  import opened Text
  import opened Coupons
  import opened Filter
  import opened View

  const AmazonDeal := Coupon(1, "Amazon", "SAVE10", "10% off", "10% off electronics", "2026-12-31", "Electronics")
  const NikeDeal := Coupon(2, "Nike", "RUN20", "20% off", "20% off running kit", "2026-11-30", "Fashion")

  /** A haystack whose first character differs from the needle's is searched from its second. */
  lemma SkipMismatch(h: string, n: string)
    requires |h| > 0 && |n| > 0 && h[0] != n[0]
    ensures Contains(h, n) == Contains(h[1..], n)
  {
    if |n| <= |h| {
      assert h[..|n|][0] != n[0];
    }
  }

  /** The lower-cased fields of the two coupons. */
  lemma LoweredFields()
    ensures LowerStr(AmazonDeal.store) == "amazon"
    ensures LowerStr(AmazonDeal.code) == "save10"
    ensures LowerStr(AmazonDeal.description) == "10% off electronics"
    ensures LowerStr(NikeDeal.store) == "nike"
    ensures LowerStr(NikeDeal.code) == "run20"
    ensures LowerStr(NikeDeal.description) == "20% off running kit"
  {
  }

  /** "amazon" matches the Amazon coupon by its store. */
  lemma AmazonMatchesAmazon()
    ensures MatchesSearch(AmazonDeal, "amazon")
  {
    LoweredFields();
    assert LowerStr("amazon") == "amazon";
    assert IsPrefix("amazon", "amazon");
  }

  /** A lower-case query of six or more characters whose first character is
      absent from "20% off running kit" matches no field of the Nike coupon. */
  lemma NikeMisses(q: string)
    requires LowerStr(q) == q && |q| > 5 && q[0] !in "20% off running kit"
    ensures !MatchesSearch(NikeDeal, q)
  {
    LoweredFields();
    ContainsTooLong("nike", q);
    ContainsTooLong("run20", q);
    ContainsFirstCharMissing("20% off running kit", q);
  }

  /** "amazon" holds a 'z' but no "zzz". */
  lemma ZzzNotInAmazon()
    ensures !Contains("amazon", "zzz")
  {
    assert "amazon"[1..] == "mazon" && "mazon"[1..] == "azon" && "azon"[1..] == "zon";
    SkipMismatch("amazon", "zzz");
    SkipMismatch("mazon", "zzz");
    SkipMismatch("azon", "zzz");
    assert "zon"[..3][1] != "zzz"[1];
    ContainsTooLong("zon"[1..], "zzz");
  }

  /** "zzz" occurs in neither the lower-cased code nor description of the Amazon coupon. */
  lemma ZzzNotInAmazonCode()
    ensures !Contains("save10", "zzz") && !Contains("10% off electronics", "zzz")
  {
    ContainsFirstCharMissing("save10", "zzz");
    ContainsFirstCharMissing("10% off electronics", "zzz");
  }

  /** "zzz" matches no field of the Amazon coupon. */
  lemma AmazonMissesZzz()
    ensures !MatchesSearch(AmazonDeal, "zzz")
  {
    LoweredFields();
    assert LowerStr("zzz") == "zzz";
    ZzzNotInAmazon();
    ZzzNotInAmazonCode();
  }

  /** "zzz" matches no field of the Nike coupon. */
  lemma NikeMissesZzz()
    ensures !MatchesSearch(NikeDeal, "zzz")
  {
    LoweredFields();
    assert LowerStr("zzz") == "zzz";
    ContainsFirstCharMissing("nike", "zzz");
    ContainsFirstCharMissing("run20", "zzz");
    ContainsFirstCharMissing("20% off running kit", "zzz");
  }

  /** "save10", Amazon's code, matches no field of the Nike coupon. */
  lemma NikeMissesSave10()
    ensures !MatchesSearch(NikeDeal, "save10")
  {
    assert LowerStr("save10") == "save10";
    NikeMisses("save10");
  }

  /** Searching "amazon" finds the Amazon coupon only. */
  lemma SearchByStore()
    ensures FilterCoupons([AmazonDeal, NikeDeal], "amazon", "") == [AmazonDeal]
  {
    AmazonMatchesAmazon();
    assert !MatchesSearch(NikeDeal, "amazon") by {
      assert LowerStr("amazon") == "amazon";
      NikeMisses("amazon");
    }
  }

  /** The "Fashion" chip with an empty query shows the Nike coupon only. */
  lemma SelectCategory()
    ensures FilterCoupons([AmazonDeal, NikeDeal], "", "Fashion") == [NikeDeal]
  {
  }

  /** A query that matches nothing empties the list. */
  lemma SearchWithoutMatch()
    ensures FilterCoupons([AmazonDeal, NikeDeal], "zzz", "") == []
  {
    AmazonMissesZzz();
    NikeMissesZzz();
  }

  /** Both conditions must hold: "save10" matches Amazon's code, but the
      "Fashion" chip excludes it. */
  lemma SearchAndCategoryBothRequired()
    ensures MatchesSearch(AmazonDeal, "save10")
    ensures FilterCoupons([AmazonDeal, NikeDeal], "save10", "Fashion") == []
  {
    assert MatchesSearch(AmazonDeal, "save10") by {
      LoweredFields();
      assert LowerStr("save10") == "save10";
      assert IsPrefix("save10", "save10");
    }
    assert !Keep(AmazonDeal, "save10", "Fashion") by {
      assert !MatchesCategory(AmazonDeal, "Fashion");
    }
    NikeMissesSave10();
  }

  /** Category matching does not fold case: "fashion" is not "Fashion". */
  lemma CategoryCaseMatters()
    ensures FilterCoupons([AmazonDeal, NikeDeal], "", "fashion") == []
  {
  }

  /** The same session through the page state: type, pick a chip, clear. */
  method Session()
  {
    var page := new CouponFinder([AmazonDeal, NikeDeal]);
    assert page.CategoryList() == ["Electronics", "Fashion"] by {
      var ls := Labels([AmazonDeal, NikeDeal]);
      assert ls == ["Electronics", "Fashion"];
      assert IndexOf(ls, "Electronics") == 0 && IndexOf(ls, "Fashion") == 1;
      CategoriesCharacterized([AmazonDeal, NikeDeal], ["Electronics", "Fashion"]);
    }
    page.SetSearchQuery("amazon");
    SearchByStore();
    assert page.Visible() == [AmazonDeal];
    page.SetSearchQuery("zzz");
    SearchWithoutMatch();
    assert page.ResultCount() == 0 && page.TotalCount() == 2;
    page.SetSearchQuery("save10");
    page.SetSelectedCategory("Fashion");
    SearchAndCategoryBothRequired();
    assert page.Visible() == [];
    page.ClearFilters();
    assert page.Visible() == [AmazonDeal, NikeDeal];
  }
}
