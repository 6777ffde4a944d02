# Coupon Finder: filter and category model

This project models the client-side logic of the Coupon Finder page (`app/page.tsx`).
The page holds a fixed list of coupon records. It derives the list of category chips from the records.
It keeps two pieces of view state, the search query and the selected category, and shows the coupons that pass both filters.

Modules:

- `Text` (`text.dfy`): ASCII lower-casing, which stands in for `toLowerCase`, and substring search, which stands in for `includes`.
  `Contains` is proved equal to the positional definition "the needle occurs at some index".
- `Coupons` (`coupons.dfy`): the `Coupon` record and the category extractor `[...new Set(coupons.map(c => c.category))]`.
  `Distinct` adds each value the first time it is seen, which is the insertion order of a JavaScript `Set`.
  Its contract says the result has no duplicates, has exactly the input's values, and lists them in first-occurrence order.
  `DistinctUnique` proves these three properties determine the list.
- `Filter` (`filter.dfy`): the search-match and category-match predicates and the order-preserving filter, with its properties.
  These are subsequence, membership in both directions, multiplicity, identity under the empty filters, idempotence, case-insensitive search and exact category match.
- `View` (`view.dfy`): class `CouponFinder`. It has the constant coupon list, the two mutable strings, their setters and `ClearFilters`.
  The derived reads `Visible`, `ResultCount`, `TotalCount`, `CategoryList` and `ShowsClearButton` are recomputed from the current fields on every call, so no cached value can go stale.
- `Scenarios` (`scenarios.dfy`): a two-coupon list (Amazon/Electronics, Nike/Fashion) with the searches and chip selections worked out.
  It also has a client method `Session` that drives a `CouponFinder` through them.

The coupon list that the page imports from `data/coupons.json` is a constructor parameter here.

## Model

| member | source | states |
|---|---|---|
| `Text.Lower` | app/page.tsx:32-34 | Maps each ASCII upper-case letter to its lower-case letter and leaves every other character unchanged. No result is an upper-case letter. |
| `Text.LowerStr` | app/page.tsx:32-34 | The lowered string has the input's length, and each character is the `Lower` of the input character at the same position. |
| `Text.LowerStrIdempotent` | app/page.tsx:32-34 | Lower-casing an already lower-cased string changes nothing. |
| `Text.ContainsIffOccurs` | app/page.tsx:32-34 | `includes` holds exactly when the needle occurs at some index of the haystack. |
| `Text.ContainsEmpty` | app/page.tsx:32-34 | Every string includes the empty string. |
| `Coupons.Labels` | app/page.tsx:25 | `coupons.map(c => c.category)`: one entry per coupon, and entry k is coupon k's category. |
| `Coupons.Distinct` | app/page.tsx:25 | The `Set` spread has no duplicates and has exactly the values of the input. Any two results appear in the order of their first occurrence in the input. |
| `Coupons.DistinctUnique` | app/page.tsx:25 | Any duplicate-free list of exactly the input's values, in first-occurrence order, equals the `Set` spread. |
| `Coupons.Categories` | app/page.tsx:24-26 | The chip list has no duplicates and holds exactly the coupons' categories. Any two chips appear in the order of their category's first occurrence among the coupons. |
| `Coupons.CategoriesNoDuplicates` | app/page.tsx:24-26 | No category chip appears twice. |
| `Coupons.CategoriesExact` | app/page.tsx:24-26 | A string is a chip if and only if some coupon has it as its `category`. |
| `Coupons.CategoriesFirstSeenOrder` | app/page.tsx:24-26 | Chips are ordered by the position of their category's first occurrence in the coupon list. |
| `Coupons.CategoriesEmpty` | app/page.tsx:24-26 | An empty coupon list gives no chips. |
| `Coupons.CategoriesCharacterized` | app/page.tsx:24-26 | The chip list is the only duplicate-free, first-seen-ordered list of exactly the coupons' categories. |
| `Filter.FilterCoupons` | app/page.tsx:28-41 | The result is never longer than the input. Every coupon in it comes from the input and passes both the search and the category condition. |
| `Filter.FilterSubsequence` | app/page.tsx:29 | The result is a subsequence of the coupon list: kept coupons keep their relative order. |
| `Filter.FilterMembership` | app/page.tsx:30-39 | A coupon is in the result if and only if it is in the list, matches the query, and matches the selected category. |
| `Filter.FilterMembershipAll` | app/page.tsx:30-39 | The same equivalence, for all coupons at once. |
| `Filter.FilterMultiplicity` | app/page.tsx:29-40 | A kept coupon appears as many times as in the input. A rejected one does not appear at all. |
| `Filter.FilterMultiplicityAll` | app/page.tsx:29-40 | The same multiplicity statement, for all coupons at once. |
| `Filter.FilterAppend` | app/page.tsx:29 | Filtering a concatenation gives the concatenation of the filtered parts. |
| `Filter.FilterAllKept` | app/page.tsx:29-40 | When every coupon passes, the result is the whole list. |
| `Filter.FilterIdentity` | app/page.tsx:31-37 | With query `''` and category `''`, the result is exactly the coupon list. |
| `Filter.FilterIdempotent` | app/page.tsx:28-41 | Filtering the result again with the same query and category returns it unchanged. |
| `Filter.FilterCaseInsensitive` | app/page.tsx:32-34 | Two queries that lower-case to the same string select the same coupons. |
| `Filter.FilterCategoryExact` | app/page.tsx:37 | With a category selected, a coupon whose category differs from it in any way (case included) is never shown. |
| `Filter.FilterAnyCategory` | app/page.tsx:37 | With the `''` sentinel, a coupon is shown if and only if it is in the list and matches the query. |
| `Filter.NoResultsMeansActiveFilter` | app/page.tsx:104-117 | If a non-empty list filters to nothing, the query or the category is set. So "Show all coupons" always has something to clear. |
| `View.CouponFinder.constructor` | app/page.tsx:19-22 | Both strings start as `''`, and all coupons are visible. |
| `View.CouponFinder.CategoryList` | app/page.tsx:24-26 | The chips have no duplicates and are exactly the coupons' categories. They appear in first-seen order, which is the `Set` insertion order in which they are rendered. |
| `View.CouponFinder.Visible` | app/page.tsx:28-41 | The shown list is a subsequence of the coupons. It holds exactly the coupons that pass the current query and category. Each passing coupon appears as many times as in the list, so repeated entries are all kept. |
| `View.CouponFinder.ResultCount` | app/page.tsx:84-85 | The "Showing" count is the length of the shown list and at most the total count. It is zero only when the list is empty or a filter is set. |
| `View.CouponFinder.ShowsClearButton` | app/page.tsx:87 | The clear button shows if and only if the query or the category is non-empty. When it is hidden, every coupon is visible. |
| `View.CouponFinder.SetSearchQuery` | app/page.tsx:75 | Replaces the query with any string. The category is unchanged. |
| `View.CouponFinder.SetSelectedCategory` | app/page.tsx:78 | Replaces the category with any string. The query is unchanged. |
| `View.CouponFinder.ClearFilters` | app/page.tsx:89-92 | Sets both strings to `''`. Afterwards every coupon is visible and the shown count equals the total. The "Show all coupons" handler at lines 110-113 is the same. |
| `Scenarios.SearchByStore` | app/page.tsx:32 | Query "amazon" over [Amazon, Nike] gives [Amazon]. |
| `Scenarios.SelectCategory` | app/page.tsx:37 | Category "Fashion" with an empty query gives [Nike]. |
| `Scenarios.SearchWithoutMatch` | app/page.tsx:30-34 | Query "zzz" gives an empty list. |
| `Scenarios.SearchAndCategoryBothRequired` | app/page.tsx:39 | Query "save10" matches Amazon's code, but category "Fashion" still gives an empty list. |
| `Scenarios.CategoryCaseMatters` | app/page.tsx:37 | Category "fashion" matches neither coupon, because "Fashion" differs in case. |

## Left out

- Loading `data/coupons.json` (app/page.tsx:6, 22): the list is an opaque constructor argument. The uniqueness of `id` is neither assumed nor used.
- `Text.Lower`: models ASCII lower-casing only. The full Unicode `toLowerCase` and its length-changing cases are not modelled.
- React rendering, JSX markup and `useMemo` caching: the derived reads are functions of the current fields, so they are always recomputed.
- The two `setState` calls of a clear handler, which React renders together, are one method here. No intermediate state between them is observable.
- `components/CouponCard.tsx` is not part of this model: clipboard copy with a timer, the wall-clock expiry check with floating-point day arithmetic, date formatting, and emoji and style tables.
- `components/SearchBar.tsx` is not part of this model: it only forwards the input text, `''` and chip values to the two setters, and its icon table is cosmetic.
- `Coupons.Coupon` is the record type of app/page.tsx:8-16 and has no contract. All seven fields are kept, and `discount`, `expiry` and `id` are carried without being interpreted.
- `Text.Contains` (app/page.tsx:32-34, `includes`) has no contract of its own. `Text.ContainsIffOccurs` states its meaning and `Text.ContainsEmpty` states its empty-needle case.
- `Filter.MatchesSearch` (app/page.tsx:30-34), `Filter.MatchesCategory` (app/page.tsx:36-37) and `Filter.Keep` (app/page.tsx:39) are predicates with no contract of their own. Their behaviour is stated by `Filter.FilterMembership`, `Filter.FilterCaseInsensitive`, `Filter.FilterCategoryExact`, `Filter.FilterAnyCategory` and `Filter.FilterIdentity`.
- `View.CouponFinder.TotalCount` has no contract of its own: it is the length of the constant list, and `ResultCount` and `ClearFilters` state what matters about it.
