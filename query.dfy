/**
 * The read-only handlers over a snapshot of the store: the filtered and
 * paginated listing, the name search and the per-category counts.
 */
module Query {
  import opened Wrappers
  import opened Catalog
  import JsArray
  import JsString

  const DefaultPage := 1
  const DefaultLimit := 5

  // ---------------------------------------------------------------- listing

  /** Case-insensitive equality of a product's category with a query value. */
  function SameCategoryAs(q: string): Product -> bool {
    (p: Product) => JsString.Lower(p.category) == JsString.Lower(q)
  }

  /** The category filter; an absent or empty query filters nothing. */
  function FilterByCategory(s: seq<Product>, category: Option<string>): seq<Product> {
    if JsString.Truthy(category) then JsArray.Filter(s, SameCategoryAs(category.value)) else s
  }

  /** `parseInt(x) || fallback`, with `None` for a value that parses to NaN. */
  function OrDefault(parsed: Option<int>, fallback: int): int {
    if parsed.Some? && parsed.value != 0 then parsed.value else fallback
  }

  datatype ListPage = ListPage(total: nat, page: int, limit: int, products: seq<Product>)

  /** GET /api/products: filter, then `slice((page - 1) * limit, (page - 1) * limit + limit)`. */
  function ListProducts(s: seq<Product>, category: Option<string>, page: Option<int>, limit: Option<int>): ListPage {
    var result := FilterByCategory(s, category);
    var pg := OrDefault(page, DefaultPage);
    var lim := OrDefault(limit, DefaultLimit);
    var start := (pg - 1) * lim;
    ListPage(|result|, pg, lim, JsArray.Slice(result, start, start + lim))
  }

  /**
   * The filtered set keeps store order and holds exactly the records whose
   * lower-cased category equals the lower-cased query (every record when
   * the query is absent or empty), each as often as in the store; `total`
   * is its length whatever the page.
   */
  lemma FilteredExactly(s: seq<Product>, category: Option<string>, page: Option<int>, limit: Option<int>)
    ensures var f := FilterByCategory(s, category);
      && ListProducts(s, category, page, limit).total == |f|
      && JsArray.Subseq(f, s)
      && (forall p :: p in f <==> p in s && (!JsString.Truthy(category) || SameCategoryAs(category.value)(p)))
      && (forall p :: multiset(f)[p] ==
            if !JsString.Truthy(category) || SameCategoryAs(category.value)(p) then multiset(s)[p] else 0)
  {
    if JsString.Truthy(category) {
      JsArray.FilterSubseq(s, SameCategoryAs(category.value));
      forall p ensures multiset(FilterByCategory(s, category))[p] ==
        if SameCategoryAs(category.value)(p) then multiset(s)[p] else 0
      {
        JsArray.FilterMultiplicity(s, SameCategoryAs(category.value), p);
      }
    } else {
      JsArray.SubseqReflexive(s);
    }
  }

  /** `page` and `limit` fall back to 1 and 5 on NaN or 0; every other value, negative ones too, is kept. */
  lemma PageDefaults(s: seq<Product>, category: Option<string>, page: Option<int>, limit: Option<int>)
    ensures var r := ListProducts(s, category, page, limit);
      && (page.None? || page == Some(0) ==> r.page == 1)
      && (page.Some? && page.value != 0 ==> r.page == page.value)
      && (limit.None? || limit == Some(0) ==> r.limit == 5)
      && (limit.Some? && limit.value != 0 ==> r.limit == limit.value)
  {
  }

  lemma MulNonNegative(a: int, b: int)
    requires 0 <= a && 0 <= b
    ensures 0 <= a * b
  {
  }

  /**
   * For a positive page and limit the page is the contiguous run
   * `[(page-1)*limit, min(page*limit, total))` of the filtered set: at
   * most `limit` long, and empty once the start reaches `total`.
   */
  lemma PageWindow(s: seq<Product>, category: Option<string>, page: Option<int>, limit: Option<int>)
    requires page.None? || page.value >= 0
    requires limit.None? || limit.value >= 0
    ensures var r := ListProducts(s, category, page, limit);
      var f := FilterByCategory(s, category);
      var start := (r.page - 1) * r.limit;
      && r.page >= 1 && r.limit >= 1
      && |r.products| <= r.limit
      && (start >= |f| ==> r.products == [])
      && (start < |f| ==> r.products == f[start..if start + r.limit < |f| then start + r.limit else |f|])
  {
    var r := ListProducts(s, category, page, limit);
    var f := FilterByCategory(s, category);
    MulNonNegative(r.page - 1, r.limit);
    var start := (r.page - 1) * r.limit;
    var stop := if start + r.limit < |f| then start + r.limit else |f|;
    if start < |f| {
      assert JsArray.Resolve(start, |f|) == start;
      assert JsArray.Resolve(start + r.limit, |f|) == stop;
      assert r.products == f[start..stop];
    }
  }

  /** The second page of one-record pages over three records is the second record; page 10 is empty. */
  lemma SecondOfThree(a: Product, b: Product, c: Product)
    ensures ListProducts([a, b, c], None, Some(2), Some(1)) == ListPage(3, 2, 1, [b])
    ensures ListProducts([a, b, c], None, Some(10), Some(1)) == ListPage(3, 10, 1, [])
  {
    PageWindow([a, b, c], None, Some(2), Some(1));
  }

  /**
   * A negative page is kept, so the slice starts at a negative index and
   * counts back from the end of the filtered set.
   */
  lemma NegativePageCountsFromEnd(s: seq<Product>, category: Option<string>, page: int, limit: Option<int>)
    requires page < 0
    requires limit.None? || limit.value > 0
    ensures var r := ListProducts(s, category, Some(page), limit);
      var f := FilterByCategory(s, category);
      var start := |f| + (page - 1) * r.limit;
      var stop := |f| + page * r.limit;
      r.products == if stop <= 0 then [] else f[if start < 0 then 0 else start..stop]
  {
    var r := ListProducts(s, category, Some(page), limit);
    MulNonNegative(-page, r.limit);
    assert (page - 1) * r.limit == page * r.limit - r.limit;
  }

  // ----------------------------------------------------------------- search

  /** The lower-cased name contains the lower-cased term. */
  function NameContains(term: string): Product -> bool {
    (p: Product) => JsString.Includes(JsString.Lower(p.name), JsString.Lower(term))
  }

  /** GET /api/products/search/:name, unpaginated. */
  function Search(s: seq<Product>, term: string): seq<Product> {
    JsArray.Filter(s, NameContains(term))
  }

  /** One record is found exactly when it is stored and its name contains the term. */
  lemma SearchMember(s: seq<Product>, term: string, p: Product)
    ensures p in Search(s, term) <==>
      (p in s && exists i :: JsString.OccursAt(JsString.Lower(p.name), JsString.Lower(term), i))
  {
    var name, t := JsString.Lower(p.name), JsString.Lower(term);
    assert NameContains(term)(p) == JsString.Includes(name, t);
    JsString.IncludesIff(name, t);
    if p in Search(s, term) {
      assert p in s && NameContains(term)(p);
      var i :| JsString.OccursAt(name, t, i);
      assert JsString.OccursAt(JsString.Lower(p.name), JsString.Lower(term), i);
    }
    if p in s && exists i :: JsString.OccursAt(JsString.Lower(p.name), JsString.Lower(term), i) {
      assert NameContains(term)(p);
      assert p in JsArray.Filter(s, NameContains(term));
    }
    // The two directions of the postcondition, restated here with the facts above in scope:
    // without them the verifier does not close the postcondition.
    assert p in Search(s, term) ==>
      (p in s && exists i :: JsString.OccursAt(JsString.Lower(p.name), JsString.Lower(term), i));
    assert (p in s && exists i :: JsString.OccursAt(JsString.Lower(p.name), JsString.Lower(term), i)) ==>
      p in Search(s, term);
  }

  /**
   * The search returns, in store order, exactly the records whose
   * lower-cased name contains the lower-cased term, each as often as in
   * the store; with no such record the answer is the empty list.
   */
  lemma SearchExactly(s: seq<Product>, term: string)
    ensures var r := Search(s, term);
      && JsArray.Subseq(r, s)
      && (forall p :: p in r <==>
            (p in s && exists i :: JsString.OccursAt(JsString.Lower(p.name), JsString.Lower(term), i)))
      && (forall p :: multiset(r)[p] == if NameContains(term)(p) then multiset(s)[p] else 0)
      && ((forall p :: p in s ==> !NameContains(term)(p)) ==> r == [])
  {
    var r := Search(s, term);
    JsArray.FilterSubseq(s, NameContains(term));
    forall p ensures p in r <==>
      (p in s && exists i :: JsString.OccursAt(JsString.Lower(p.name), JsString.Lower(term), i))
    {
      SearchMember(s, term, p);
    }
    forall p ensures multiset(r)[p] == if NameContains(term)(p) then multiset(s)[p] else 0 {
      JsArray.FilterMultiplicity(s, NameContains(term), p);
    }
    if r != [] {
      assert r[0] in r;
    }
  }

  // ------------------------------------------------------------------ stats

  /**
   * GET /api/products/stats: `reduce` over the store, left to right,
   * counting each category as stored (case-sensitive). Present counts are
   * at least 1, so `acc[c] || 0` is `acc[c]` when `c` is a key.
   */
  function Stats(s: seq<Product>): (m: map<string, nat>)
    decreases |s|
  {
    if s == [] then map[]
    else
      var acc := Stats(s[..|s| - 1]);
      var c := s[|s| - 1].category;
      acc[c := (if c in acc then acc[c] else 0) + 1]
  }

  function CategoryIs(c: string): Product -> bool {
    (p: Product) => p.category == c
  }

  /** The number of stored records in category `c`, an independent reference for `Stats`. */
  function Count(s: seq<Product>, c: string): nat {
    |JsArray.Filter(s, CategoryIs(c))|
  }

  /** Stats maps each stored category, and only those, to its record count. */
  lemma {:induction false} StatsCounts(s: seq<Product>, c: string)
    ensures c in Stats(s) <==> Count(s, c) > 0
    ensures c in Stats(s) ==> Stats(s)[c] == Count(s, c)
    decreases |s|
  {
    if s != [] {
      var init, last := s[..|s| - 1], s[|s| - 1];
      StatsCounts(init, c);
      assert s == init + [last];
      JsArray.FilterAppend(init, [last], CategoryIs(c));
    }
  }

  /**
   * The categories in order of first appearance: the key order the JavaScript
   * stats object would have (the response's map carries no order).
   */
  function Keys(s: seq<Product>): seq<string>
    decreases |s|
  {
    if s == [] then []
    else
      var ks := Keys(s[..|s| - 1]);
      var c := s[|s| - 1].category;
      if c in ks then ks else ks + [c]
  }

  ghost predicate Distinct(ks: seq<string>) {
    forall i, j :: 0 <= i < j < |ks| ==> ks[i] != ks[j]
  }

  function Get(m: map<string, nat>, k: string): nat {
    if k in m then m[k] else 0
  }

  /** The sum of the counts stored under the keys `ks`. */
  function SumOver(m: map<string, nat>, ks: seq<string>): nat
    decreases |ks|
  {
    if ks == [] then 0 else Get(m, ks[0]) + SumOver(m, ks[1..])
  }

  lemma {:induction false} SumOverAppend(m: map<string, nat>, ks: seq<string>, k: string)
    ensures SumOver(m, ks + [k]) == SumOver(m, ks) + Get(m, k)
    decreases |ks|
  {
    if ks != [] {
      assert (ks + [k])[1..] == ks[1..] + [k];
      SumOverAppend(m, ks[1..], k);
    }
  }

  lemma {:induction false} SumOverOutside(m: map<string, nat>, ks: seq<string>, k: string, v: nat)
    requires k !in ks
    ensures SumOver(m[k := v], ks) == SumOver(m, ks)
    decreases |ks|
  {
    if ks != [] {
      SumOverOutside(m, ks[1..], k, v);
    }
  }

  lemma {:induction false} SumOverIncrement(m: map<string, nat>, ks: seq<string>, k: string)
    requires k in ks && Distinct(ks)
    ensures SumOver(m[k := Get(m, k) + 1], ks) == SumOver(m, ks) + 1
    decreases |ks|
  {
    if ks[0] == k {
      assert k !in ks[1..];
      SumOverOutside(m, ks[1..], k, Get(m, k) + 1);
    } else {
      SumOverIncrement(m, ks[1..], k);
    }
  }

  /**
   * The stats keys are distinct and are exactly the stored categories,
   * and the counts under them sum to the number of stored records.
   */
  lemma {:induction false} StatsSumIsSize(s: seq<Product>)
    ensures Distinct(Keys(s))
    ensures forall c :: c in Keys(s) <==> c in Stats(s)
    ensures SumOver(Stats(s), Keys(s)) == |s|
    decreases |s|
  {
    if s != [] {
      var init, c := s[..|s| - 1], s[|s| - 1].category;
      StatsSumIsSize(init);
      var m, ks := Stats(init), Keys(init);
      assert Stats(s) == m[c := Get(m, c) + 1];
      if c in ks {
        SumOverIncrement(m, ks, c);
      } else {
        SumOverAppend(m[c := 1], ks, c);
        SumOverOutside(m, ks, c, 1);
      }
    }
  }

  /** No records, no categories; two records of one category count 2. */
  lemma StatsExamples(a: Product, b: Product)
    requires a.category == b.category
    ensures Stats([]) == map[]
    ensures Stats([a, b]) == map[a.category := 2]
  {
    assert [a, b][..1] == [a];
  }
}
