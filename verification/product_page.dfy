/** The products page: the search filter over the loaded products, and the recovery of the
    size and colour lists from a product's variants when the edit dialog opens. */
module ProductPage {
  import opened Wrappers
  import opened Seqs
  import opened Ascii
  import opened ProductMutations

  datatype Product = Product(id: string, name: string, sku: string, categoryId: Option<string>)

  /** The page's search parameters. */
  datatype ProductSearch = ProductSearch(categoryId: Option<string>, prodSku: Option<string>)

  predicate MatchesSearch(p: Product, term: Option<string>)
  {
    term.None? || term.value == ""
    || Contains(LowerStr(p.name), LowerStr(term.value))
    || Contains(LowerStr(p.sku), LowerStr(term.value))
  }

  /** A product without a category never equals a chosen category id. */
  predicate MatchesCategory(p: Product, categoryId: Option<string>)
  {
    categoryId.None? || categoryId.value == "" || categoryId.value == "all"
    || p.categoryId == Some(categoryId.value)
  }

  function MatchesUnder(search: ProductSearch): Product -> bool
  {
    p => MatchesSearch(p, search.prodSku) && MatchesCategory(p, search.categoryId)
  }

  /** `filteredProducts`: an order-preserving subsequence of the loaded products, keeping
      a product exactly when it passes both filters. */
  function FilteredProducts(products: seq<Product>, search: ProductSearch): (kept: seq<Product>)
    ensures IsSubsequence(kept, products)
    ensures forall p :: p in kept <==>
              p in products && MatchesSearch(p, search.prodSku) &&
              MatchesCategory(p, search.categoryId)
  {
    FilterIsSubsequence(products, MatchesUnder(search));
    Filter(products, MatchesUnder(search))
  }

  /** Without a term every product passes the text filter; with one, exactly those whose
      lower-cased name or SKU contains the lower-cased term. Without a category or with
      'all' every product passes the category filter; otherwise exactly the products of
      that category. */
  lemma ProductFilterMeaning(p: Product, term: string, categoryId: string)
    ensures MatchesSearch(p, None) && MatchesSearch(p, Some(""))
    ensures term != "" ==> (MatchesSearch(p, Some(term)) <==>
              Contains(LowerStr(p.name), LowerStr(term)) || Contains(LowerStr(p.sku), LowerStr(term)))
    ensures MatchesCategory(p, None) && MatchesCategory(p, Some("all"))
    ensures categoryId != "" && categoryId != "all" ==>
              (MatchesCategory(p, Some(categoryId)) <==> p.categoryId == Some(categoryId))
  {
  }

  function Sizes(vs: seq<Variant>): (ss: seq<string>)
    ensures |ss| == |vs|
    ensures forall i :: 0 <= i < |vs| ==> ss[i] == vs[i].size
  {
    seq(|vs|, i requires 0 <= i < |vs| => vs[i].size)
  }

  function Colors(vs: seq<Variant>): (cs: seq<string>)
    ensures |cs| == |vs|
    ensures forall i :: 0 <= i < |vs| ==> cs[i] == vs[i].color
  {
    seq(|vs|, i requires 0 <= i < |vs| => vs[i].color)
  }

  /** The sizes occurring in the variants. */
  lemma SizesMembership(vs: seq<Variant>)
    ensures forall s :: s in Sizes(vs) <==> exists v :: v in vs && v.size == s
  {
    forall s | s in Sizes(vs)
      ensures exists v :: v in vs && v.size == s
    {
      var i :| 0 <= i < |vs| && Sizes(vs)[i] == s;
      assert vs[i] in vs;
    }
    forall v | v in vs
      ensures v.size in Sizes(vs)
    {
      var i :| 0 <= i < |vs| && vs[i] == v;
      assert Sizes(vs)[i] == v.size;
    }
  }

  /** The colours occurring in the variants. */
  lemma ColorsMembership(vs: seq<Variant>)
    ensures forall c :: c in Colors(vs) <==> exists v :: v in vs && v.color == c
  {
    forall c | c in Colors(vs)
      ensures exists v :: v in vs && v.color == c
    {
      var i :| 0 <= i < |vs| && Colors(vs)[i] == c;
      assert vs[i] in vs;
    }
    forall v | v in vs
      ensures v.color in Colors(vs)
    {
      var i :| 0 <= i < |vs| && vs[i] == v;
      assert Colors(vs)[i] == v.color;
    }
  }

  /** `[...new Set(variants?.map(v => v.size) || [])]`; a failed fetch gives `None`. The
      recovered sizes have no repetitions and list each size of the variants and nothing
      else. */
  function RecoveredSizes(variants: Option<seq<Variant>>): (ss: seq<string>)
    ensures NoDuplicates(ss)
    ensures forall s :: s in ss <==> variants.Some? && exists v :: v in variants.value && v.size == s
  {
    SizesMembership(variants.GetOr([]));
    Dedup(Sizes(variants.GetOr([])))
  }

  /** The same for colours. */
  function RecoveredColors(variants: Option<seq<Variant>>): (cs: seq<string>)
    ensures NoDuplicates(cs)
    ensures forall c :: c in cs <==> variants.Some? && exists v :: v in variants.value && v.color == c
  {
    ColorsMembership(variants.GetOr([]));
    Dedup(Colors(variants.GetOr([])))
  }

  /** The recovered sizes keep the order in which the sizes first appear among the
      variants. */
  lemma RecoveredSizesOrder(variants: seq<Variant>)
    ensures forall i, j :: 0 <= i < j < |RecoveredSizes(Some(variants))| ==>
              FirstIndex(Sizes(variants), RecoveredSizes(Some(variants))[i])
              < FirstIndex(Sizes(variants), RecoveredSizes(Some(variants))[j])
  {
    DedupFirstOccurrenceOrder(Sizes(variants));
  }

  /** The recovered colours keep the order in which the colours first appear among the
      variants. */
  lemma RecoveredColorsOrder(variants: seq<Variant>)
    ensures forall i, j :: 0 <= i < j < |RecoveredColors(Some(variants))| ==>
              FirstIndex(Colors(variants), RecoveredColors(Some(variants))[i])
              < FirstIndex(Colors(variants), RecoveredColors(Some(variants))[j])
  {
    DedupFirstOccurrenceOrder(Colors(variants));
  }

  /** A failed fetch or a product without variants gives empty lists. */
  lemma NoVariantsEmptyLists()
    ensures RecoveredSizes(Some([])) == [] && RecoveredColors(Some([])) == []
    ensures RecoveredSizes(None) == [] && RecoveredColors(None) == []
  {
  }

  /** For non-empty lists, the sizes recovered from the variant payload are the chosen
      sizes as a set, whatever order the variants come back in. */
  lemma RecoverPayloadSizes(sizes: seq<string>, colors: seq<string>, fetched: seq<Variant>)
    requires |colors| > 0
    requires multiset(fetched) == multiset(VariantsPayload(sizes, colors))
    ensures forall s :: s in RecoveredSizes(Some(fetched)) <==> s in sizes
  {
    var vs := VariantsPayload(sizes, colors);
    forall s | s in sizes
      ensures exists v :: v in fetched && v.size == s
    {
      assert Variant(s, colors[0]) in vs;
      assert Variant(s, colors[0]) in multiset(fetched);
    }
    forall v | v in fetched
      ensures v.size in sizes
    {
      assert v in multiset(vs);
    }
  }

  /** For non-empty lists, the colours recovered from the variant payload are the chosen
      colours as a set, whatever order the variants come back in. */
  lemma RecoverPayloadColors(sizes: seq<string>, colors: seq<string>, fetched: seq<Variant>)
    requires |sizes| > 0
    requires multiset(fetched) == multiset(VariantsPayload(sizes, colors))
    ensures forall c :: c in RecoveredColors(Some(fetched)) <==> c in colors
  {
    var vs := VariantsPayload(sizes, colors);
    forall c | c in colors
      ensures exists v :: v in fetched && v.color == c
    {
      assert Variant(sizes[0], c) in vs;
      assert Variant(sizes[0], c) in multiset(fetched);
    }
    forall v | v in fetched
      ensures v.color in colors
    {
      assert v in multiset(vs);
    }
  }

  /** Opening the edit dialog and saving it unchanged sends the same variants again, up
      to order: the variants query sets no order, so the rows may come back in any order,
      and the payload rebuilt from them is a permutation of the one first sent. The chosen
      lists must have had no repetitions, which the form's toggles guarantee, and neither
      may be empty. */
  lemma EditRoundTripAnyOrder(sizes: seq<string>, colors: seq<string>, fetched: seq<Variant>)
    requires |sizes| > 0 && |colors| > 0 && NoDuplicates(sizes) && NoDuplicates(colors)
    requires multiset(fetched) == multiset(VariantsPayload(sizes, colors))
    ensures multiset(VariantsPayload(RecoveredSizes(Some(fetched)), RecoveredColors(Some(fetched))))
         == multiset(fetched)
  {
    var s' := RecoveredSizes(Some(fetched));
    var c' := RecoveredColors(Some(fetched));
    RecoverPayloadSizes(sizes, colors, fetched);
    RecoverPayloadColors(sizes, colors, fetched);
    PayloadDistinct(sizes, colors);
    PayloadDistinct(s', c');
    var a := VariantsPayload(s', c');
    var b := VariantsPayload(sizes, colors);
    forall v | v in a
      ensures v in b
    {
    }
    forall v | v in b
      ensures v in a
    {
    }
    DistinctSameElements(a, b);
  }

  /** The sizes of one size's row are that size repeated. */
  lemma RowSizes(s: string, colors: seq<string>)
    ensures forall i :: 0 <= i < |Sizes(SizeRow(s, colors))| ==> Sizes(SizeRow(s, colors))[i] == s
  {
  }

  lemma SizesAppend(a: seq<Variant>, b: seq<Variant>)
    ensures Sizes(a + b) == Sizes(a) + Sizes(b)
  {
  }

  lemma ColorsAppend(a: seq<Variant>, b: seq<Variant>)
    ensures Colors(a + b) == Colors(a) + Colors(b)
  {
  }

  /** Without repetitions, the recovered sizes are exactly the chosen sizes, in order,
      when the variants come back in the order they were sent. */
  lemma {:induction false} RecoverSizesExactly(sizes: seq<string>, colors: seq<string>)
    requires |colors| > 0 && NoDuplicates(sizes)
    ensures RecoveredSizes(Some(VariantsPayload(sizes, colors))) == sizes
    decreases |sizes|
  {
    if |sizes| > 0 {
      var init := sizes[..|sizes| - 1];
      assert sizes == init + [sizes[|sizes| - 1]];
      RecoverSizesExactly(init, colors);
      RecoverSizesStep(init, sizes[|sizes| - 1], colors);
    }
  }

  /** One more new size adds that size to the recovered ones. */
  lemma RecoverSizesStep(init: seq<string>, s: string, colors: seq<string>)
    requires |colors| > 0 && NoDuplicates(init + [s])
    requires Dedup(Sizes(VariantsPayload(init, colors))) == init
    ensures Dedup(Sizes(VariantsPayload(init + [s], colors))) == init + [s]
  {
    NewRowRecovered(init, s, colors);
    SameRecovered(init, s, colors);
  }

  lemma NewRowRecovered(init: seq<string>, s: string, colors: seq<string>)
    requires |colors| > 0 && NoDuplicates(init + [s])
    requires Dedup(Sizes(VariantsPayload(init, colors))) == init
    ensures Dedup(Sizes(VariantsPayload(init, colors)) + Sizes(SizeRow(s, colors))) == init + [s]
  {
    RowSizes(s, colors);
    DedupGrows(Sizes(VariantsPayload(init, colors)), Sizes(SizeRow(s, colors)), init, s);
  }

  lemma SameRecovered(init: seq<string>, s: string, colors: seq<string>)
    requires Dedup(Sizes(VariantsPayload(init, colors)) + Sizes(SizeRow(s, colors))) == init + [s]
    ensures Dedup(Sizes(VariantsPayload(init + [s], colors))) == init + [s]
  {
    SizesOfPayloadSnoc(init, s, colors);
  }

  lemma SizesOfPayloadSnoc(init: seq<string>, s: string, colors: seq<string>)
    ensures Sizes(VariantsPayload(init + [s], colors))
         == Sizes(VariantsPayload(init, colors)) + Sizes(SizeRow(s, colors))
  {
    PayloadSnoc(init, s, colors);
    SizesAppend(VariantsPayload(init, colors), SizeRow(s, colors));
  }

  /** Without repetitions, the recovered colours are exactly the chosen colours, in order,
      when the variants come back in the order they were sent. */
  lemma RecoverColorsExactly(sizes: seq<string>, colors: seq<string>)
    requires |sizes| > 0 && NoDuplicates(colors)
    ensures RecoveredColors(Some(VariantsPayload(sizes, colors))) == colors
  {
    var rest := VariantsPayload(sizes[1..], colors);
    ColorsAppend(SizeRow(sizes[0], colors), rest);
    assert Colors(SizeRow(sizes[0], colors)) == colors;
    forall c | c in Colors(rest)
      ensures c in colors
    {
      var i :| 0 <= i < |rest| && Colors(rest)[i] == c;
      assert rest[i] in rest;
    }
    DedupAppendSeen(colors, Colors(rest));
    DedupOfDistinct(colors);
  }

  /** Opening the edit dialog and saving it unchanged sends the same variants again, in
      the same order, when the variants come back in the order they were sent, the chosen
      lists had no repetitions and neither was empty. */
  lemma EditRoundTrip(sizes: seq<string>, colors: seq<string>)
    requires |sizes| > 0 && |colors| > 0 && NoDuplicates(sizes) && NoDuplicates(colors)
    ensures var vs := VariantsPayload(sizes, colors);
      VariantsPayload(RecoveredSizes(Some(vs)), RecoveredColors(Some(vs))) == vs
  {
    RecoverSizesExactly(sizes, colors);
    RecoverColorsExactly(sizes, colors);
  }
}
