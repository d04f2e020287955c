/** The product server functions up to the backend call: the variant payload, every size
    paired with every colour, and the arguments sent for a new or an edited product. */
module ProductMutations {
  import opened Wrappers
  import opened Seqs
  import opened ProductSchema

  datatype Variant = Variant(size: string, color: string)

  /** `colors.map(color => ({ size, color }))`. */
  function SizeRow(size: string, colors: seq<string>): (r: seq<Variant>)
    ensures |r| == |colors|
    ensures forall j :: 0 <= j < |colors| ==> r[j] == Variant(size, colors[j])
  {
    seq(|colors|, j requires 0 <= j < |colors| => Variant(size, colors[j]))
  }

  /** Every row's pairs are its size with each colour. */
  lemma SizeRowMembership(size: string, colors: seq<string>)
    ensures forall v :: v in SizeRow(size, colors) <==> v.size == size && v.color in colors
  {
    forall v: Variant | v.size == size && v.color in colors
      ensures v in SizeRow(size, colors)
    {
      var j :| 0 <= j < |colors| && colors[j] == v.color;
      assert SizeRow(size, colors)[j] == v;
    }
  }

  /** `sizes.flatMap(size => colors.map(color => ({ size, color })))`: a pair occurs
      exactly when its size is one of the sizes and its colour one of the colours. */
  function VariantsPayload(sizes: seq<string>, colors: seq<string>): (vs: seq<Variant>)
    ensures forall v :: v in vs <==> v.size in sizes && v.color in colors
    decreases |sizes|
  {
    if |sizes| == 0 then []
    else
      assert sizes == [sizes[0]] + sizes[1..];
      SizeRowMembership(sizes[0], colors);
      SizeRow(sizes[0], colors) + VariantsPayload(sizes[1..], colors)
  }

  /** The payload has one entry per size and colour pair. */
  lemma {:induction false} PayloadLength(sizes: seq<string>, colors: seq<string>)
    ensures |VariantsPayload(sizes, colors)| == |sizes| * |colors|
    decreases |sizes|
  {
    if |sizes| > 0 {
      PayloadLength(sizes[1..], colors);
      assert |sizes| * |colors| == |colors| + (|sizes| - 1) * |colors|;
    }
  }

  /** Entries are size-major: the entry at `i * |colors| + j` pairs the `i`-th size with
      the `j`-th colour. */
  lemma PayloadIndex(sizes: seq<string>, colors: seq<string>, i: nat, j: nat)
    requires i < |sizes| && j < |colors|
    ensures |VariantsPayload(sizes, colors)| == |sizes| * |colors|
    ensures i * |colors| + j < |sizes| * |colors|
    ensures VariantsPayload(sizes, colors)[i * |colors| + j] == Variant(sizes[i], colors[j])
  {
    PayloadLength(sizes, colors);
    IndexBound(i, j, |sizes|, |colors|);
    BlockIsProduct(i, |colors|);
    PayloadBlockIndex(sizes, colors, i, j);
  }

  /** The start of block `i` among blocks of `c` entries. */
  function Block(i: nat, c: nat): nat
  {
    if i == 0 then 0 else c + Block(i - 1, c)
  }

  lemma {:induction false} BlockIsProduct(i: nat, c: nat)
    ensures Block(i, c) == i * c
  {
    if i > 0 {
      BlockIsProduct(i - 1, c);
      assert i * c == c + (i - 1) * c;
    }
  }

  /** The entry at position `j` of the `i`-th size's block. */
  lemma {:induction false} PayloadBlockIndex(sizes: seq<string>, colors: seq<string>, i: nat, j: nat)
    requires i < |sizes| && j < |colors|
    ensures Block(i, |colors|) + j < |VariantsPayload(sizes, colors)|
    ensures VariantsPayload(sizes, colors)[Block(i, |colors|) + j] == Variant(sizes[i], colors[j])
    decreases i
  {
    PayloadCons(sizes, colors);
    if i > 0 {
      PayloadBlockIndex(sizes[1..], colors, i - 1, j);
    }
  }

  /** The payload is the first size's row followed by the payload of the other sizes. */
  lemma PayloadCons(sizes: seq<string>, colors: seq<string>)
    requires |sizes| > 0
    ensures VariantsPayload(sizes, colors) == SizeRow(sizes[0], colors) + VariantsPayload(sizes[1..], colors)
  {
  }

  /** Position `j` of block `i` lies before the end of `n` blocks of `c`. */
  lemma IndexBound(i: nat, j: nat, n: nat, c: nat)
    requires i < n && j < c
    ensures i * c + j < n * c
  {
    assert (i + 1) * c == i * c + c;
    MulMonotone(i + 1, n, c);
  }

  lemma MulMonotone(a: nat, b: nat, c: nat)
    requires a <= b
    ensures a * c <= b * c
  {
  }

  /** No sizes or no colours, no variants. */
  lemma {:induction false} EmptyAttributesEmptyPayload(sizes: seq<string>, colors: seq<string>)
    requires |sizes| == 0 || |colors| == 0
    ensures VariantsPayload(sizes, colors) == []
  {
    PayloadLength(sizes, colors);
  }

  /** The payload of one more size is the old payload followed by that size's row. */
  lemma {:induction false} PayloadSnoc(sizes: seq<string>, s: string, colors: seq<string>)
    ensures VariantsPayload(sizes + [s], colors) == VariantsPayload(sizes, colors) + SizeRow(s, colors)
    decreases |sizes|
  {
    if |sizes| == 0 {
      assert sizes + [s] == [s];
      assert [s][1..] == [];
    } else {
      assert (sizes + [s])[1..] == sizes[1..] + [s];
      PayloadSnoc(sizes[1..], s, colors);
    }
  }

  /** The arguments of `create_product_with_variants`. */
  datatype ProductPayload = ProductPayload(
    sku: string,
    name: string,
    description: Option<string>,
    price: string,
    categoryId: Option<string>,
    variants: seq<Variant>)

  /** `createProduct` after validation. */
  function CreatePayload(data: ProductFormData): (p: ProductPayload)
    ensures p.sku == data.sku && p.name == data.name && p.price == data.price
    ensures p.description.None? <==> data.description == ""
    ensures p.categoryId.None? <==> data.categoryId == ""
    ensures p.description.Some? ==> p.description.value == data.description
    ensures p.categoryId.Some? ==> p.categoryId.value == data.categoryId
    ensures p.variants == VariantsPayload(data.sizes, data.colors)
    ensures forall v :: v in p.variants <==> v.size in data.sizes && v.color in data.colors
    ensures |p.variants| == |data.sizes| * |data.colors|
  {
    PayloadLength(data.sizes, data.colors);
    ProductPayload(data.sku, data.name, NullIfEmpty(data.description), data.price,
                   NullIfEmpty(data.categoryId), VariantsPayload(data.sizes, data.colors))
  }

  /** The arguments of `update_product_with_variants`: the product id and the same
      fields as a creation. */
  datatype UpdateArgs = UpdateArgs(productId: string, product: ProductPayload)

  /** `updateProduct` after validation: it sends what a creation from the same form
      would send, with the product id. */
  function UpdatePayload(data: ProductFormData, editingProduct: string): (args: UpdateArgs)
    ensures args.product == CreatePayload(data)
    ensures args.productId == editingProduct
  {
    UpdateArgs(editingProduct,
               ProductPayload(data.sku, data.name, NullIfEmpty(data.description), data.price,
                              NullIfEmpty(data.categoryId),
                              VariantsPayload(data.sizes, data.colors)))
  }

  /** Distinct sizes and distinct colours give distinct pairs. */
  lemma {:induction false} PayloadDistinct(sizes: seq<string>, colors: seq<string>)
    requires NoDuplicates(sizes) && NoDuplicates(colors)
    ensures NoDuplicates(VariantsPayload(sizes, colors))
    decreases |sizes|
  {
    if |sizes| > 0 {
      var row := SizeRow(sizes[0], colors);
      var rest := VariantsPayload(sizes[1..], colors);
      assert NoDuplicates(sizes[1..]) by {
        forall i, j | 0 <= i < j < |sizes| - 1
          ensures sizes[1..][i] != sizes[1..][j]
        {
          assert sizes[1..][i] == sizes[i + 1] && sizes[1..][j] == sizes[j + 1];
        }
      }
      PayloadDistinct(sizes[1..], colors);
      assert NoDuplicates(row);
      SizeRowMembership(sizes[0], colors);
      assert sizes[0] !in sizes[1..] by {
        forall k | 0 <= k < |sizes| - 1
          ensures sizes[1..][k] != sizes[0]
        {
          assert sizes[1..][k] == sizes[k + 1];
        }
      }
      forall x | x in row
        ensures x !in rest
      {
        assert x.size == sizes[0];
      }
      NoDuplicatesAppend(row, rest);
    }
  }
}
