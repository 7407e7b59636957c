/** The shared product list: the provider fetches seven featured products
    once, and the helpers hand widgets one product by index or a range of
    them, passing the loading flag and the error through. */
module Products {
  import opened Wrappers
  import opened Seqs

  datatype Product = Product(id: string, title: string, price: int, originalPrice: Option<int>,
                             thumbnailUrl: Option<string>, permalink: string, discountPercentage: Option<int>,
                             shippingFree: bool)

  /** The context value. */
  datatype ProductsState = ProductsState(products: seq<Product>, loading: bool, error: Option<string>)

  /** The value before the request settles. */
  const InitialProducts: ProductsState := ProductsState([], true, None)

  const ProductsError: string := "Failed to load products"

  /** `Unparsable` is a body that is not JSON or is `null`; otherwise the
      `products` field, `None` when it is absent. */
  datatype ProductsBody = Unparsable | Parsed(products: Option<seq<Product>>)

  datatype ProductsResponse = ProductsResponse(ok: bool, status: int, body: ProductsBody)

  /** The state once the request settles: the list changes only when the
      body carries a `products` field; a failure keeps the empty list and
      sets the message. */
  function SettledProducts(r: ProductsResponse): (st: ProductsState)
    ensures !st.loading
    ensures st.error.Some? <==> !r.ok || r.body.Unparsable?
    ensures st.error.Some? ==> st.error == Some(ProductsError) && st.products == []
    ensures st.error.None? ==> st.products == (if r.body.products.Some? then r.body.products.value else [])
  {
    if !r.ok || r.body.Unparsable? then ProductsState([], false, Some(ProductsError))
    else if r.body.products.Some? then ProductsState(r.body.products.value, false, None)
    else ProductsState([], false, None)
  }

  datatype ProductPick = ProductPick(product: Option<Product>, loading: bool, error: Option<string>)

  /** `useProduct(index)`: `products[index] || null`. */
  function UseProduct(ctx: ProductsState, index: int): (pick: ProductPick)
    ensures pick.product.Some? <==> 0 <= index < |ctx.products|
    ensures pick.product.Some? ==> pick.product.value == ctx.products[index]
    ensures pick.loading == ctx.loading && pick.error == ctx.error
  {
    ProductPick(if 0 <= index < |ctx.products| then Some(ctx.products[index]) else None, ctx.loading, ctx.error)
  }

  datatype RangePick = RangePick(products: seq<Product>, loading: bool, error: Option<string>)

  /** `useProductRange(start, end)`: `products.slice(start, end)`. */
  function UseProductRange(ctx: ProductsState, startIndex: int, endIndex: int): (pick: RangePick)
    ensures pick.loading == ctx.loading && pick.error == ctx.error
  {
    RangePick(Slice(ctx.products, startIndex, endIndex), ctx.loading, ctx.error)
  }

  /** For indices from 0 the range is the products from `start` up to `end`,
      clipped to the list, in order. */
  lemma RangeIsClippedSlice(ctx: ProductsState, startIndex: nat, endIndex: nat)
    ensures var p, r := ctx.products, UseProductRange(ctx, startIndex, endIndex).products;
      (startIndex <= endIndex && startIndex <= |p| ==> r == p[startIndex..Min(endIndex, |p|)])
      && (startIndex > endIndex || startIndex >= |p| ==> r == [])
  {
  }

  /** One product is the range of length one that starts at it. */
  lemma ProductIsUnitRange(ctx: ProductsState, index: nat)
    ensures UseProduct(ctx, index).product.Some? ==>
      UseProductRange(ctx, index, index + 1).products == [UseProduct(ctx, index).product.value]
    ensures UseProduct(ctx, index).product.None? ==> UseProductRange(ctx, index, index + 1).products == []
  {
  }

  function OptionToSeq<T>(o: Option<T>): seq<T>
  {
    if o.Some? then [o.value] else []
  }

  /** The four widgets read products 0 (tour card), 1 to 3 (videos), 4
      (Amazon) and 5 to 6 (recommendations): what they show, read in that
      order, is the first seven products, each once. */
  lemma WidgetsShareOutProducts(ctx: ProductsState)
    ensures OptionToSeq(UseProduct(ctx, 0).product) + UseProductRange(ctx, 1, 4).products
            + OptionToSeq(UseProduct(ctx, 4).product) + UseProductRange(ctx, 5, 7).products
            == Slice(ctx.products, 0, 7)
  {
    var p := ctx.products;
    var n := Min(7, |p|);
    var c1, c4, c5 := Min(1, n), Min(4, n), Min(5, n);
    assert OptionToSeq(UseProduct(ctx, 0).product) == p[0..c1];
    RangeIsClippedSlice(ctx, 1, 4);
    assert UseProductRange(ctx, 1, 4).products == p[c1..c4];
    assert OptionToSeq(UseProduct(ctx, 4).product) == p[c4..c5];
    RangeIsClippedSlice(ctx, 5, 7);
    assert UseProductRange(ctx, 5, 7).products == p[c5..n];
    SliceSplit(p, 0, c1, c4);
    SliceSplit(p, 0, c4, c5);
    SliceSplit(p, 0, c5, n);
  }

  lemma SliceSplit<T>(s: seq<T>, a: nat, b: nat, c: nat)
    requires a <= b <= c <= |s|
    ensures s[a..c] == s[a..b] + s[b..c]
  {
  }
}
