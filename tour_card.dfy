/** The tour card: product 0 of the shared list, with its image, a discount
    badge, the free-shipping note, the price, the title cut at 64
    characters and the struck original price. */
module TourCard {
  import opened Wrappers
  import opened Text
  import opened Products

  /** `truncateText(text, maxLength)`. */
  function TruncateText(text: string, maxLength: nat): (r: string)
    ensures |text| <= maxLength ==> r == text
    ensures |text| > maxLength ==> |r| == maxLength + 3 && r[..maxLength] == text[..maxLength] && r[maxLength..] == "..."
  {
    if |text| <= maxLength then text else text[..maxLength] + "..."
  }

  /** The result keeps a prefix of the text, is never longer than the
      limit plus the three dots, and truncating it again changes nothing. */
  lemma TruncateTextFacts(text: string, maxLength: nat)
    ensures var r := TruncateText(text, maxLength);
      |r| <= maxLength + 3
      && (r == text || r == text[..maxLength] + "...")
      && TruncateText(r, maxLength) == r
  {
    var r := TruncateText(text, maxLength);
    if |text| > maxLength {
      assert r[..maxLength] == text[..maxLength];
    }
  }

  const TitleLimit: nat := 64

  /** What a `cond && <element/>` slot renders: nothing, a stray text, or the
      element (here the number it shows). */
  datatype Slot = Empty | StrayText(text: string) | Shown(value: int)

  /** `product.discount_percentage && product.discount_percentage > 0 && <badge/>`
      as written: a discount of 0 makes the expression evaluate to the
      number 0, which React renders as the text "0". */
  function DiscountSlotAsWritten(discount: Option<int>): Slot
  {
    if discount.None? then Empty
    else if discount.value == 0 then StrayText("0")
    else if discount.value > 0 then Shown(discount.value)
    else Empty
  }

  /** `product.original_price && product.original_price > product.price && <p/>`
      as written, with the same stray "0" for an original price of 0. */
  function OriginalPriceSlotAsWritten(originalPrice: Option<int>, price: int): Slot
  {
    if originalPrice.None? then Empty
    else if originalPrice.value == 0 then StrayText("0")
    else if originalPrice.value > price then Shown(originalPrice.value)
    else Empty
  }

  /** A discount of 0, or an original price of 0, puts a stray "0" on the
      card. */
  lemma StrayZeroAsWritten(price: int)
    ensures DiscountSlotAsWritten(Some(0)) == StrayText("0")
    ensures OriginalPriceSlotAsWritten(Some(0), price) == StrayText("0")
  {
  }

  /** The discount badge as intended: only for a positive discount. */
  function DiscountSlot(discount: Option<int>): (slot: Slot)
    ensures !slot.StrayText?
    ensures slot.Shown? <==> discount.Some? && discount.value > 0
    ensures slot.Shown? ==> slot.value == discount.value
  {
    if discount.Some? && discount.value > 0 then Shown(discount.value) else Empty
  }

  /** The struck price as intended: only when it is above the price. */
  function OriginalPriceSlot(originalPrice: Option<int>, price: int): (slot: Slot)
    ensures !slot.StrayText?
    ensures slot.Shown? <==> originalPrice.Some? && originalPrice.value > price
    ensures slot.Shown? ==> slot.value == originalPrice.value
  {
    if originalPrice.Some? && originalPrice.value > price then Shown(originalPrice.value)
    else Empty
  }

  /** The intended slots agree with the written ones everywhere except on
      the stray "0". */
  lemma SlotsAgreeExceptStrayZero(discount: Option<int>, originalPrice: Option<int>, price: int)
    ensures DiscountSlotAsWritten(discount) != DiscountSlot(discount) <==> discount == Some(0)
    ensures OriginalPriceSlotAsWritten(originalPrice, price) != OriginalPriceSlot(originalPrice, price)
            <==> originalPrice == Some(0)
  {
  }

  /** The drawn card.  `image` is the thumbnail address and title when there
      is one. */
  datatype CardView = CardView(href: string, image: Option<(string, string)>, discount: Slot, shippingFree: bool,
                               price: int, title: string, originalPrice: Slot)

  datatype TourScreen = TourSkeleton | TourNothing | TourShown(card: CardView)

  /** The component, with the two slots drawn as written or as intended:
      the skeleton while loading, nothing on an error or without product 0,
      and otherwise the card. */
  function TourScreenOf(ctx: ProductsState, intended: bool): TourScreen
  {
    var pick := UseProduct(ctx, 0);
    if pick.loading then TourSkeleton
    else if (pick.error.Some? && pick.error.value != "") || pick.product.None? then TourNothing
    else
      var p := pick.product.value;
      TourShown(CardView(p.permalink,
                         if p.thumbnailUrl.Some? && p.thumbnailUrl.value != "" then Some((p.thumbnailUrl.value, p.title)) else None,
                         if intended then DiscountSlot(p.discountPercentage) else DiscountSlotAsWritten(p.discountPercentage),
                         p.shippingFree, p.price, TruncateText(p.title, TitleLimit),
                         if intended then OriginalPriceSlot(p.originalPrice, p.price)
                         else OriginalPriceSlotAsWritten(p.originalPrice, p.price)))
  }

  /** The component as written: the skeleton while loading, nothing on an
      error or without product 0, and otherwise the card, where a discount
      or an original price of 0 shows as a stray "0". */
  function RenderTour(ctx: ProductsState): (screen: TourScreen)
    ensures ctx.loading <==> screen == TourSkeleton
    ensures screen == TourNothing <==>
      !ctx.loading && ((ctx.error.Some? && ctx.error.value != "") || ctx.products == [])
    ensures screen.TourShown? ==>
      var p := ctx.products[0];
      screen.card.href == p.permalink && screen.card.title == TruncateText(p.title, TitleLimit)
      && screen.card.price == p.price && screen.card.shippingFree == p.shippingFree
      && screen.card.discount == DiscountSlotAsWritten(p.discountPercentage)
      && screen.card.originalPrice == OriginalPriceSlotAsWritten(p.originalPrice, p.price)
      && (screen.card.discount.StrayText? <==> p.discountPercentage == Some(0))
      && (screen.card.originalPrice.StrayText? <==> p.originalPrice == Some(0))
      && (screen.card.image.Some? <==> p.thumbnailUrl.Some? && p.thumbnailUrl.value != "")
  {
    TourScreenOf(ctx, false)
  }

  /** The component as intended: the same guards and card, with the badge
      only for a positive discount and the struck price only above the
      price. */
  function RenderTourIntended(ctx: ProductsState): (screen: TourScreen)
    ensures ctx.loading <==> screen == TourSkeleton
    ensures screen == TourNothing <==>
      !ctx.loading && ((ctx.error.Some? && ctx.error.value != "") || ctx.products == [])
    ensures screen.TourShown? ==>
      var p := ctx.products[0];
      screen.card.href == p.permalink && screen.card.title == TruncateText(p.title, TitleLimit)
      && screen.card.price == p.price && screen.card.shippingFree == p.shippingFree
      && screen.card.discount == DiscountSlot(p.discountPercentage)
      && screen.card.originalPrice == OriginalPriceSlot(p.originalPrice, p.price)
      && (screen.card.image.Some? <==> p.thumbnailUrl.Some? && p.thumbnailUrl.value != "")
  {
    TourScreenOf(ctx, true)
  }

  /** The written and the intended component draw the same screen, except
      that a shown card differs in a slot exactly when that slot's value
      is 0. */
  lemma RenderedStrayZeroOnly(ctx: ProductsState)
    ensures RenderTour(ctx).TourShown? <==> RenderTourIntended(ctx).TourShown?
    ensures !RenderTour(ctx).TourShown? ==> RenderTour(ctx) == RenderTourIntended(ctx)
    ensures RenderTour(ctx).TourShown? ==>
      var p, w, i := ctx.products[0], RenderTour(ctx).card, RenderTourIntended(ctx).card;
      w.(discount := i.discount, originalPrice := i.originalPrice) == i
      && (w.discount != i.discount <==> p.discountPercentage == Some(0))
      && (w.originalPrice != i.originalPrice <==> p.originalPrice == Some(0))
  {
    if RenderTour(ctx).TourShown? {
      var p := ctx.products[0];
      SlotsAgreeExceptStrayZero(p.discountPercentage, p.originalPrice, p.price);
    }
  }

  /** A shown title is at most 67 characters: the product's own title, or
      its first 64 characters and three dots. */
  lemma ShownTitleIsShort(ctx: ProductsState)
    requires RenderTour(ctx).TourShown?
    ensures var t, title := RenderTour(ctx).card.title, ctx.products[0].title;
      |t| <= TitleLimit + 3
      && (|title| <= TitleLimit ==> t == title)
      && (|title| > TitleLimit ==> t[..TitleLimit] == title[..TitleLimit] && t[TitleLimit..] == "...")
  {
    TruncateTextFacts(ctx.products[0].title, TitleLimit);
  }
}
