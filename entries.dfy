/** From one extracted listing item to an entry: its title, link, price and
    dedup identity (bot.js:52-66).

    The markup library's selection is outside the model: an item arrives as
    the texts and attribute the selectors picked out of it. */
module Entries {
  import opened Options
  import opened Decimals
  import opened Prices
  import opened Fallback
  import opened Thresholds

  /** One watch definition, as far as the evaluation engine reads it. */
  datatype Watch = Watch(name: string, url: string, limits: Limits)

  /** One item element, already queried:
      - titleText: the trimmed text of the title selector's first match, or the
        item's whole trimmed text when no title selector is configured;
      - priceText: the trimmed text of the price selector's first match, or None
        when no price selector is configured;
      - fullText: the item's whole text, where the fallback price is looked for;
      - href: the link element's `href` or `data-href`, "" when it has neither. */
  datatype Item = Item(titleText: string, priceText: Option<string>, fullText: string, href: string)

  /** URL resolution of `new URL(href, base)`: the absolute URL, or None where
      the constructor throws. It belongs to the JavaScript runtime. */
  type Resolver = (string, string) -> Option<string>

  /** The title used when an item's title text is empty. */
  const NoTitle: string := "Brak tytułu"

  function Title(item: Item): (t: string)
    ensures t != ""
    ensures item.titleText != "" ==> t == item.titleText
  {
    if item.titleText != "" then item.titleText else NoTitle
  }

  /** `makeAbsoluteLink` (bot.js:41-43): the resolved URL, or the href unchanged. */
  function MakeAbsoluteLink(resolve: Resolver, base: string, href: string): (link: string)
    ensures resolve(base, href).None? ==> link == href
  {
    match resolve(base, href)
    case Some(absolute) => absolute
    case None => href
  }

  /** The entry's link (bot.js:61-62): the resolved href, or the watch's page URL without one. */
  function Link(resolve: Resolver, w: Watch, item: Item): (link: string)
    ensures item.href == "" ==> link == w.url
    ensures item.href != "" ==> link == MakeAbsoluteLink(resolve, w.url, item.href)
  {
    if item.href != "" then MakeAbsoluteLink(resolve, w.url, item.href) else w.url
  }

  /** The entry's price (bot.js:53-58): the price selector's text, and when that
      gives no price, the first number-like text of the whole item. */
  function EntryPrice(item: Item): (price: Option<Decimal>)
    ensures price.Some? ==> Canonical(price.value)
  {
    match ParsePrice(item.priceText)
    case Some(p) => Some(p)
    case None => ParsePrice(FirstNumberLike(item.fullText))
  }

  /** The number-like text the fallback finds always starts with a digit, so it
      always yields a price. */
  lemma FallbackParses(s: string)
    requires FirstNumberLike(s).Some?
    ensures ParsePrice(FirstNumberLike(s)).Some?
  {
    var m := FirstNumberLike(s).value;
    assert Clean(m) == [m[0]] + Clean(m[1..]);
    var n := Normalised(m);
    ReplaceFirstCommaSpec(Clean(m));
    assert n[0] == m[0];
    ParsePriceSomeIff(m);
    ParseNumberSomeIff(n);
  }

  /** The price text wins over the fallback; an item has no price exactly when
      its price text gives none and its whole text holds no number-like run at
      all; such an item is skipped. */
  lemma NoPriceIff(item: Item)
    ensures ParsePrice(item.priceText).Some? ==> EntryPrice(item) == ParsePrice(item.priceText)
    ensures EntryPrice(item).None? <==>
              ParsePrice(item.priceText).None? && forall j, l :: !MatchesAt(item.fullText, j, l)
  {
    if FirstNumberLike(item.fullText).Some? {
      FallbackParses(item.fullText);
    }
  }

  /** The text a price contributes to the identity: `price || ''`, so zero contributes nothing. */
  function PriceKey(price: Decimal): (key: string)
    ensures key == "" <==> price.mantissa == 0
  {
    if price.mantissa == 0 then "" else Render(price)
  }

  /** The dedup identity (bot.js:66): `(link || title) + '|' + (price || '')`. */
  function Identity(link: string, title: string, price: Decimal): string {
    (if link != "" then link else title) + "|" + PriceKey(price)
  }

  lemma PriceKeyInjective(p1: Decimal, p2: Decimal)
    requires Canonical(p1) && Canonical(p2)
    requires PriceKey(p1) == PriceKey(p2)
    ensures p1 == p2
  {
    if p1.mantissa != 0 && p2.mantissa != 0 {
      RenderRoundTrip(p1);
      RenderRoundTrip(p2);
    }
  }

  /** Under one link, the identity tells prices apart and nothing else: two
      entries share it exactly when their prices are equal, whatever their
      titles, so a price change is a new identity. */
  lemma IdentityByPrice(link: string, title1: string, title2: string, p1: Decimal, p2: Decimal)
    requires link != ""
    requires Canonical(p1) && Canonical(p2)
    ensures Identity(link, title1, p1) == Identity(link, title2, p2) <==> Value(p1) == Value(p2)
  {
    if Identity(link, title1, p1) == Identity(link, title2, p2) {
      var prefix := link + "|";
      assert Identity(link, title1, p1) == prefix + PriceKey(p1);
      assert Identity(link, title2, p2) == prefix + PriceKey(p2);
      assert PriceKey(p1) == (prefix + PriceKey(p1))[|prefix|..];
      PriceKeyInjective(p1, p2);
    }
    if Value(p1) == Value(p2) {
      CanonicalUnique(p1, p2);
    }
  }
}
