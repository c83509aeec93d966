/** The price normaliser `parsePrice` (bot.js:26-33).

    The text is reduced to its characters from the class [0-9.,-], the first
    comma becomes a decimal point, and the longest prefix that JavaScript's
    `parseFloat` accepts is read as an exact decimal. No price characters, or
    no numeric prefix, means "no value". */
module Prices {
  import opened Options
  import opened Decimals

  /** The characters `/[^0-9.,-]/g` does not remove. */
  predicate IsPriceChar(c: char) {
    IsDigit(c) || c == '.' || c == ',' || c == '-'
  }

  predicate OnlyPriceChars(s: string) {
    forall i :: 0 <= i < |s| ==> IsPriceChar(s[i])
  }

  predicate NoPriceChars(s: string) {
    forall i :: 0 <= i < |s| ==> !IsPriceChar(s[i])
  }

  /** `text.replace(/[^0-9.,-]/g, '')`: the price characters of s, in order.
      The `.trim()` and `.replace(/\s+/g, '')` that follow in the source
      change nothing, since no whitespace survives this step. */
  function Clean(s: string): string {
    if s == [] then
      []
    else
      (if IsPriceChar(s[0]) then [s[0]] else []) + Clean(s[1..])
  }

  /** Cleaning keeps only price characters, and keeps nothing exactly when
      there is no price character to keep. */
  lemma {:induction false} CleanSpec(s: string)
    ensures OnlyPriceChars(Clean(s))
    ensures Clean(s) == [] <==> NoPriceChars(s)
  {
    if s != [] {
      CleanSpec(s[1..]);
      if !IsPriceChar(s[0]) {
        assert NoPriceChars(s) <==> NoPriceChars(s[1..]);
      }
    }
  }

  /** Cleaning distributes over concatenation: what is kept from each part is kept in order. */
  lemma {:induction false} CleanConcat(a: string, b: string)
    ensures Clean(a + b) == Clean(a) + Clean(b)
  {
    if a == [] {
      assert a + b == b;
    } else {
      var ab := a + b;
      var kept := if IsPriceChar(a[0]) then [a[0]] else [];
      assert ab[0] == a[0];
      assert ab[1..] == a[1..] + b;
      CleanConcat(a[1..], b);
      assert Clean(ab) == kept + Clean(a[1..] + b);
      assert Clean(a) == kept + Clean(a[1..]);
    }
  }

  /** Text made only of price characters is left as it is. */
  lemma {:induction false} CleanKeepsPriceText(s: string)
    requires OnlyPriceChars(s)
    ensures Clean(s) == s
  {
    if s != [] {
      CleanKeepsPriceText(s[1..]);
    }
  }

  /** `.replace(',', '.')` with a string pattern: only the first comma becomes a point. */
  function ReplaceFirstComma(s: string): string {
    if s == [] then
      []
    else if s[0] == ',' then
      ['.'] + s[1..]
    else
      [s[0]] + ReplaceFirstComma(s[1..])
  }

  /** The first comma becomes a point and every other character stays. */
  lemma {:induction false} ReplaceFirstCommaSpec(s: string)
    ensures |ReplaceFirstComma(s)| == |s|
    ensures forall k :: 0 <= k < |s| ==>
      ReplaceFirstComma(s)[k] == (if s[k] == ',' && ',' !in s[..k] then '.' else s[k])
  {
    if s != [] && s[0] != ',' {
      ReplaceFirstCommaSpec(s[1..]);
      forall k | 1 <= k < |s|
        ensures s[..k] == [s[0]] + s[1..][..k - 1]
      {
      }
    }
  }

  /** Text without a comma is left as it is. */
  lemma {:induction false} NoCommaUnchanged(s: string)
    requires ',' !in s
    ensures ReplaceFirstComma(s) == s
  {
    if s != [] {
      assert s == [s[0]] + s[1..];
      NoCommaUnchanged(s[1..]);
    }
  }

  /** The number of leading decimal digits of s. */
  function DigitRun(s: string): (k: nat)
    ensures k <= |s|
    ensures AllDigits(s[..k])
    ensures k < |s| ==> !IsDigit(s[k])
  {
    if s != [] && IsDigit(s[0]) then
      var k := 1 + DigitRun(s[1..]);
      assert s[..k] == [s[0]] + s[1..][..k - 1];
      k
    else
      0
  }

  /** The fraction digits a literal carries: none, or those after its point. */
  function FractionOf(fraction: Option<string>): string {
    fraction.GetOr("")
  }

  /** The text of a decimal literal: an optional '-', integer digits, and
      optionally a '.' followed by fraction digits. */
  function LiteralText(negative: bool, integer: string, fraction: Option<string>): string {
    (if negative then "-" else "") + integer + (if fraction.Some? then "." + fraction.value else "")
  }

  /** The literals `parseFloat` accepts once only [0-9.-] remain:
      -?(digits(.digits?)? | .digits). */
  predicate IsLiteral(integer: string, fraction: Option<string>) {
    && AllDigits(integer)
    && AllDigits(FractionOf(fraction))
    && |integer| + |FractionOf(fraction)| > 0
  }

  /** The text after a literal does not continue it: no further digit, and
      no point when the literal has none yet. */
  predicate EndsLiteral(fraction: Option<string>, rest: string) {
    rest == [] || (!IsDigit(rest[0]) && (fraction.None? ==> rest[0] != '.'))
  }

  /** The exact value of a literal. */
  function LiteralValue(negative: bool, integer: string, fraction: Option<string>): Decimal
    requires IsLiteral(integer, fraction)
  {
    DigitsValueConcat(integer, FractionOf(fraction));
    MakeDecimal(negative, DigitsValue(integer + FractionOf(fraction)), |FractionOf(fraction)|)
  }

  /** `parseFloat` on text of price characters with the comma already
      replaced: the longest numeric prefix, or None (NaN) when there is none.
      Only a '-' sign can occur, since '+' does not survive cleaning. */
  function ParseNumber(n: string): (r: Option<Decimal>)
    ensures r.Some? ==> Canonical(r.value)
  {
    if |n| > 0 && n[0] == '-' then ParseUnsigned(true, n[1..]) else ParseUnsigned(false, n)
  }

  /** The digits after a literal's point: none unless `rest` starts with '.'. */
  function FractionDigits(rest: string): (f: string)
    ensures AllDigits(f)
  {
    if |rest| > 0 && rest[0] == '.' then rest[1..][..DigitRun(rest[1..])] else ""
  }

  /** The unsigned part of `parseFloat`: integer digits, then an optional
      point with fraction digits; at least one digit overall. */
  function ParseUnsigned(negative: bool, body: string): (r: Option<Decimal>)
    ensures r.Some? ==> Canonical(r.value)
  {
    var a := DigitRun(body);
    var fraction := FractionDigits(body[a..]);
    if a == 0 && fraction == "" then
      None
    else
      DigitsValueConcat(body[..a], fraction);
      Some(MakeDecimal(negative, DigitsValue(body[..a] + fraction), |fraction|))
  }

  /** The text starts a number: after an optional '-', a digit, or a point followed by a digit. */
  predicate StartsNumeric(n: string) {
    var body := if |n| > 0 && n[0] == '-' then n[1..] else n;
    (|body| > 0 && IsDigit(body[0])) || (|body| > 1 && body[0] == '.' && IsDigit(body[1]))
  }

  /** The parser finds a number exactly when the text starts with one: "-" and "." give none. */
  lemma ParseNumberSomeIff(n: string)
    ensures ParseNumber(n).Some? <==> StartsNumeric(n)
  {
    var body := if |n| > 0 && n[0] == '-' then n[1..] else n;
    if |body| > 0 && body[0] == '.' {
      assert body[DigitRun(body)..] == body;
    }
  }

  lemma {:induction false} DigitRunOfDigits(ds: string, rest: string)
    requires AllDigits(ds)
    requires rest == [] || !IsDigit(rest[0])
    ensures DigitRun(ds + rest) == |ds|
  {
    if ds == [] {
      assert ds + rest == rest;
    } else {
      assert (ds + rest)[1..] == ds[1..] + rest;
      DigitRunOfDigits(ds[1..], rest);
    }
  }

  lemma FractionOfLiteral(fraction: Option<string>, rest: string)
    requires AllDigits(FractionOf(fraction))
    requires EndsLiteral(fraction, rest)
    ensures FractionDigits((if fraction.Some? then "." + fraction.value else "") + rest) == FractionOf(fraction)
  {
    var tail := (if fraction.Some? then "." + fraction.value else "") + rest;
    if fraction.Some? {
      assert tail[1..] == fraction.value + rest;
      DigitRunOfDigits(fraction.value, rest);
      assert tail[1..][..|fraction.value|] == fraction.value;
    }
  }

  lemma UnsignedLiteralPrefix(negative: bool, integer: string, fraction: Option<string>, rest: string)
    requires IsLiteral(integer, fraction)
    requires EndsLiteral(fraction, rest)
    ensures ParseUnsigned(negative, integer + (if fraction.Some? then "." + fraction.value else "") + rest)
         == Some(LiteralValue(negative, integer, fraction))
  {
    var tail := (if fraction.Some? then "." + fraction.value else "") + rest;
    var body := integer + tail;
    assert body == integer + (if fraction.Some? then "." + fraction.value else "") + rest;
    DigitRunOfDigits(integer, tail);
    assert body[..|integer|] == integer;
    assert body[|integer|..] == tail;
    FractionOfLiteral(fraction, rest);
  }

  /** A prefix parser: a literal followed by text that does not continue it is
      read as exactly that literal, whatever the text is ("1.2.3" gives 1.2). */
  lemma ParseLiteralPrefix(negative: bool, integer: string, fraction: Option<string>, rest: string)
    requires IsLiteral(integer, fraction)
    requires EndsLiteral(fraction, rest)
    ensures ParseNumber(LiteralText(negative, integer, fraction) + rest)
         == Some(LiteralValue(negative, integer, fraction))
  {
    var body := integer + (if fraction.Some? then "." + fraction.value else "") + rest;
    var n := LiteralText(negative, integer, fraction) + rest;
    assert n == (if negative then "-" else "") + body;
    if negative {
      assert n[0] == '-' && n[1..] == body;
      assert ParseNumber(n) == ParseUnsigned(true, n[1..]);
    } else {
      assert n == body;
      assert n[0] != '-' by {
        if integer != [] {
          assert n[0] == integer[0];
        } else {
          assert n[0] == '.';
        }
      }
      assert ParseNumber(n) == ParseUnsigned(false, n);
    }
    assert ParseNumber(n) == ParseUnsigned(negative, body);
    UnsignedLiteralPrefix(negative, integer, fraction, rest);
  }

  /** `parsePrice` (bot.js:26-33); `None` stands for a missing text
      (`null`/`undefined`, as when no price selector is configured). */
  function ParsePrice(text: Option<string>): (r: Option<Decimal>)
    ensures r.Some? ==> Canonical(r.value)
  {
    if text.None? || text.value == "" then
      None
    else
      var cleaned := Clean(text.value);
      if cleaned == "" then None else ParseNumber(ReplaceFirstComma(cleaned))
  }

  /** What `parseFloat` is applied to: the price characters, first comma turned into a point. */
  function Normalised(s: string): string {
    ReplaceFirstComma(Clean(s))
  }

  /** Absent text, empty text and text without a digit, point, comma or minus sign give no price. */
  lemma ParsePriceNoText(s: string)
    ensures ParsePrice(None) == None
    ensures ParsePrice(Some("")) == None
    ensures NoPriceChars(s) ==> ParsePrice(Some(s)) == None
  {
    CleanSpec(s);
  }

  /** Present text is parsed from its normalised form, and yields a price
      exactly when that form starts with a number. */
  lemma ParsePriceSomeIff(s: string)
    ensures ParsePrice(Some(s)) == ParseNumber(Normalised(s))
    ensures ParsePrice(Some(s)).Some? <==> StartsNumeric(Normalised(s))
  {
    if Clean(s) == "" {
      assert Normalised(s) == "";
    }
    ParseNumberSomeIff(Normalised(s));
  }

  /** Only the price characters matter, in their order: the text and its
      cleaned form give the same price. */
  lemma ParsePriceOnlyPriceChars(s: string)
    ensures ParsePrice(Some(s)) == ParsePrice(Some(Clean(s)))
  {
    CleanSpec(s);
    CleanKeepsPriceText(Clean(s));
    ParsePriceSomeIff(s);
    ParsePriceSomeIff(Clean(s));
  }

  /** Inserting text with no price character (spaces, a currency name) anywhere
      leaves the price unchanged. */
  lemma ParsePriceIgnoresOtherText(before: string, other: string, after: string)
    requires NoPriceChars(other)
    ensures ParsePrice(Some(before + other + after)) == ParsePrice(Some(before + after))
  {
    CleanConcat(before + other, after);
    CleanConcat(before, other);
    CleanConcat(before, after);
    CleanSpec(other);
    assert Clean(before + other) == Clean(before) + [];
    assert Clean(before + other + after) == Clean(before + after);
    assert Normalised(before + other + after) == Normalised(before + after);
    ParsePriceSomeIff(before + other + after);
    ParsePriceSomeIff(before + after);
  }

  /** The digits `Render` prints for d, split as a literal. */
  function RenderedFraction(d: Decimal): Option<string> {
    if d.scale > 0 then Some(FractionDigitsOf(d)) else None
  }

  lemma RenderIsLiteral(d: Decimal)
    requires Canonical(d)
    ensures IsLiteral(IntegerDigits(d), RenderedFraction(d))
    ensures Render(d) == LiteralText(d.mantissa < 0, IntegerDigits(d), RenderedFraction(d))
    ensures LiteralValue(d.mantissa < 0, IntegerDigits(d), RenderedFraction(d)) == d
  {
    var integer, fraction := IntegerDigits(d), RenderedFraction(d);
    DigitsOfMagnitude(d);
    if d.scale == 0 {
      assert FractionDigitsOf(d) == "";
    }
    assert integer + FractionOf(fraction) == IntegerDigits(d) + FractionDigitsOf(d);
    var m := if d.mantissa < 0 then -(Abs(d.mantissa) as int) else Abs(d.mantissa);
    assert m == d.mantissa;
  }

  /** Price text without a comma: what `Render` prints. */
  predicate CommaFree(s: string) {
    OnlyPriceChars(s) && ',' !in s
  }

  lemma CommaFreeConcat(a: string, b: string)
    requires CommaFree(a) && CommaFree(b)
    ensures CommaFree(a + b)
  {
    forall i | 0 <= i < |a + b|
      ensures IsPriceChar((a + b)[i])
    {
      if i < |a| {
        assert (a + b)[i] == a[i];
      } else {
        assert (a + b)[i] == b[i - |a|];
      }
    }
  }

  lemma DigitsAreCommaFree(s: string)
    requires AllDigits(s)
    ensures CommaFree(s)
  {
    forall i | 0 <= i < |s|
      ensures s[i] != ','
    {
      assert IsDigit(s[i]);
    }
  }

  lemma FractionPartCommaFree(d: Decimal)
    ensures CommaFree(if d.scale > 0 then "." + FractionDigitsOf(d) else "")
  {
    if d.scale > 0 {
      DigitsAreCommaFree(FractionDigitsOf(d));
      assert CommaFree(".");
      CommaFreeConcat(".", FractionDigitsOf(d));
    }
  }

  lemma RenderIsPriceText(d: Decimal)
    ensures CommaFree(Render(d))
  {
    var sign := if d.mantissa < 0 then "-" else "";
    var integer := IntegerDigits(d);
    var fraction := if d.scale > 0 then "." + FractionDigitsOf(d) else "";
    assert CommaFree(sign);
    DigitsAreCommaFree(integer);
    FractionPartCommaFree(d);
    CommaFreeConcat(sign, integer);
    CommaFreeConcat(sign + integer, fraction);
  }

  /** The text a price prints as (`Render`) is read back as the same price:
      parsing is a left inverse of printing on canonical decimals. */
  lemma RenderRoundTrip(d: Decimal)
    requires Canonical(d)
    ensures ParseNumber(Render(d)) == Some(d)
    ensures ParsePrice(Some(Render(d))) == Some(d)
  {
    var text := Render(d);
    RenderIsLiteral(d);
    assert text == LiteralText(d.mantissa < 0, IntegerDigits(d), RenderedFraction(d)) + "";
    ParseLiteralPrefix(d.mantissa < 0, IntegerDigits(d), RenderedFraction(d), "");
    RenderIsPriceText(d);
    CleanKeepsPriceText(text);
    NoCommaUnchanged(text);
    assert |text| > 0;
    assert ParsePrice(Some(text)) == ParseNumber(ReplaceFirstComma(Clean(text)));
  }

  // Worked cases: a Polish-formatted price ("1 234,56 zł"), reads that stop
  // at the end of the numeric prefix ("1.2.3", "1,2,3"), and texts that hold
  // no number ("-", ".", "abc").

  lemma SpellsOneTwoThreeFourFiveSix()
    ensures DigitsValue("123456") == 123456
  {
    assert "12"[..1] == "1";
    assert "123"[..2] == "12";
    assert "1234"[..3] == "123";
    assert "12345"[..4] == "1234";
    assert "123456"[..5] == "12345";
  }

  lemma ValueOfOneTwoThreeFourPointFiveSix()
    ensures LiteralValue(false, "1234", Some("56")) == Decimal(123456, 2)
  {
    assert "1234" + "56" == "123456";
    SpellsOneTwoThreeFourFiveSix();
  }

  lemma ReadsOneTwoThreeFourPointFiveSix()
    ensures ParseNumber("1234.56") == Some(Decimal(123456, 2))
  {
    assert "1234.56" == LiteralText(false, "1234", Some("56")) + "";
    ParseLiteralPrefix(false, "1234", Some("56"), "");
    ValueOfOneTwoThreeFourPointFiveSix();
  }

  lemma CleansPolishInteger()
    ensures Clean("1 234") == "1234"
  {
  }

  lemma CleansPolishFraction()
    ensures Clean(",56 zł") == ",56"
  {
  }

  lemma CleansPolishParts(a: string, b: string)
    requires a == "1 234" && b == ",56 zł"
    ensures Clean(a + b) == "1234,56"
  {
    CleansPolishInteger();
    CleansPolishFraction();
    CleanConcat(a, b);
  }

  lemma CleansPolishPrice()
    ensures Clean("1 234,56 zł") == "1234,56"
  {
    CleansPolishParts("1 234", ",56 zł");
    assert "1 234" + ",56 zł" == "1 234,56 zł";
  }

  lemma CommaOfPolishPrice()
    ensures ReplaceFirstComma("1234,56") == "1234.56"
  {
  }

  /** A Polish-formatted price: the space and the currency name are dropped, the comma is a point. */
  lemma PolishPrice()
    ensures ParsePrice(Some("1 234,56 zł")) == Some(Decimal(123456, 2))
  {
    CleansPolishPrice();
    CommaOfPolishPrice();
    ReadsOneTwoThreeFourPointFiveSix();
    ParsePriceSomeIff("1 234,56 zł");
  }

  lemma ValueOfOnePointTwo()
    ensures LiteralValue(false, "1", Some("2")) == Decimal(12, 1)
  {
    assert "1" + "2" == "12";
    assert "12"[..1] == "1";
  }

  lemma ReadsOnePointTwo(rest: string)
    requires rest == ".3" || rest == ",3"
    ensures ParseNumber("1.2" + rest) == Some(Decimal(12, 1))
  {
    assert "1.2" == LiteralText(false, "1", Some("2"));
    ParseLiteralPrefix(false, "1", Some("2"), rest);
    ValueOfOnePointTwo();
  }

  /** Reading stops at the second point, and only the first comma becomes a point. */
  lemma PrefixOnly(text: string)
    requires text == "1.2.3" || text == "1,2,3"
    ensures ParsePrice(Some(text)) == Some(Decimal(12, 1))
  {
    if text == "1.2.3" {
      assert Clean("1.2.3") == "1.2.3";
      assert ReplaceFirstComma("1.2.3") == "1.2" + ".3";
      ReadsOnePointTwo(".3");
    } else {
      assert Clean("1,2,3") == "1,2,3";
      assert ReplaceFirstComma("1,2,3") == "1.2" + ",3";
      ReadsOnePointTwo(",3");
    }
  }

  /** A lone sign or point is not a number, and neither is text without price characters. */
  lemma NotNumbers()
    ensures ParsePrice(Some("-")) == None
    ensures ParsePrice(Some(".")) == None
    ensures ParsePrice(Some("abc")) == None
  {
  }
}
