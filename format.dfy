/**
 * The presentation helpers of app.py that compute strings: the price label
 * `yen` (`f"¥{n:,}"`), the line-break conversion of the sales talking
 * points, and the decisions a card and a detail panel make (show the
 * variation line or not, offer the shop link or a warning).
 */
module Format {
  import opened Text
  import opened Catalog

  predicate IsDigit(c: char) {
    '0' <= c <= '9'
  }

  predicate AllDigits(s: string) {
    forall k :: 0 <= k < |s| ==> IsDigit(s[k])
  }

  function DigitChar(d: nat): (c: char)
    requires d < 10
    ensures IsDigit(c)
  {
    ('0' as int + d) as char
  }

  /** The decimal digits of `n`, without leading zeros. */
  function Digits(n: nat): (r: string)
    ensures |r| >= 1 && AllDigits(r)
    ensures r[0] == '0' ==> n == 0
    decreases n
  {
    if n < 10 then [DigitChar(n)] else Digits(n / 10) + [DigitChar(n % 10)]
  }

  /** The number a string of decimal digits denotes. */
  function DecimalValue(s: string): nat
    requires AllDigits(s)
  {
    if s == [] then 0
    else DecimalValue(s[..|s| - 1]) * 10 + (s[|s| - 1] as int - '0' as int)
  }

  lemma {:induction false} DigitsValue(n: nat)
    ensures DecimalValue(Digits(n)) == n
    decreases n
  {
    if n >= 10 {
      DigitsValue(n / 10);
      var r := Digits(n);
      assert r[..|r| - 1] == Digits(n / 10);
    }
  }

  /** A comma between every group of three digits, counted from the right. */
  function Group(s: string): string
    decreases |s|
  {
    if |s| <= 3 then s else Group(s[..|s| - 3]) + "," + s[|s| - 3..]
  }

  /** `s` with every comma removed. */
  function RemoveCommas(s: string): (r: string)
    ensures forall k :: 0 <= k < |r| ==> r[k] != ','
  {
    if s == [] then []
    else (if s[0] == ',' then [] else [s[0]]) + RemoveCommas(s[1..])
  }

  lemma {:induction false} RemoveCommasAppend(a: string, b: string)
    ensures RemoveCommas(a + b) == RemoveCommas(a) + RemoveCommas(b)
    decreases |a|
  {
    if a != [] {
      RemoveCommasAppend(a[1..], b);
      assert (a + b)[0] == a[0] && (a + b)[1..] == a[1..] + b;
      var head := if a[0] == ',' then [] else [a[0]];
      calc {
        RemoveCommas(a + b);
        head + RemoveCommas(a[1..] + b);
        head + (RemoveCommas(a[1..]) + RemoveCommas(b));
        (head + RemoveCommas(a[1..])) + RemoveCommas(b);
        RemoveCommas(a) + RemoveCommas(b);
      }
    } else {
      assert a + b == b;
    }
  }

  lemma {:induction false} RemoveCommasNone(s: string)
    requires AllDigits(s)
    ensures RemoveCommas(s) == s
    decreases |s|
  {
    if s != [] {
      RemoveCommasNone(s[1..]);
    }
  }

  /** Removing the commas from one more group of three digits after a comma appends those digits. */
  lemma RemoveCommasGroupStep(g: string, t: string)
    requires AllDigits(t)
    ensures RemoveCommas(g + ([','] + t)) == RemoveCommas(g) + t
  {
    var ct := [','] + t;
    assert ct[0] == ',' && ct[1..] == t;
    RemoveCommasNone(t);
    assert RemoveCommas(ct) == t;
    RemoveCommasAppend(g, ct);
  }

  /** Removing the commas that `Group` inserted gives back the digits. */
  lemma {:induction false} GroupRemoveCommas(s: string)
    requires AllDigits(s)
    ensures RemoveCommas(Group(s)) == s
    decreases |s|
  {
    if |s| <= 3 {
      RemoveCommasNone(s);
    } else {
      var p, t := s[..|s| - 3], s[|s| - 3..];
      assert AllDigits(p) && AllDigits(t);
      assert Group(s) == Group(p) + ([','] + t);
      GroupRemoveCommas(p);
      RemoveCommasGroupStep(Group(p), t);
      assert s == p + t;
    }
  }

  /** A comma stands exactly where the distance from the end is a multiple of four. */
  predicate CommasEveryFourth(r: string) {
    forall k :: 0 <= k < |r| ==> (r[k] == ',' <==> (|r| - k) % 4 == 0)
  }

  /** Every character that is not a comma is a digit. */
  predicate DigitsBetweenCommas(r: string) {
    forall k :: 0 <= k < |r| && r[k] != ',' ==> IsDigit(r[k])
  }

  /** Appending a comma and three digits keeps the comma positions and the digits. */
  lemma GroupShapeStep(g: string, t: string)
    requires |t| == 3 && AllDigits(t)
    requires CommasEveryFourth(g) && DigitsBetweenCommas(g)
    ensures CommasEveryFourth(g + "," + t) && DigitsBetweenCommas(g + "," + t)
  {
    var r := g + "," + t;
    forall k | 0 <= k < |r|
      ensures (r[k] == ',' <==> (|r| - k) % 4 == 0)
    {
      if k < |g| {
        assert r[k] == g[k];
        assert |r| - k == (|g| - k) + 4;
      } else if k > |g| {
        assert r[k] == t[k - |g| - 1];
      }
    }
    forall k | 0 <= k < |r| && r[k] != ','
      ensures IsDigit(r[k])
    {
      if k < |g| {
        assert r[k] == g[k];
      } else if k > |g| {
        assert r[k] == t[k - |g| - 1];
      }
    }
  }

  /**
   * Where the commas of a grouped string of `n >= 1` digits stand: the
   * result is one character longer per full group of three after the first,
   * a position holds a comma exactly when its distance from the end is a
   * multiple of four, and every other position holds a digit.
   */
  lemma {:induction false} GroupShape(s: string)
    requires |s| >= 1 && AllDigits(s)
    ensures |Group(s)| == |s| + (|s| - 1) / 3
    ensures CommasEveryFourth(Group(s)) && DigitsBetweenCommas(Group(s))
    decreases |s|
  {
    if |s| <= 3 {
      assert Group(s) == s;
    } else {
      var p, t := s[..|s| - 3], s[|s| - 3..];
      assert AllDigits(p) && AllDigits(t);
      GroupShape(p);
      assert Group(s) == Group(p) + "," + t;
      GroupShapeStep(Group(p), t);
    }
  }

  /** Grouping keeps the first digit in front. */
  lemma {:induction false} GroupHead(s: string)
    requires |s| >= 1
    ensures |Group(s)| >= 1 && Group(s)[0] == s[0]
    decreases |s|
  {
    if |s| > 3 {
      GroupHead(s[..|s| - 3]);
    }
  }

  /**
   * Python's `f"¥{n:,}"`: the yen sign, a minus for a negative value, then
   * the grouped digits. The character after the sign is a minus exactly
   * when the value is negative.
   */
  function Yen(n: int): (r: string)
    ensures |r| >= 2 && r[0] == '¥'
    ensures r[1] == '-' <==> n < 0
  {
    var m := if n < 0 then -n else n;
    GroupHead(Digits(m));
    "¥" + (if n < 0 then "-" + Group(Digits(-n)) else Group(Digits(n)))
  }

  /**
   * The price label starts with the yen sign; for a non-negative value the
   * rest is digits grouped in threes from the right, and removing the sign
   * and the commas gives back the value. A negative value shows a minus
   * after the sign and the grouped digits of its magnitude.
   */
  lemma YenSpec(n: int)
    ensures |Yen(n)| >= 2 && Yen(n)[0] == '¥'
    ensures n >= 0 ==>
      var body := Yen(n)[1..];
      && |body| == |Digits(n)| + (|Digits(n)| - 1) / 3
      && CommasEveryFourth(body)
      && RemoveCommas(body) == Digits(n)
      && AllDigits(RemoveCommas(body))
      && DecimalValue(RemoveCommas(body)) == n
    ensures n < 0 ==>
      var body := Yen(n)[2..];
      && Yen(n)[1] == '-'
      && |body| == |Digits(-n)| + (|Digits(-n)| - 1) / 3
      && CommasEveryFourth(body)
      && RemoveCommas(body) == Digits(-n)
      && AllDigits(RemoveCommas(body))
      && DecimalValue(RemoveCommas(body)) == -n
  {
    var m := if n < 0 then -n else n;
    var g := Group(Digits(m));
    GroupShape(Digits(m));
    GroupRemoveCommas(Digits(m));
    DigitsValue(m);
    if n < 0 {
      assert Yen(n)[2..] == g;
    } else {
      assert Yen(n)[1..] == g;
    }
  }

  lemma YenExamples()
    ensures Yen(0) == "¥0"
    ensures Yen(85000) == "¥85,000"
  {
    assert Digits(0) == "0";
    assert Digits(8) == "8";
    assert Digits(85) == "85";
    assert Digits(850) == "850";
    assert Digits(8500) == "8500";
    assert Digits(85000) == "85000";
    assert Group("85000") == Group("85") + "," + "000";
  }

  /** The HTML line break the detail panel puts in place of each newline. */
  const LineBreak: string := "<br>"

  /** Python's `s.replace(old, new)`: every non-overlapping occurrence, left to right. */
  function ReplaceAll(s: string, pattern: string, replacement: string): string
    requires pattern != []
    decreases |s|
  {
    if s == [] then []
    else if pattern <= s then replacement + ReplaceAll(s[|pattern|..], pattern, replacement)
    else [s[0]] + ReplaceAll(s[1..], pattern, replacement)
  }

  /** After the newline replacement no real newline is left. */
  lemma {:induction false} ReplaceNewlineRemoves(s: string)
    ensures forall k :: 0 <= k < |ReplaceAll(s, "\n", LineBreak)| ==> ReplaceAll(s, "\n", LineBreak)[k] != '\n'
    decreases |s|
  {
    if s != [] {
      ReplaceNewlineRemoves(s[1..]);
      var rest := ReplaceAll(s[1..], "\n", LineBreak);
      var head := if s[0] == '\n' then LineBreak else [s[0]];
      assert "\n" == ['\n'] && s[..1] == [s[0]];
      assert ReplaceAll(s, "\n", LineBreak) == head + rest;
      assert forall k :: 0 <= k < |head| ==> head[k] != '\n';
    }
  }

  /**
   * The sales points as the detail panel writes them (app.py line 191):
   * no real newline is left in the result.
   */
  function SalesPointHtml(points: string): (r: string)
    ensures forall k :: 0 <= k < |r| ==> r[k] != '\n'
  {
    ReplaceNewlineRemoves(ReplaceAll(points, "\\n", LineBreak));
    ReplaceAll(ReplaceAll(points, "\\n", LineBreak), "\n", LineBreak)
  }

  /**
   * The intended conversion read in one pass: each literal backslash-n pair
   * and each real newline becomes a line break; every other character is
   * kept.
   */
  function BreakLines(s: string): (r: string)
    ensures forall k :: 0 <= k < |r| ==> r[k] != '\n'
    decreases |s|
  {
    if s == [] then []
    else if "\\n" <= s then LineBreak + BreakLines(s[2..])
    else if s[0] == '\n' then LineBreak + BreakLines(s[1..])
    else [s[0]] + BreakLines(s[1..])
  }

  lemma {:induction false} ReplaceNewlineAppend(a: string, b: string)
    ensures ReplaceAll(a + b, "\n", LineBreak) == ReplaceAll(a, "\n", LineBreak) + ReplaceAll(b, "\n", LineBreak)
    decreases |a|
  {
    if a != [] {
      ReplaceNewlineAppend(a[1..], b);
      assert (a + b)[0] == a[0] && (a + b)[1..] == a[1..] + b;
      assert "\n" <= a + b <==> "\n" <= a;
      var head := if a[0] == '\n' then LineBreak else [a[0]];
      calc {
        ReplaceAll(a + b, "\n", LineBreak);
        head + ReplaceAll(a[1..] + b, "\n", LineBreak);
        head + (ReplaceAll(a[1..], "\n", LineBreak) + ReplaceAll(b, "\n", LineBreak));
        (head + ReplaceAll(a[1..], "\n", LineBreak)) + ReplaceAll(b, "\n", LineBreak);
        ReplaceAll(a, "\n", LineBreak) + ReplaceAll(b, "\n", LineBreak);
      }
    } else {
      assert a + b == b;
    }
  }

  /** Replacing newlines in a string without one changes nothing. */
  lemma {:induction false} ReplaceNewlineNone(s: string)
    requires forall k :: 0 <= k < |s| ==> s[k] != '\n'
    ensures ReplaceAll(s, "\n", LineBreak) == s
    decreases |s|
  {
    if s != [] {
      ReplaceNewlineNone(s[1..]);
      assert s[0] != '\n';
      assert "\n" == ['\n'] && s[..1] == [s[0]];
      assert !("\n" <= s);
    }
  }

  /** The two `replace` calls in a row equal the one-pass conversion. */
  lemma {:induction false} SalesPointHtmlBreaksLines(s: string)
    ensures SalesPointHtml(s) == BreakLines(s)
    decreases |s|
  {
    var nl, bsn := "\n", "\\n";
    if s == [] {
    } else if bsn <= s {
      SalesPointHtmlBreaksLines(s[2..]);
      ReplaceNewlineAppend(LineBreak, ReplaceAll(s[2..], bsn, LineBreak));
      ReplaceNewlineNone(LineBreak);
    } else {
      SalesPointHtmlBreaksLines(s[1..]);
      ReplaceNewlineAppend([s[0]], ReplaceAll(s[1..], bsn, LineBreak));
      if s[0] == '\n' {
        assert nl <= [s[0]] && [s[0]][1..] == [];
      } else {
        ReplaceNewlineNone([s[0]]);
      }
    }
  }

  /** What one product card shows. */
  datatype Card = Card(name: string, variation: Option<string>, priceLabel: string, imageUrl: string)

  /**
   * A card: the name, the variation text only when it holds something other
   * than white space, and the price label.
   */
  function CardOf(p: Product): (c: Card)
    ensures c.variation.Some? <==> !IsBlank(p.variationText)
    ensures c.variation.Some? ==> c.variation.value == p.variationText
    ensures c.name == p.productName && c.priceLabel == Yen(p.price) && c.imageUrl == p.imageUrl
  {
    StripEmptyIffBlank(p.variationText);
    Card(
      p.productName,
      if p.variationText != "" && Strip(p.variationText) != "" then Some(p.variationText) else None,
      Yen(p.price),
      p.imageUrl)
  }

  /** The cards of a grid, one per row in order. */
  function Cards(rows: seq<Product>): seq<Card> {
    seq(|rows|, i requires 0 <= i < |rows| => CardOf(rows[i]))
  }

  /** What an open detail panel shows: the talking points and the shop link or a warning. */
  datatype Detail = Detail(pointsHtml: string, shopLink: Option<string>)

  /**
   * A detail panel: the talking points with their line breaks converted, and
   * a link to the stripped shop address exactly when that address holds
   * something other than white space (otherwise the warning is shown).
   */
  function DetailOf(p: Product): (d: Detail)
    ensures d.pointsHtml == BreakLines(p.salesPoint)
    ensures d.shopLink.Some? <==> !IsBlank(p.ecUrl)
    ensures d.shopLink.Some? ==> d.shopLink.value == Strip(p.ecUrl)
  {
    SalesPointHtmlBreaksLines(p.salesPoint);
    StripEmptyIffBlank(p.ecUrl);
    var url := Strip(p.ecUrl);
    Detail(SalesPointHtml(p.salesPoint), if url != "" then Some(url) else None)
  }
}
