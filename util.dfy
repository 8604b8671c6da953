/**
 * The shared helpers of the common package: the currency-symbol table, the
 * price-text parser `parse_price` and the clamped `jittered_delay`.
 * Prices are exact reals rather than binary floats.
 */
module Util {
  import opened Basics
  import opened Text

  /** CURRENCY_SYMBOLS, in the dictionary's insertion order: ₹ $ US$ € £ CN¥ ¥. */
  const CurrencySymbols: seq<(string, string)> := [
    ("\U{20B9}", "INR"), ("$", "USD"), ("US$", "USD"), ("\U{20AC}", "EUR"),
    ("\U{00A3}", "GBP"), ("CN\U{00A5}", "CNY"), ("\U{00A5}", "CNY")]

  /** The alternatives of the fallback pattern `\b(INR|USD|EUR|GBP|CNY|JPY|AED)\b`. */
  const CurrencyCodes: seq<string> := ["INR", "USD", "EUR", "GBP", "CNY", "JPY", "AED"]

  /** The outcome of `parse_price`: (low, high, currency). */
  datatype PriceParse = PriceParse(lo: Option<real>, hi: Option<real>, currency: Option<string>)

  // ---------------------------------------------------------------- currency

  /** Table entry k is the first whose symbol occurs in `txt`. */
  ghost predicate FirstSymbolAt(txt: string, k: int) {
    0 <= k < |CurrencySymbols| && Occurs(CurrencySymbols[k].0, txt) &&
    forall j :: 0 <= j < k ==> !Occurs(CurrencySymbols[j].0, txt)
  }

  /** `next(code for sym, code in CURRENCY_SYMBOLS.items() if sym in txt)`, from entry k on. */
  function SymbolCurrency(txt: string, k: nat): (cur: Option<string>)
    requires k <= |CurrencySymbols|
    ensures cur.None? || cur.value in CurrencyCodes
    decreases |CurrencySymbols| - k
  {
    if k == |CurrencySymbols| then None
    else if Occurs(CurrencySymbols[k].0, txt) then Some(CurrencySymbols[k].1)
    else SymbolCurrency(txt, k + 1)
  }

  /** The symbol scan finds exactly the first table entry (in table order) that occurs. */
  lemma {:induction false} SymbolCurrencyIsFirstEntry(txt: string, from: nat)
    requires from <= |CurrencySymbols|
    requires forall j :: 0 <= j < from ==> !Occurs(CurrencySymbols[j].0, txt)
    ensures SymbolCurrency(txt, from).None? <==>
              forall j :: 0 <= j < |CurrencySymbols| ==> !Occurs(CurrencySymbols[j].0, txt)
    ensures forall k :: FirstSymbolAt(txt, k) ==> SymbolCurrency(txt, from) == Some(CurrencySymbols[k].1)
    decreases |CurrencySymbols| - from
  {
    if from < |CurrencySymbols| {
      if Occurs(CurrencySymbols[from].0, txt) {
        forall k | FirstSymbolAt(txt, k) ensures k == from { }
      } else {
        SymbolCurrencyIsFirstEntry(txt, from + 1);
      }
    }
  }

  /** The fallback pattern matches at position i (case-insensitively, between word boundaries). */
  predicate CodeAt(txt: string, i: nat) {
    && i + 3 <= |txt|
    && Upper(txt[i..i + 3]) in CurrencyCodes
    && (i == 0 || !IsWordChar(txt[i - 1]))
    && (i + 3 == |txt| || !IsWordChar(txt[i + 3]))
  }

  /** `re.search` for the fallback pattern from position i on, upper-cased. */
  function CodeSearch(txt: string, i: nat): (cur: Option<string>)
    ensures cur.None? || cur.value in CurrencyCodes
    decreases |txt| - i
  {
    if i + 3 > |txt| then None
    else if CodeAt(txt, i) then Some(Upper(txt[i..i + 3]))
    else CodeSearch(txt, i + 1)
  }

  /** The search returns the leftmost match, and nothing only when there is no match. */
  lemma CodeSearchIsLeftmost(txt: string, i: nat)
    ensures CodeSearch(txt, i).None? <==> forall p :: i <= p ==> !CodeAt(txt, p)
    ensures CodeSearch(txt, i).Some? ==>
              exists p :: i <= p && CodeAt(txt, p) && CodeSearch(txt, i) == Some(Upper(txt[p..p + 3])) &&
                          forall q :: i <= q < p ==> !CodeAt(txt, q)
  {
    CodeSearchNone(txt, i);
    if CodeSearch(txt, i).Some? {
      CodeSearchFinds(txt, i);
    }
  }

  lemma {:induction false} CodeSearchNone(txt: string, i: nat)
    ensures CodeSearch(txt, i).None? <==> forall p :: i <= p ==> !CodeAt(txt, p)
    decreases |txt| - i
  {
    if i + 3 <= |txt| && !CodeAt(txt, i) {
      CodeSearchNone(txt, i + 1);
      forall p | i <= p && CodeSearch(txt, i).None? ensures !CodeAt(txt, p) {
        if p != i { assert i + 1 <= p; }
      }
    }
  }

  lemma {:induction false} CodeSearchFinds(txt: string, i: nat)
    requires CodeSearch(txt, i).Some?
    ensures exists p :: i <= p && CodeAt(txt, p) && CodeSearch(txt, i) == Some(Upper(txt[p..p + 3])) &&
                        forall q :: i <= q < p ==> !CodeAt(txt, q)
    decreases |txt| - i
  {
    if !CodeAt(txt, i) {
      CodeSearchFinds(txt, i + 1);
      var p :| i + 1 <= p && CodeAt(txt, p) && CodeSearch(txt, i + 1) == Some(Upper(txt[p..p + 3])) &&
               forall q :: i + 1 <= q < p ==> !CodeAt(txt, q);
      assert forall q :: i <= q < p ==> !CodeAt(txt, q);
    }
  }

  /** Symbol table first; the code pattern only when no symbol occurs. */
  function DetectCurrency(txt: string): (cur: Option<string>)
    ensures cur.None? || cur.value in CurrencyCodes
    ensures (exists k :: FirstSymbolAt(txt, k)) ==> cur.Some? && cur == SymbolCurrency(txt, 0)
    ensures (forall j :: 0 <= j < |CurrencySymbols| ==> !Occurs(CurrencySymbols[j].0, txt)) ==>
              cur == CodeSearch(txt, 0)
  {
    SymbolCurrencyIsFirstEntry(txt, 0);
    var bySymbol := SymbolCurrency(txt, 0);
    if bySymbol.Some? then bySymbol else CodeSearch(txt, 0)
  }

  // ---------------------------------------------------------------- numbers

  /** A numeric token `\d+(?:\.\d+)?`: whole digits and an optional fraction ("" when absent). */
  datatype Numeral = Numeral(whole: string, frac: string)

  predicate ValidNumeral(n: Numeral) {
    |n.whole| > 0 && IsDigits(n.whole) && IsDigits(n.frac)
  }

  /** `float(token)`, exactly. */
  function NumeralValue(n: Numeral): (v: real)
    requires ValidNumeral(n)
    ensures v >= 0.0
  {
    DigitsValue(n.whole) as real + DigitsValue(n.frac) as real / Pow10(|n.frac|) as real
  }

  /** A token without a fraction is worth its digits. */
  lemma WholeValue(d: string)
    requires |d| > 0 && IsDigits(d)
    ensures NumeralValue(Numeral(d, "")) == DigitsValue(d) as real
  {
    assert DigitsValue("") == 0 && Pow10(0) == 1;
  }

  /** A token may start at i: a digit not preceded by a word character (`(?<!\w)\d`). */
  predicate TokenStart(s: string, i: nat) {
    i < |s| && IsDigit(s[i]) && (i == 0 || !IsWordChar(s[i - 1]))
  }

  /** The text a token was read from: its whole digits, then "." and the fraction when there is one. */
  function NumeralText(n: Numeral): string {
    n.whole + (if n.frac == "" then "" else "." + n.frac)
  }

  /** The greedy match of `\d+(?:\.\d+)?` at i, and where it ends. */
  function NumeralAt(s: string, i: nat): (r: (Numeral, nat))
    requires i < |s| && IsDigit(s[i])
    ensures ValidNumeral(r.0) && i < r.1 <= |s|
    ensures r.1 == |s| || !IsDigit(s[r.1])
  {
    var j := DigitRunEnd(s, i);
    if j + 1 < |s| && s[j] == '.' && IsDigit(s[j + 1]) then
      var k := DigitRunEnd(s, j + 1);
      (Numeral(s[i..j], s[j + 1..k]), k)
    else (Numeral(s[i..j], ""), j)
  }

  /**
   * The match at i is the text it spans: the whole digit run starting at i,
   * then a fraction exactly when that run is followed by "." and a digit, in
   * which case the fraction is the digit run after the ".".  A match without a
   * fraction is not followed by "." and a digit.
   */
  lemma NumeralAtMatch(s: string, i: nat)
    requires i < |s| && IsDigit(s[i])
    ensures var r := NumeralAt(s, i);
      var j := DigitRunEnd(s, i);
      && s[i..r.1] == NumeralText(r.0)
      && r.0.whole == s[i..j]
      && (r.0.frac != "" <==> j + 1 < |s| && s[j] == '.' && IsDigit(s[j + 1]))
      && (r.0.frac != "" ==> r.0.frac == s[j + 1..r.1])
      && (r.0.frac == "" ==> r.1 == j && !(r.1 + 1 < |s| && s[r.1] == '.' && IsDigit(s[r.1 + 1])))
  {
    var j := DigitRunEnd(s, i);
    if j + 1 < |s| && s[j] == '.' && IsDigit(s[j + 1]) {
      var k := DigitRunEnd(s, j + 1);
      assert s[i..k] == s[i..j] + "." + s[j + 1..k];
    }
  }

  /** `re.findall(r"(?<!\w)(\d+(?:\.\d+)?)", s)`, scanning from position i. */
  function PriceTokensFrom(s: string, i: nat): (toks: seq<Numeral>)
    ensures forall t :: t in toks ==> ValidNumeral(t)
    decreases |s| - i
  {
    if i >= |s| then []
    else if TokenStart(s, i) then
      var (n, j) := NumeralAt(s, i);
      [n] + PriceTokensFrom(s, j)
    else PriceTokensFrom(s, i + 1)
  }

  function PriceTokens(s: string): seq<Numeral> { PriceTokensFrom(s, 0) }

  /**
   * `toks` are the greedy matches over `spans`: each span starts at a token
   * start at or after i and ends where the match from there ends, the spans
   * are in increasing order and do not overlap, and every token start at or
   * after i lies inside one of them.
   */
  ghost predicate Scanned(s: string, i: nat, spans: seq<(nat, nat)>, toks: seq<Numeral>) {
    MatchesAt(s, i, spans, toks) && Disjoint(spans)
    && (forall p :: i <= p && TokenStart(s, p) ==> InSpan(spans, p))
  }

  /** Token k is the greedy match over span k, which begins at a token start at or after i. */
  ghost predicate MatchesAt(s: string, i: nat, spans: seq<(nat, nat)>, toks: seq<Numeral>) {
    && |spans| == |toks|
    && (forall k :: 0 <= k < |spans| ==>
          i <= spans[k].0 && TokenStart(s, spans[k].0) && NumeralAt(s, spans[k].0) == (toks[k], spans[k].1))
  }

  /** Token k is read from the text of span k. */
  ghost predicate SpansRead(s: string, spans: seq<(nat, nat)>, toks: seq<Numeral>) {
    && |spans| == |toks|
    && (forall k :: 0 <= k < |spans| ==>
          spans[k].0 <= spans[k].1 <= |s| && s[spans[k].0..spans[k].1] == NumeralText(toks[k]))
  }

  lemma MatchesRead(s: string, i: nat, spans: seq<(nat, nat)>, toks: seq<Numeral>)
    requires MatchesAt(s, i, spans, toks)
    ensures SpansRead(s, spans, toks)
  {
    forall k | 0 <= k < |spans|
      ensures spans[k].0 <= spans[k].1 <= |s| && s[spans[k].0..spans[k].1] == NumeralText(toks[k])
    {
      NumeralAtMatch(s, spans[k].0);
    }
  }

  /** `findall` returns exactly the leftmost-greedy, non-overlapping matches after i. */
  lemma PriceTokensScan(s: string, i: nat)
    ensures exists spans :: Scanned(s, i, spans, PriceTokensFrom(s, i)) && SpansRead(s, spans, PriceTokensFrom(s, i))
  {
    ScanSpansScanned(s, i);
    MatchesRead(s, i, ScanSpans(s, i), PriceTokensFrom(s, i));
  }

  /** Where the scan from i finds its matches. */
  ghost function ScanSpans(s: string, i: nat): seq<(nat, nat)>
    decreases |s| - i
  {
    if i >= |s| then []
    else if TokenStart(s, i) then [(i, NumeralAt(s, i).1)] + ScanSpans(s, NumeralAt(s, i).1)
    else ScanSpans(s, i + 1)
  }

  lemma {:induction false} ScanSpansScanned(s: string, i: nat)
    ensures Scanned(s, i, ScanSpans(s, i), PriceTokensFrom(s, i))
    decreases |s| - i
  {
    if i >= |s| {
      assert Scanned(s, i, [], []);
    } else if TokenStart(s, i) {
      var j := NumeralAt(s, i).1;
      ScanSpansScanned(s, j);
      ScannedCons(s, i, ScanSpans(s, j), PriceTokensFrom(s, j));
    } else {
      ScanSpansScanned(s, i + 1);
      ScannedSkip(s, i, ScanSpans(s, i + 1), PriceTokensFrom(s, i + 1));
    }
  }

  lemma ScannedCons(s: string, i: nat, rest: seq<(nat, nat)>, toks: seq<Numeral>)
    requires TokenStart(s, i) && Scanned(s, NumeralAt(s, i).1, rest, toks)
    ensures Scanned(s, i, [(i, NumeralAt(s, i).1)] + rest, [NumeralAt(s, i).0] + toks)
  {
    var e := NumeralAt(s, i).1;
    var spans := [(i, e)] + rest;
    MatchesCons(s, i, rest, toks);
    assert forall k :: 0 <= k < |rest| ==> e <= rest[k].0;
    DisjointCons(i, e, rest);
    forall p | i <= p && TokenStart(s, p) ensures InSpan(spans, p) {
      InSpanCons(i, e, rest, p);
    }
  }

  lemma MatchesCons(s: string, i: nat, rest: seq<(nat, nat)>, toks: seq<Numeral>)
    requires TokenStart(s, i) && MatchesAt(s, NumeralAt(s, i).1, rest, toks)
    ensures MatchesAt(s, i, [(i, NumeralAt(s, i).1)] + rest, [NumeralAt(s, i).0] + toks)
  {
    var spans, all := [(i, NumeralAt(s, i).1)] + rest, [NumeralAt(s, i).0] + toks;
    forall k | 0 <= k < |spans|
      ensures i <= spans[k].0 && TokenStart(s, spans[k].0) && NumeralAt(s, spans[k].0) == (all[k], spans[k].1)
    {
      if k > 0 {
        assert spans[k] == rest[k - 1] && all[k] == toks[k - 1];
      }
    }
  }

  /** A position that starts no token adds nothing. */
  lemma ScannedSkip(s: string, i: nat, spans: seq<(nat, nat)>, toks: seq<Numeral>)
    requires !TokenStart(s, i) && Scanned(s, i + 1, spans, toks)
    ensures Scanned(s, i, spans, toks)
  {
    forall p | i <= p && TokenStart(s, p) ensures InSpan(spans, p) {
      assert i + 1 <= p;
    }
  }

  /** Positions that hold no digit start no token and are skipped. */
  lemma {:induction false} SkipNonDigits(s: string, i: nat, j: nat)
    requires i <= j <= |s| && forall k :: i <= k < j ==> !IsDigit(s[k])
    ensures PriceTokensFrom(s, i) == PriceTokensFrom(s, j)
    decreases j - i
  {
    if i < j {
      SkipNonDigits(s, i + 1, j);
    }
  }

  /** A digit run from i to j with no decimal part after it is one whole token. */
  lemma WholeTokenAt(s: string, i: nat, j: nat, d: string)
    requires TokenStart(s, i) && i < j <= |s| && s[i..j] == d && IsDigits(d)
    requires j == |s| || (!IsDigit(s[j]) && s[j] != '.')
    ensures PriceTokensFrom(s, i) == [Numeral(d, "")] + PriceTokensFrom(s, j)
  {
    RunEndsAt(s, i, j);
  }

  /** A whole token at [c, e), with no digit from i up to it and none right after it. */
  lemma NextTokenAt(s: string, i: nat, c: nat, e: nat)
    requires i <= c < e <= |s|
    requires (forall k :: i <= k < c ==> !IsDigit(s[k])) && (c == 0 || !IsWordChar(s[c - 1]))
    requires IsDigits(s[c..e])
    requires e == |s| || (!IsDigit(s[e]) && s[e] != '.')
    ensures PriceTokensFrom(s, i) == [Numeral(s[c..e], "")] + PriceTokensFrom(s, e)
  {
    SkipNonDigits(s, i, c);
    assert s[c] == s[c..e][0];
    WholeTokenAt(s, c, e, s[c..e]);
  }

  /** A digit run glued to a preceding word character never starts a token. */
  lemma {:induction false} GluedDigitsAreSkipped(s: string, i: nat)
    requires 0 < i <= |s| && IsWordChar(s[i - 1])
    requires IsDigits(s[i..])
    ensures PriceTokensFrom(s, i) == []
    decreases |s| - i
  {
    if i < |s| {
      assert s[i] == s[i..][0];
      assert !TokenStart(s, i);
      assert s[i + 1..] == s[i..][1..];
      GluedDigitsAreSkipped(s, i + 1);
    }
  }

  // ---------------------------------------------------------------- parse_price

  /** `price_text.replace(",", " ").strip()`. */
  function PriceSearchText(priceText: string): string {
    Strip(StrSpace, ReplaceChar(priceText, ',', ' '))
  }

  /** The bounds `parse_price` takes from its tokens: only the first two count. */
  function TokenRange(toks: seq<Numeral>): (r: (Option<real>, Option<real>))
    requires forall t :: t in toks ==> ValidNumeral(t)
    ensures r.0.Some? <==> r.1.Some?
    ensures r.0.Some? ==> r.0.value <= r.1.value
    ensures toks == [] ==> r.0.None?
    ensures |toks| == 1 ==> r.0 == r.1 == Some(NumeralValue(toks[0]))
    ensures |toks| >= 2 ==>
              && r.0 == Some(MinReal(NumeralValue(toks[0]), NumeralValue(toks[1])))
              && r.1 == Some(MaxReal(NumeralValue(toks[0]), NumeralValue(toks[1])))
  {
    if toks == [] then (None, None)
    else if |toks| == 1 then (Some(NumeralValue(toks[0])), Some(NumeralValue(toks[0])))
    else
      var a, b := NumeralValue(toks[0]), NumeralValue(toks[1]);
      (Some(MinReal(a, b)), Some(MaxReal(a, b)))
  }

  /** `parse_price`: currency detection plus the bounds of the first two numeric tokens. */
  function ParsePrice(priceText: Option<string>): (r: PriceParse)
    ensures priceText.None? || priceText == Some("") ==> r == PriceParse(None, None, None)
    ensures r.currency.None? || r.currency.value in CurrencyCodes
    ensures r.lo.Some? <==> r.hi.Some?
    ensures r.lo.Some? ==> r.lo.value <= r.hi.value
    ensures priceText.Some? && priceText.value != "" ==>
              && r.currency == DetectCurrency(PriceSearchText(priceText.value))
              && (r.lo, r.hi) == TokenRange(PriceTokens(PriceSearchText(priceText.value)))
  {
    if priceText.None? || priceText.value == "" then PriceParse(None, None, None)
    else
      var txt := PriceSearchText(priceText.value);
      var (lo, hi) := TokenRange(PriceTokens(txt));
      PriceParse(lo, hi, DetectCurrency(txt))
  }

  /**
   * `parse_price` with commas read as digit-group separators: they are deleted
   * before the numeric tokens are taken, so "3,50,000" is one token.
   */
  function GroupedSearchText(priceText: string): string {
    Strip(StrSpace, RemoveChar(priceText, ','))
  }

  function ParsePriceGrouped(priceText: Option<string>): (r: PriceParse)
    ensures priceText.None? || priceText == Some("") ==> r == PriceParse(None, None, None)
    ensures r.currency.None? || r.currency.value in CurrencyCodes
    ensures r.lo.Some? <==> r.hi.Some?
    ensures r.lo.Some? ==> r.lo.value <= r.hi.value
    ensures priceText.Some? && priceText.value != "" ==>
              && r.currency == DetectCurrency(GroupedSearchText(priceText.value))
              && (r.lo, r.hi) == TokenRange(PriceTokens(GroupedSearchText(priceText.value)))
  {
    if priceText.None? || priceText.value == "" then PriceParse(None, None, None)
    else
      var txt := GroupedSearchText(priceText.value);
      var (lo, hi) := TokenRange(PriceTokens(txt));
      PriceParse(lo, hi, DetectCurrency(txt))
  }

  /** On text without commas the two readings agree. */
  lemma ParsePriceGroupedAgrees(priceText: string)
    requires ',' !in priceText
    ensures ParsePriceGrouped(Some(priceText)) == ParsePrice(Some(priceText))
  {
    RemoveAbsent(priceText, ',');
    assert ReplaceChar(priceText, ',', ' ') == priceText;
  }

  /** A needle that starts with a non-digit never occurs in a run of digits. */
  lemma NotInDigits(sub: string, d: string)
    requires |sub| > 0 && !IsDigit(sub[0]) && IsDigits(d)
    ensures !Occurs(sub, d)
  {
    forall i | 0 <= i <= |d| - |sub| ensures !OccursAt(sub, d, i) {
      assert d[i..i + |sub|][0] == d[i];
    }
    OccursIff(sub, d);
  }

  /** Text made of digits names no currency. */
  lemma DigitsHaveNoCurrency(d: string)
    requires IsDigits(d)
    ensures DetectCurrency(d) == None
  {
    forall j | 0 <= j < |CurrencySymbols| ensures !Occurs(CurrencySymbols[j].0, d) {
      NotInDigits(CurrencySymbols[j].0, d);
    }
    forall p: nat | p + 3 <= |d| ensures !CodeAt(d, p) {
      var x := d[p..p + 3];
      assert IsDigit(x[0]);
      assert Upper(x)[0] == UpperAscii(x[0]);
      assert forall code :: code in CurrencyCodes ==> !IsDigit(code[0]);
    }
    CodeSearchIsLeftmost(d, 0);
  }

  /** Text made of digits is one whole-number token. */
  lemma DigitsAreOneToken(d: string)
    requires |d| > 0 && IsDigits(d)
    ensures PriceTokens(d) == [Numeral(d, "")]
  {
    assert d[0..|d|] == d;
    RunEndsAt(d, 0, |d|);
    assert TokenStart(d, 0);
    assert NumeralAt(d, 0) == (Numeral(d, ""), |d|);
    assert PriceTokensFrom(d, 0) == [Numeral(d, "")] + PriceTokensFrom(d, |d|);
  }

  /**
   * With commas read as group separators, a grouped number such as "3,50,000"
   * is one number worth its digits, and names no currency.
   */
  lemma GroupedNumberReadsWhole(s: string)
    requires |s| > 0 && IsDigit(s[0])
    requires forall k :: 0 <= k < |s| ==> IsDigit(s[k]) || s[k] == ','
    ensures var d := RemoveChar(s, ',');
      && |d| > 0 && IsDigits(d)
      && ParsePriceGrouped(Some(s)) == PriceParse(Some(DigitsValue(d) as real), Some(DigitsValue(d) as real), None)
  {
    var d := RemoveChar(s, ',');
    assert d == [s[0]] + RemoveChar(s[1..], ',');
    forall k | 0 <= k < |d| ensures IsDigit(d[k]) {
      assert d[k] in d;
      var j :| 0 <= j < |s| && s[j] == d[k];
    }
    StripKeeps(StrSpace, d);
    assert GroupedSearchText(s) == d;
    DigitsAreOneToken(d);
    WholeValue(d);
    DigitsHaveNoCurrency(d);
  }

  // ---------------------------------------------------------------- jittered_delay

  /**
   * `jittered_delay`: max(0, base + random.uniform(0, jitter)), where the uniform
   * draw is 0 + (jitter - 0) * r for the underlying `random.random()` value r.
   */
  function JitteredDelay(base: real, jitter: real, r: real): (d: real)
    ensures d >= 0.0
    ensures d == base + jitter * r || (d == 0.0 && base + jitter * r < 0.0)
    ensures 0.0 <= r <= 1.0 && base >= 0.0 && jitter >= 0.0 ==> base <= d <= base + jitter
  {
    var u := 0.0 + (jitter - 0.0) * r;
    assert 0.0 <= r <= 1.0 && jitter >= 0.0 ==> 0.0 <= u <= jitter by {
      if 0.0 <= r <= 1.0 && jitter >= 0.0 {
        assert jitter * r <= jitter * 1.0;
      }
    }
    MaxReal(0.0, base + u)
  }
}
