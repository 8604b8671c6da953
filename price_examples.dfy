/**
 * The two price parsers on the inputs their authors had in mind: Indian
 * digit grouping ("₹ 3,50,000 - ₹ 4,00,000"), a symbol that appears later
 * in the text than another, a currency code glued to digits, and the report's
 * ranges "$10 - $15" and "₹ 3,50,000 / Piece".
 */
module PriceExamples {
  import opened Basics
  import opened Text
  import opened Jsonl
  import opened Util
  import opened EdaReport

  const GroupedRange: string := "\U{20B9} 3,50,000 - \U{20B9} 4,00,000"

  /** `GroupedRange` after `replace(",", " ")`. */
  const SpacedRange: string := "\U{20B9} 3 50 000 - \U{20B9} 4 00 000"

  /** `GroupedRange` with its commas deleted. */
  const DeletedRange: string := "\U{20B9} 350000 - \U{20B9} 400000"

  // ---------------------------------------------------------------- text

  lemma ReplaceCommaJoin(q: string, p: string)
    requires ',' !in p
    ensures ReplaceChar(q + "," + p, ',', ' ') == ReplaceChar(q, ',', ' ') + " " + p
  {
  }

  lemma RemoveCommaJoin(q: string, p: string)
    requires ',' !in p
    ensures RemoveChar(q + "," + p, ',') == RemoveChar(q, ',') + p
  {
    RemoveCharAppend(q + ",", p, ',');
    RemoveCharAppend(q, ",", ',');
    assert RemoveChar(",", ',') == [] + RemoveChar("", ',');
    RemoveAbsent(p, ',');
    assert RemoveChar(q + ",", ',') == RemoveChar(q, ',');
  }

  /** Replacing the commas of five comma-free parts joined by commas. */
  lemma ReplaceCommas5(p1: string, p2: string, p3: string, p4: string, p5: string)
    requires ',' !in p1 && ',' !in p2 && ',' !in p3 && ',' !in p4 && ',' !in p5
    ensures ReplaceChar(p1 + "," + p2 + "," + p3 + "," + p4 + "," + p5, ',', ' ')
            == p1 + " " + p2 + " " + p3 + " " + p4 + " " + p5
  {
    assert ReplaceChar(p1, ',', ' ') == p1;
    ReplaceCommaJoin(p1, p2);
    ReplaceCommaJoin(p1 + "," + p2, p3);
    ReplaceCommaJoin(p1 + "," + p2 + "," + p3, p4);
    ReplaceCommaJoin(p1 + "," + p2 + "," + p3 + "," + p4, p5);
  }

  /** Deleting the commas of five comma-free parts joined by commas. */
  lemma RemoveCommas5(p1: string, p2: string, p3: string, p4: string, p5: string)
    requires ',' !in p1 && ',' !in p2 && ',' !in p3 && ',' !in p4 && ',' !in p5
    ensures RemoveChar(p1 + "," + p2 + "," + p3 + "," + p4 + "," + p5, ',') == p1 + p2 + p3 + p4 + p5
  {
    RemoveAbsent(p1, ',');
    RemoveCommaJoin(p1, p2);
    RemoveCommaJoin(p1 + "," + p2, p3);
    RemoveCommaJoin(p1 + "," + p2 + "," + p3, p4);
    RemoveCommaJoin(p1 + "," + p2 + "," + p3 + "," + p4, p5);
  }

  /** The comma-free pieces of `GroupedRange`, in order. */
  lemma GroupedParts()
    ensures GroupedRange == "\U{20B9} 3" + "," + "50" + "," + "000 - \U{20B9} 4" + "," + "00" + "," + "000"
  {
  }

  lemma SpacedParts()
    ensures SpacedRange == "\U{20B9} 3" + " " + "50" + " " + "000 - \U{20B9} 4" + " " + "00" + " " + "000"
  {
  }

  lemma DeletedParts()
    ensures DeletedRange == "\U{20B9} 3" + "50" + "000 - \U{20B9} 4" + "00" + "000"
  {
  }

  lemma SpacedReplace(t: string)
    requires t == GroupedRange
    ensures ReplaceChar(t, ',', ' ') == SpacedRange
  {
    GroupedParts();
    SpacedParts();
    ReplaceCommas5("\U{20B9} 3", "50", "000 - \U{20B9} 4", "00", "000");
  }

  /** A price text that runs from "₹" to a digit has nothing to strip. */
  lemma RupeeToDigitIsStripped(s: string)
    requires |s| > 0 && s[0] == '\U{20B9}' && IsDigit(s[|s| - 1])
    ensures Strip(StrSpace, s) == s
  {
    StripKeeps(StrSpace, s);
  }

  lemma SpacedText(t: string)
    requires ReplaceChar(t, ',', ' ') == SpacedRange
    ensures PriceSearchText(t) == SpacedRange
  {
    var s := SpacedRange;
    assert s[0] == '\U{20B9}' && s[|s| - 1] == '0';
    RupeeToDigitIsStripped(s);
  }

  lemma DeletedRemove(t: string)
    requires t == GroupedRange
    ensures RemoveChar(t, ',') == DeletedRange
  {
    GroupedParts();
    DeletedParts();
    RemoveCommas5("\U{20B9} 3", "50", "000 - \U{20B9} 4", "00", "000");
  }

  lemma DeletedText(t: string)
    requires RemoveChar(t, ',') == DeletedRange
    ensures GroupedSearchText(t) == DeletedRange
  {
    var s := DeletedRange;
    assert s[0] == '\U{20B9}' && s[|s| - 1] == '0';
    RupeeToDigitIsStripped(s);
  }

  /** A text that starts with "₹" is priced in rupees, whatever follows. */
  lemma RupeeFirst(txt: string)
    requires |txt| > 0 && txt[0] == '\U{20B9}'
    ensures DetectCurrency(txt) == Some("INR")
  {
    assert txt[..1] == "\U{20B9}";
    assert SymbolCurrency(txt, 0) == Some("INR");
  }

  // ---------------------------------------------------------------- scanning for tokens

  predicate NoDigit(t: string) {
    forall k :: 0 <= k < |t| ==> !IsDigit(t[k])
  }

  /** A digit-free piece of a text. */
  lemma NoDigitSlice(s: string, i: nat, j: nat, t: string)
    requires i <= j <= |s| && s[i..j] == t && NoDigit(t)
    ensures forall k :: i <= k < j ==> !IsDigit(s[k])
  {
    forall k | i <= k < j ensures !IsDigit(s[k]) {
      assert s[k] == t[k - i];
    }
  }

  /** Where the pieces of `pre + gap + d + tail` sit. */
  lemma FourPieces(pre: string, gap: string, d: string, tail: string)
    ensures var s, i := pre + gap + d + tail, |pre|;
      var c := i + |gap|;
      var e := c + |d|;
      && |s| == e + |tail| && e == |pre + gap + d|
      && s[i..c] == gap && s[c..e] == d && s[..c] == pre + gap && s[e..] == tail
  {
  }

  /**
   * In `pre + gap + d + tail`, scanning from the end of `pre` meets the whole
   * number `d` first: `gap` holds no digit, no word character is glued to the
   * front of `d`, and `tail` does not continue it.
   */
  lemma PieceToken(pre: string, gap: string, d: string, tail: string)
    requires NoDigit(gap) && |d| > 0 && IsDigits(d)
    requires pre + gap == [] || !IsWordChar((pre + gap)[|pre + gap| - 1])
    requires tail == [] || (!IsDigit(tail[0]) && tail[0] != '.')
    ensures var s := pre + gap + d + tail;
      PriceTokensFrom(s, |pre|) == [Numeral(d, "")] + PriceTokensFrom(s, |pre + gap + d|)
  {
    var s := pre + gap + d + tail;
    var i := |pre|;
    var c := i + |gap|;
    var e := c + |d|;
    FourPieces(pre, gap, d, tail);
    NoDigitSlice(s, i, c, gap);
    assert c > 0 ==> s[c - 1] == (pre + gap)[c - 1] by {
      if c > 0 { assert s[c - 1] == s[..c][c - 1]; }
    }
    assert e < |s| ==> s[e] == tail[0] by {
      if e < |s| { assert s[e] == s[e..][0]; }
    }
    NextTokenAt(s, i, c, e);
  }

  /**
   * The first two tokens of a text made of a digit-free lead, a number, a
   * digit-free gap and a second number, followed by anything that does not
   * continue the second number.
   */
  lemma TwoWholeTokens(lead: string, d1: string, gap: string, d2: string, rest: string)
    requires NoDigit(lead) && (lead == [] || !IsWordChar(lead[|lead| - 1]))
    requires |d1| > 0 && IsDigits(d1) && |d2| > 0 && IsDigits(d2)
    requires |gap| > 0 && NoDigit(gap) && gap[0] != '.' && !IsWordChar(gap[|gap| - 1])
    requires rest == [] || (!IsDigit(rest[0]) && rest[0] != '.')
    ensures var s := lead + d1 + gap + d2 + rest;
      PriceTokens(s) == [Numeral(d1, ""), Numeral(d2, "")] + PriceTokensFrom(s, |lead + d1 + gap + d2|)
  {
    var s := lead + d1 + gap + d2 + rest;
    TwoPieces(lead, d1, gap, d2, rest);
    PieceTokenIn(s, [], lead, d1, gap + d2 + rest);
    PieceTokenIn(s, lead + d1, gap, d2, rest);
    TokensChain(s, 0, |lead + d1|, |lead + d1 + gap + d2|, Numeral(d1, ""), Numeral(d2, ""));
  }

  /** Two scan steps in a row yield their two tokens in order. */
  lemma TokensChain(s: string, i: nat, j: nat, k: nat, t1: Numeral, t2: Numeral)
    requires PriceTokensFrom(s, i) == [t1] + PriceTokensFrom(s, j)
    requires PriceTokensFrom(s, j) == [t2] + PriceTokensFrom(s, k)
    ensures PriceTokensFrom(s, i) == [t1, t2] + PriceTokensFrom(s, k)
  {
    assert [t1] + ([t2] + PriceTokensFrom(s, k)) == [t1, t2] + PriceTokensFrom(s, k);
  }

  /** `PieceToken` for a text `s` already split as `pre + gap + d + tail`. */
  lemma PieceTokenIn(s: string, pre: string, gap: string, d: string, tail: string)
    requires s == pre + gap + d + tail
    requires NoDigit(gap) && |d| > 0 && IsDigits(d)
    requires pre + gap == [] || !IsWordChar((pre + gap)[|pre + gap| - 1])
    requires tail == [] || (!IsDigit(tail[0]) && tail[0] != '.')
    ensures PriceTokensFrom(s, |pre|) == [Numeral(d, "")] + PriceTokensFrom(s, |pre + gap + d|)
  {
    PieceToken(pre, gap, d, tail);
  }

  /** How the text of `TwoWholeTokens` splits for each of its two tokens. */
  lemma TwoPieces(lead: string, d1: string, gap: string, d2: string, rest: string)
    requires |gap| > 0 && NoDigit(gap) && gap[0] != '.'
    ensures var s, tail := lead + d1 + gap + d2 + rest, gap + d2 + rest;
      && s == [] + lead + d1 + tail && s == lead + d1 + gap + d2 + rest
      && [] + lead == lead && |[] + lead + d1| == |lead + d1|
      && !IsDigit(tail[0]) && tail[0] != '.'
      && (lead + d1 + gap)[|lead + d1 + gap| - 1] == gap[|gap| - 1]
  {
    var tail := gap + d2 + rest;
    assert tail[0] == gap[0];
    assert [] + lead == lead;
  }

  /** How `parse_price` assembles its result from the search text's currency and first two tokens. */
  lemma PricedRange(txt: string, text: string, toks: seq<Numeral>, x: real, y: real, cur: Option<string>)
    requires txt != "" && PriceSearchText(txt) == text
    requires DetectCurrency(text) == cur && PriceTokens(text) == toks
    requires |toks| >= 2 && NumeralValue(toks[0]) == x && NumeralValue(toks[1]) == y && x <= y
    ensures ParsePrice(Some(txt)) == PriceParse(Some(x), Some(y), cur)
  {
  }

  // ---------------------------------------------------------------- parse_price as written

  lemma SpacedTokens(s: string)
    requires s == SpacedRange
    ensures |PriceTokens(s)| >= 2
    ensures PriceTokens(s)[0] == Numeral("3", "") && PriceTokens(s)[1] == Numeral("50", "")
  {
    assert s == "\U{20B9} " + "3" + " " + "50" + " 000 - \U{20B9} 4 00 000";
    TwoWholeTokens("\U{20B9} ", "3", " ", "50", " 000 - \U{20B9} 4 00 000");
  }

  lemma SpacedRangeBounds(s: string)
    requires s == SpacedRange
    ensures TokenRange(PriceTokens(s)) == (Some(3.0), Some(50.0))
  {
    SpacedTokens(s);
    var toks := PriceTokens(s);
    assert NumeralValue(toks[0]) == 3.0 by { WholeValue("3"); }
    assert NumeralValue(toks[1]) == 50.0 by {
      WholeValue("50");
      assert DigitsValue("50") == 50 by { assert "50"[..1] == "5"; }
    }
  }

  /**
   * As written, `parse_price` turns the grouping commas into spaces, so the
   * first two numbers of "₹ 3,50,000 - ₹ 4,00,000" are 3 and 50.
   */
  lemma GroupedRangeAsWritten()
    ensures ParsePrice(Some(GroupedRange)) == PriceParse(Some(3.0), Some(50.0), Some("INR"))
  {
    SpacedReplace(GroupedRange);
    SpacedText(GroupedRange);
    SpacedRangeBounds(SpacedRange);
    RupeeFirst(SpacedRange);
  }

  // ---------------------------------------------------------------- digit runs

  lemma DigitsSnoc(d: string, c: char)
    requires IsDigits(d) && IsDigit(c)
    ensures IsDigits(d + [c]) && DigitsValue(d + [c]) == DigitsValue(d) * 10 + DigitValue(c)
  {
    assert (d + [c])[..|d|] == d;
  }

  /** A digit followed by five zeros is worth that digit times 100000. */
  lemma FiveZeros(d: string)
    requires |d| == 6 && IsDigit(d[0]) && d[1..] == "00000"
    ensures DigitsValue(d) == DigitValue(d[0]) * 100000
  {
    var c := d[0];
    var x := DigitValue(c);
    assert DigitValue('0') == 0;
    assert DigitsValue([c]) == x by { assert [c][..0] == []; }
    DigitsSnoc([c], '0');
    assert [c] + ['0'] == [c, '0'];
    DigitsSnoc([c, '0'], '0');
    assert [c, '0'] + ['0'] == [c, '0', '0'];
    DigitsSnoc([c, '0', '0'], '0');
    assert [c, '0', '0'] + ['0'] == [c, '0', '0', '0'];
    DigitsSnoc([c, '0', '0', '0'], '0');
    assert [c, '0', '0', '0'] + ['0'] == [c, '0', '0', '0', '0'];
    DigitsSnoc([c, '0', '0', '0', '0'], '0');
    assert [c, '0', '0', '0', '0'] + ['0'] == [c, '0', '0', '0', '0', '0'];
    assert d == [c, '0', '0', '0', '0', '0'];
  }

  lemma SixDigits()
    ensures DigitsValue("350000") == 350000 && DigitsValue("400000") == 400000
  {
    ThreeHundredFifty();
    FiveZeros("400000");
  }

  lemma ThreeHundredFifty()
    ensures DigitsValue("350000") == 350000
  {
    assert DigitsValue("3") == 3 by { assert "3"[..0] == []; }
    DigitsSnoc("3", '5');
    assert "35" == "3" + ['5'];
    DigitsSnoc("35", '0');
    assert "350" == "35" + ['0'];
    DigitsSnoc("350", '0');
    assert "3500" == "350" + ['0'];
    DigitsSnoc("3500", '0');
    assert "35000" == "3500" + ['0'];
    DigitsSnoc("35000", '0');
    assert "350000" == "35000" + ['0'];
  }

  // ---------------------------------------------------------------- parse_price with grouping

  lemma DeletedTokens(s: string)
    requires s == DeletedRange
    ensures |PriceTokens(s)| >= 2
    ensures PriceTokens(s)[0] == Numeral("350000", "") && PriceTokens(s)[1] == Numeral("400000", "")
  {
    assert s == "\U{20B9} " + "350000" + " - \U{20B9} " + "400000" + "";
    TwoWholeTokens("\U{20B9} ", "350000", " - \U{20B9} ", "400000", "");
  }

  lemma DeletedRangeBounds(s: string)
    requires s == DeletedRange
    ensures TokenRange(PriceTokens(s)) == (Some(350000.0), Some(400000.0))
  {
    DeletedTokens(s);
    var toks := PriceTokens(s);
    SixDigits();
    assert NumeralValue(toks[0]) == 350000.0 by { WholeValue("350000"); }
    assert NumeralValue(toks[1]) == 400000.0 by { WholeValue("400000"); }
  }

  /** Read with commas as group separators, the same text is the range 350000 to 400000 rupees. */
  lemma GroupedRangeCorrected()
    ensures ParsePriceGrouped(Some(GroupedRange)) == PriceParse(Some(350000.0), Some(400000.0), Some("INR"))
  {
    DeletedRemove(GroupedRange);
    DeletedText(GroupedRange);
    DeletedRangeBounds(DeletedRange);
    RupeeFirst(DeletedRange);
  }

  // ---------------------------------------------------------------- currency precedence

  lemma TableOrderCurrency(s: string)
    requires s == "\U{20AC}5 or $6"
    ensures DetectCurrency(s) == Some("USD")
  {
    assert !Occurs("\U{20B9}", s) by { NotOccurring("\U{20B9}", s); }
    assert s[6..7] == "$";
    assert Occurs("$", s) by { OccursIff("$", s); assert OccursAt("$", s, 6); }
    assert SymbolCurrency(s, 0) == Some("USD");
  }

  lemma TableOrderTokens(s: string)
    requires s == "\U{20AC}5 or $6"
    ensures PriceTokens(s) == [Numeral("5", ""), Numeral("6", "")]
  {
    assert s == "\U{20AC}" + "5" + " or $" + "6" + "";
    TwoWholeTokens("\U{20AC}", "5", " or $", "6", "");
    assert PriceTokensFrom(s, |s|) == [];
  }

  lemma TableOrderText(s: string)
    requires s == "\U{20AC}5 or $6"
    ensures PriceSearchText(s) == s
  {
    assert ReplaceChar(s, ',', ' ') == s;
    StripKeeps(StrSpace, s);
  }

  /** The table order decides: "$" comes before "€" in the table, so "€5 or $6" is in dollars. */
  lemma TableOrderWins(s: string)
    requires s == "\U{20AC}5 or $6"
    ensures ParsePrice(Some(s)) == PriceParse(Some(5.0), Some(6.0), Some("USD"))
  {
    TableOrderText(s);
    TableOrderCurrency(s);
    TableOrderTokens(s);
    WholeValue("5");
    WholeValue("6");
    PricedRange(s, s, [Numeral("5", ""), Numeral("6", "")], 5.0, 6.0, Some("USD"));
  }

  /** A needle whose first character is not in the text does not occur in it. */
  lemma NotOccurring(sub: string, s: string)
    requires |sub| > 0 && sub[0] !in s
    ensures !Occurs(sub, s)
  {
    forall i | 0 <= i <= |s| - |sub| ensures !OccursAt(sub, s, i) {
      assert s[i..i + |sub|][0] == s[i];
    }
    OccursIff(sub, s);
  }

  lemma GluedCurrency(s: string)
    requires s == "Rs10"
    ensures DetectCurrency(s) == None
  {
    forall j | 0 <= j < |CurrencySymbols| ensures !Occurs(CurrencySymbols[j].0, s) {
      NotOccurring(CurrencySymbols[j].0, s);
    }
    assert forall code :: code in CurrencyCodes ==> !IsDigit(code[1]) && !IsDigit(code[2]);
    assert !CodeAt(s, 0) by { assert Upper(s[0..3])[2] == '1'; }
    assert !CodeAt(s, 1) by { assert Upper(s[1..4])[1] == '1'; }
    assert CodeSearch(s, 2) == None;
    assert CodeSearch(s, 1) == None;
  }

  lemma GluedText(s: string)
    requires s == "Rs10"
    ensures PriceSearchText(s) == s
  {
    assert ReplaceChar(s, ',', ' ') == s;
    StripKeeps(StrSpace, s);
  }

  /** Digits glued to a word, as in "Rs10", are not a price, and "Rs" is not a currency code. */
  lemma GluedDigitsAreNoPrice(s: string)
    requires s == "Rs10"
    ensures ParsePrice(Some(s)) == PriceParse(None, None, None)
  {
    GluedText(s);
    GluedCurrency(s);
    assert s[2..] == "10";
    GluedDigitsAreSkipped(s, 2);
    assert !TokenStart(s, 0) && !TokenStart(s, 1);
    assert PriceTokensFrom(s, 0) == PriceTokensFrom(s, 1) == PriceTokensFrom(s, 2);
  }

  // ---------------------------------------------------------------- _norm_price

  /** A row that has only a price text. */
  function TextOnly(text: string): (row: Row)
    ensures NeedsParse(row) && Get(row, "price_text") == Str(text)
  {
    map["price_text" := Str(text)]
  }

  lemma DollarTokens(s: string)
    requires s == "$10 - $15"
    ensures NormTokens(s) == ["10", "15"]
  {
    RunEndsAt(s, 1, 3);
    assert GroupedEnd(s, 1) == 3;
    RunEndsAt(s, 7, 9);
    assert GroupedEnd(s, 7) == 9;
    assert s[1..3] == "10" && s[7..9] == "15";
    assert NormTokensFrom(s, 7) == ["15"] + NormTokensFrom(s, 9);
    assert NormTokensFrom(s, 3) == NormTokensFrom(s, 4) == NormTokensFrom(s, 5) == NormTokensFrom(s, 6) == NormTokensFrom(s, 7);
    assert NormTokensFrom(s, 1) == ["10"] + NormTokensFrom(s, 3);
    assert NormTokensFrom(s, 0) == NormTokensFrom(s, 1);
  }

  /** "$10 - $15" normalises to the range 10 to 15. */
  lemma DollarRange(s: string)
    requires s == "$10 - $15"
    ensures NormPrice(TextOnly(s)) == Ok((Number(10.0), Number(15.0)))
  {
    DollarTokens(s);
    DollarRow(TextOnly(s));
  }

  lemma DollarRow(row: Row)
    requires NeedsParse(row) && NormTokens(Get(row, "price_text").s) == ["10", "15"]
    ensures NormPrice(row) == Ok((Number(10.0), Number(15.0)))
  {
    assert DigitsValue("10") == 10 by { assert "10"[..1] == "1"; }
    assert DigitsValue("15") == 15 by { assert "15"[..1] == "1"; }
    assert IsDigits("10") && IsDigits("15");
    NormPriceOfValues(row, ["10", "15"], [10.0, 15.0]);
    assert Least([10.0, 15.0]) == 10.0 && Greatest([10.0, 15.0]) == 15.0;
  }

  /** When every token converts, the range is the least and the greatest of the values. */
  lemma NormPriceOfValues(row: Row, toks: seq<string>, xs: seq<real>)
    requires NeedsParse(row) && NormTokens(Get(row, "price_text").s) == toks
    requires toks != [] && |xs| == |toks|
    requires forall k :: 0 <= k < |toks| ==> IsGrouped(toks[k]) && TokenValue(toks[k]) == Ok(xs[k])
    ensures NormPrice(row) == Ok((Number(Least(xs)), Number(Greatest(xs))))
  {
    var vals := TokenValues(toks);
    assert vals.Ok?;
    assert vals.value == xs;
  }

  lemma UnitGroupedEnd(s: string)
    requires s == "\U{20B9} 3,50,000 / Piece"
    ensures GroupedEnd(s, 2) == 10
  {
    UnitGroupedMiddle(s);
    RunEndsAt(s, 2, 3);
  }

  /** The match from "50,000" on ends with the text's number. */
  lemma UnitGroupedMiddle(s: string)
    requires s == "\U{20B9} 3,50,000 / Piece"
    ensures GroupedEnd(s, 4) == 10
  {
    UnitGroupedLast(s);
    RunEndsAt(s, 4, 6);
  }

  lemma UnitGroupedLast(s: string)
    requires s == "\U{20B9} 3,50,000 / Piece"
    ensures GroupedEnd(s, 7) == 10
  {
    RunEndsAt(s, 7, 10);
  }

  lemma UnitPriceTokens(s: string)
    requires s == "\U{20B9} 3,50,000 / Piece"
    ensures NormTokens(s) == ["3,50,000"]
  {
    assert !IsDigit(s[0]) && !IsDigit(s[1]);
    NormSkip(s, 0);
    NormSkip(s, 1);
    UnitTokenAt(s);
  }

  /** A character that is not a digit starts no token. */
  lemma NormSkip(s: string, i: nat)
    requires i < |s| && !IsDigit(s[i])
    ensures NormTokensFrom(s, i) == NormTokensFrom(s, i + 1)
  {
  }

  lemma UnitTokenAt(s: string)
    requires s == "\U{20B9} 3,50,000 / Piece"
    ensures NormTokensFrom(s, 2) == ["3,50,000"]
  {
    UnitGroupedEnd(s);
    UnitNoMoreTokens(s);
    assert s[2..10] == "3,50,000";
    assert NormTokensFrom(s, 2) == [s[2..10]] + NormTokensFrom(s, 10);
  }

  lemma UnitNoMoreTokens(s: string)
    requires s == "\U{20B9} 3,50,000 / Piece"
    ensures NormTokensFrom(s, 10) == []
  {
    assert forall k :: 10 <= k < |s| ==> !IsDigit(s[k]);
  }

  lemma GroupedTokenDigits(t: string)
    requires t == "3,50,000"
    ensures RemoveChar(t, ',') == "350000"
  {
    var a, b, c := "3", "50", "000";
    assert t == (a + "," + b) + "," + c;
    RemoveAbsent(a, ',');
    RemoveCommaJoin(a, b);
    RemoveCommaJoin(a + "," + b, c);
    assert a + b + c == "350000";
  }

  lemma GroupedTokenShape(t: string)
    requires t == "3,50,000"
    ensures IsGrouped(t)
  {
    DigitsAreGrouped("000");
    GroupedJoin("50", ',', "000");
    assert "50" + [','] + "000" == "50,000";
    GroupedJoin("3", ',', "50,000");
    assert "3" + [','] + "50,000" == t;
  }

  lemma GroupedTokenValue(t: string)
    requires t == "3,50,000"
    ensures IsGrouped(t) && TokenValue(t) == Ok(350000.0)
  {
    GroupedTokenShape(t);
    GroupedTokenDigits(t);
    CountAbsent("350000", '.');
    SixDigits();
  }

  /** "₹ 3,50,000 / Piece" normalises to 350000 at both ends: the report deletes the commas. */
  lemma GroupedUnitPrice(s: string)
    requires s == "\U{20B9} 3,50,000 / Piece"
    ensures NormPrice(TextOnly(s)) == Ok((Number(350000.0), Number(350000.0)))
  {
    UnitPriceTokens(s);
    UnitRow(TextOnly(s));
  }

  lemma UnitRow(row: Row)
    requires NeedsParse(row) && NormTokens(Get(row, "price_text").s) == ["3,50,000"]
    ensures NormPrice(row) == Ok((Number(350000.0), Number(350000.0)))
  {
    GroupedTokenValue("3,50,000");
    NormPriceOfValues(row, ["3,50,000"], [350000.0]);
  }
}
