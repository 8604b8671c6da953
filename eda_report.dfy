/**
 * The report stage's reader and its rough price normaliser `_norm_price`.
 * `_norm_price` takes every run of digits joined by single "." or "," separators,
 * deletes the commas, reads each token as a number, and keeps the least and the
 * greatest; it looks for no currency.  Numbers are exact reals rather than floats.
 */
module EdaReport {
  import opened Basics
  import opened Text
  import opened Jsonl

  // ---------------------------------------------------------------- tokens

  predicate IsSeparator(c: char) { c == '.' || c == ',' }

  /** The shape of a match of `[0-9]+(?:[.,][0-9]+)*`: digit runs joined by single separators. */
  predicate IsGrouped(t: string) {
    && |t| > 0 && IsDigit(t[0]) && IsDigit(t[|t| - 1])
    && (forall k :: 0 <= k < |t| ==> IsDigit(t[k]) || IsSeparator(t[k]))
    && (forall k :: 0 <= k < |t| - 1 ==> SeparatorThenDigit(t, k))
  }

  /** A separator at k is followed by a digit. */
  predicate SeparatorThenDigit(t: string, k: nat)
    requires k + 1 < |t|
  {
    IsSeparator(t[k]) ==> IsDigit(t[k + 1])
  }

  /** End of the greedy match of the pattern that starts at digit i. */
  function GroupedEnd(s: string, i: nat): (j: nat)
    requires i < |s| && IsDigit(s[i])
    ensures i < j <= |s| && IsGrouped(s[i..j])
    ensures j == |s| || !IsDigit(s[j])
    ensures j + 1 < |s| && IsSeparator(s[j]) ==> !IsDigit(s[j + 1])
    decreases |s| - i
  {
    var e := DigitRunEnd(s, i);
    if e + 1 < |s| && IsSeparator(s[e]) && IsDigit(s[e + 1]) then
      var j := GroupedEnd(s, e + 1);
      GroupedExtend(s, i, e, j);
      j
    else
      DigitsAreGrouped(s[i..e]);
      e
  }

  /** A digit run, a separator and a match after it make one match. */
  lemma GroupedExtend(s: string, i: nat, e: nat, j: nat)
    requires i < e && e + 1 < j <= |s| && IsDigits(s[i..e]) && IsSeparator(s[e]) && IsGrouped(s[e + 1..j])
    ensures IsGrouped(s[i..j])
  {
    GroupedJoin(s[i..e], s[e], s[e + 1..j]);
    assert s[i..j] == s[i..e] + [s[e]] + s[e + 1..j];
  }

  lemma DigitsAreGrouped(d: string)
    requires |d| > 0 && IsDigits(d)
    ensures IsGrouped(d)
  {
  }

  /** Two matches joined by one separator make one match. */
  lemma GroupedJoin(head: string, c: char, tail: string)
    requires |head| > 0 && IsDigits(head) && IsSeparator(c) && IsGrouped(tail)
    ensures IsGrouped(head + [c] + tail)
  {
    var t := head + [c] + tail;
    forall k | 0 <= k < |t| ensures IsDigit(t[k]) || IsSeparator(t[k]) {
      if k < |head| { assert t[k] == head[k]; }
      else if k > |head| { assert t[k] == tail[k - |head| - 1]; }
    }
    forall k | 0 <= k < |t| - 1 ensures SeparatorThenDigit(t, k) {
      if k == |head| { assert t[k + 1] == tail[0]; }
      else if k > |head| {
        assert t[k] == tail[k - |head| - 1] && t[k + 1] == tail[k - |head|];
        assert SeparatorThenDigit(tail, k - |head| - 1);
      }
    }
    assert t[|t| - 1] == tail[|tail| - 1];
  }

  /** `re.findall(r"[0-9]+(?:[.,][0-9]+)*", s)`, scanning from position i. */
  function NormTokensFrom(s: string, i: nat): (toks: seq<string>)
    ensures forall t :: t in toks ==> IsGrouped(t)
    ensures toks == [] <==> forall k :: i <= k < |s| ==> !IsDigit(s[k])
    decreases |s| - i
  {
    if i >= |s| then []
    else if IsDigit(s[i]) then
      var j := GroupedEnd(s, i);
      [s[i..j]] + NormTokensFrom(s, j)
    else NormTokensFrom(s, i + 1)
  }

  /** A match of the pattern can begin at p. */
  predicate MatchStart(s: string, p: nat) {
    p < |s| && IsDigit(s[p])
  }

  /**
   * `toks` are the texts of the greedy matches over `spans`: each span starts at
   * a digit at or after i and ends where the greedy match from there ends, the
   * spans are in increasing order and do not overlap, and every digit at or
   * after i lies inside one of them.
   */
  ghost predicate NormScanned(s: string, i: nat, spans: seq<(nat, nat)>, toks: seq<string>) {
    NormMatchesAt(s, i, spans, toks) && Disjoint(spans)
    && (forall p :: i <= p < |s| ==> DigitCovered(s, spans, p))
  }

  /** Token k is the text of span k, the greedy match at a digit at or after i. */
  ghost predicate NormMatchesAt(s: string, i: nat, spans: seq<(nat, nat)>, toks: seq<string>) {
    && |spans| == |toks|
    && (forall k :: 0 <= k < |spans| ==>
          && i <= spans[k].0 && MatchStart(s, spans[k].0) && spans[k].1 == GroupedEnd(s, spans[k].0)
          && toks[k] == s[spans[k].0..spans[k].1])
  }

  /** A digit at p lies inside one of `spans`. */
  ghost predicate DigitCovered(s: string, spans: seq<(nat, nat)>, p: nat)
    requires p < |s|
  {
    IsDigit(s[p]) ==> InSpan(spans, p)
  }

  /** `findall` returns exactly the leftmost-greedy, non-overlapping matches after i. */
  lemma NormTokensScan(s: string, i: nat)
    ensures exists spans :: NormScanned(s, i, spans, NormTokensFrom(s, i))
  {
    NormSpansScanned(s, i);
  }

  /** Where the scan from i finds its matches. */
  ghost function NormSpans(s: string, i: nat): seq<(nat, nat)>
    decreases |s| - i
  {
    if i >= |s| then []
    else if IsDigit(s[i]) then [(i, GroupedEnd(s, i))] + NormSpans(s, GroupedEnd(s, i))
    else NormSpans(s, i + 1)
  }

  lemma {:induction false} NormSpansScanned(s: string, i: nat)
    ensures NormScanned(s, i, NormSpans(s, i), NormTokensFrom(s, i))
    decreases |s| - i
  {
    if i >= |s| {
      assert NormScanned(s, i, [], []);
    } else if IsDigit(s[i]) {
      var j := GroupedEnd(s, i);
      NormSpansScanned(s, j);
      NormScannedCons(s, i, NormSpans(s, j), NormTokensFrom(s, j));
    } else {
      NormSpansScanned(s, i + 1);
      NormScannedSkip(s, i, NormSpans(s, i + 1), NormTokensFrom(s, i + 1));
    }
  }

  lemma NormScannedCons(s: string, i: nat, rest: seq<(nat, nat)>, toks: seq<string>)
    requires MatchStart(s, i) && NormScanned(s, GroupedEnd(s, i), rest, toks)
    ensures NormScanned(s, i, [(i, GroupedEnd(s, i))] + rest, [s[i..GroupedEnd(s, i)]] + toks)
  {
    var e := GroupedEnd(s, i);
    var spans := [(i, e)] + rest;
    NormMatchesCons(s, i, rest, toks);
    assert forall k :: 0 <= k < |rest| ==> e <= rest[k].0;
    DisjointCons(i, e, rest);
    forall p | i <= p < |s| ensures DigitCovered(s, spans, p) {
      if IsDigit(s[p]) {
        if e <= p {
          assert DigitCovered(s, rest, p);
        }
        InSpanCons(i, e, rest, p);
      }
    }
  }

  lemma NormMatchesCons(s: string, i: nat, rest: seq<(nat, nat)>, toks: seq<string>)
    requires MatchStart(s, i) && NormMatchesAt(s, GroupedEnd(s, i), rest, toks)
    ensures NormMatchesAt(s, i, [(i, GroupedEnd(s, i))] + rest, [s[i..GroupedEnd(s, i)]] + toks)
  {
    var spans, all := [(i, GroupedEnd(s, i))] + rest, [s[i..GroupedEnd(s, i)]] + toks;
    forall k | 0 <= k < |spans|
      ensures && i <= spans[k].0 && MatchStart(s, spans[k].0) && spans[k].1 == GroupedEnd(s, spans[k].0)
              && all[k] == s[spans[k].0..spans[k].1]
    {
      if k > 0 {
        assert spans[k] == rest[k - 1] && all[k] == toks[k - 1];
      }
    }
  }

  /** A position that holds no digit adds nothing. */
  lemma NormScannedSkip(s: string, i: nat, spans: seq<(nat, nat)>, toks: seq<string>)
    requires i < |s| && !IsDigit(s[i]) && NormScanned(s, i + 1, spans, toks)
    ensures NormScanned(s, i, spans, toks)
  {
    forall p | i <= p < |s| ensures DigitCovered(s, spans, p) {
      if p == i {
        assert !IsDigit(s[p]);
      } else {
        assert DigitCovered(s, spans, p);
      }
    }
  }

  function NormTokens(s: string): (toks: seq<string>)
    ensures forall k :: 0 <= k < |toks| ==> IsGrouped(toks[k])
  {
    var toks := NormTokensFrom(s, 0);
    assert forall k :: 0 <= k < |toks| ==> toks[k] in toks;
    toks
  }

  // ---------------------------------------------------------------- values

  lemma {:induction false} CountRemoved(s: string, c: char, x: char)
    requires x != c
    ensures Count(RemoveChar(s, c), x) == Count(s, x)
  {
    if s != [] {
      CountRemoved(s[1..], c, x);
      var head := if s[0] == c then [] else [s[0]];
      CountAppend(head, RemoveChar(s[1..], c), x);
    }
  }

  lemma {:induction false} CountAppend(a: string, b: string, x: char)
    ensures Count(a + b, x) == Count(a, x) + Count(b, x)
  {
    if a == [] {
      assert a + b == b;
    } else {
      assert (a + b)[0] == a[0] && (a + b)[1..] == a[1..] + b;
      CountAppend(a[1..], b, x);
    }
  }

  lemma {:induction false} CountAbsent(s: string, x: char)
    ensures Count(s, x) == 0 <==> x !in s
  {
    if s != [] {
      CountAbsent(s[1..], x);
      assert x in s <==> s[0] == x || x in s[1..];
    }
  }

  /** What is left of a match once its commas are deleted: digits and dots. */
  predicate DigitsAndDots(d: string) {
    forall k :: 0 <= k < |d| ==> IsDigit(d[k]) || d[k] == '.'
  }

  lemma CommasDeleted(t: string)
    requires IsGrouped(t)
    ensures DigitsAndDots(RemoveChar(t, ','))
    ensures Count(RemoveChar(t, ','), '.') == Count(t, '.')
    ensures IsDigits(t) ==> RemoveChar(t, ',') == t && Count(t, '.') == 0
  {
    var d := RemoveChar(t, ',');
    forall k | 0 <= k < |d| ensures IsDigit(d[k]) || d[k] == '.' {
      assert d[k] in d && d[k] in t;
    }
    CountRemoved(t, ',', '.');
    if IsDigits(t) {
      assert ',' !in t && '.' !in t by {
        forall k | 0 <= k < |t| ensures t[k] != ',' && t[k] != '.' { assert IsDigit(t[k]); }
      }
      RemoveAbsent(t, ',');
      CountAbsent(t, '.');
    }
  }

  /** Around its first dot, text of digits and dots has more dots exactly when it has two or more. */
  lemma DotSplit(d: string)
    requires DigitsAndDots(d) && '.' in d
    ensures var i := IndexOf(d, '.');
      && IsDigits(d[..i])
      && ('.' !in d[i + 1..] ==> IsDigits(d[i + 1..]))
      && (Count(d, '.') <= 1 <==> '.' !in d[i + 1..])
  {
    var i := IndexOf(d, '.');
    var whole, frac := d[..i], d[i + 1..];
    assert d == whole + ['.'] + frac;
    CountAppend(whole + ['.'], frac, '.');
    CountAppend(whole, ['.'], '.');
    CountAbsent(whole, '.');
    CountAbsent(frac, '.');
    forall k | 0 <= k < |whole| ensures IsDigit(whole[k]) {
      assert whole[k] == d[k] && whole[k] in whole;
    }
    if '.' !in frac {
      forall k | 0 <= k < |frac| ensures IsDigit(frac[k]) {
        assert frac[k] == d[i + 1 + k] && frac[k] in frac;
      }
    }
  }

  lemma DotFree(d: string)
    requires DigitsAndDots(d) && '.' !in d
    ensures IsDigits(d)
  {
    forall k | 0 <= k < |d| ensures IsDigit(d[k]) {
      assert d[k] in d;
    }
  }

  /** `float(d)` for digits with at most one dot, exactly. */
  function DecimalValue(d: string): (v: real)
    requires DigitsAndDots(d) && Count(d, '.') <= 1
    ensures v >= 0.0
    ensures IsDigits(d) ==> v == DigitsValue(d) as real
  {
    CountAbsent(d, '.');
    if '.' !in d then
      DotFree(d);
      DigitsValue(d) as real
    else
      DotSplit(d);
      var i := IndexOf(d, '.');
      assert !IsDigits(d) by { assert !IsDigit(d[i]); }
      var whole, frac := d[..i], d[i + 1..];
      DigitsValue(whole) as real + DigitsValue(frac) as real / Pow10(|frac|) as real
  }

  /** `float(t.replace(",", ""))`: a second "." makes the conversion raise ValueError (the token is the error). */
  function TokenValue(t: string): (v: Result<real, string>)
    requires IsGrouped(t)
    ensures v.Ok? <==> Count(t, '.') <= 1
    ensures v.Ok? ==> v.value >= 0.0
    ensures v.Err? ==> v.error == t
    ensures IsDigits(t) ==> v == Ok(DigitsValue(t) as real)
  {
    var d := RemoveChar(t, ',');
    CommasDeleted(t);
    if Count(d, '.') >= 2 then Err(t) else Ok(DecimalValue(d))
  }

  /** `list(map(float, nums))`: the values in order, or the first token whose conversion raises. */
  function TokenValues(toks: seq<string>): (r: Result<seq<real>, string>)
    requires forall t :: t in toks ==> IsGrouped(t)
    ensures r.Ok? <==> forall k :: 0 <= k < |toks| ==> Count(toks[k], '.') <= 1
    ensures r.Ok? ==> |r.value| == |toks| && forall k :: 0 <= k < |toks| ==> TokenValue(toks[k]) == Ok(r.value[k])
    ensures r.Err? ==> exists k :: 0 <= k < |toks| && toks[k] == r.error && Count(toks[k], '.') >= 2
                                   && forall j :: 0 <= j < k ==> Count(toks[j], '.') <= 1
  {
    if toks == [] then Ok([])
    else
      var first := TokenValue(toks[0]);
      if first.Err? then Err(first.error)
      else
        var rest := TokenValues(toks[1..]);
        assert forall k :: 1 <= k < |toks| ==> toks[k] == toks[1..][k - 1];
        if rest.Err? then
          FirstBadShift(toks, rest.error);
          Err(rest.error)
        else Ok([first.value] + rest.value)
  }

  /** The first token with two dots in the tail is the first in the whole when the head has at most one. */
  lemma FirstBadShift(toks: seq<string>, bad: string)
    requires toks != [] && Count(toks[0], '.') <= 1
    requires exists k :: 0 <= k < |toks[1..]| && toks[1..][k] == bad && Count(toks[1..][k], '.') >= 2
                         && forall j :: 0 <= j < k ==> Count(toks[1..][j], '.') <= 1
    ensures exists k :: 0 <= k < |toks| && toks[k] == bad && Count(toks[k], '.') >= 2
                        && forall j :: 0 <= j < k ==> Count(toks[j], '.') <= 1
  {
    var k :| 0 <= k < |toks[1..]| && toks[1..][k] == bad && Count(toks[1..][k], '.') >= 2
             && forall j :: 0 <= j < k ==> Count(toks[1..][j], '.') <= 1;
    assert toks[k + 1] == bad;
    assert forall j :: 1 <= j < k + 1 ==> toks[j] == toks[1..][j - 1];
  }

  /** The least of some numbers: one of them, and no greater than any. */
  function Least(xs: seq<real>): (m: real)
    requires xs != []
    ensures m in xs && forall x :: x in xs ==> m <= x
  {
    if |xs| == 1 then xs[0]
    else
      var rest := Least(xs[1..]);
      assert forall x :: x in xs ==> x == xs[0] || x in xs[1..];
      MinReal(xs[0], rest)
  }

  /** The greatest of some numbers: one of them, and no less than any. */
  function Greatest(xs: seq<real>): (m: real)
    requires xs != []
    ensures m in xs && forall x :: x in xs ==> x <= m
  {
    if |xs| == 1 then xs[0]
    else
      var rest := Greatest(xs[1..]);
      assert forall x :: x in xs ==> x == xs[0] || x in xs[1..];
      MaxReal(xs[0], rest)
  }

  // ---------------------------------------------------------------- _norm_price

  /** Parsing happens only when both stored bounds are missing and the text is a string. */
  predicate NeedsParse(row: Row) {
    Get(row, "price_min").Null? && Get(row, "price_max").Null? && Get(row, "price_text").Str?
  }

  /** `_norm_price(row)`: (price_lo, price_hi), or the token whose conversion raises. */
  function NormPrice(row: Row): (r: Result<(Cell, Cell), string>)
    ensures !NeedsParse(row) ==> r == Ok((Get(row, "price_min"), Get(row, "price_max")))
    ensures NeedsParse(row) ==>
              var toks := NormTokens(Get(row, "price_text").s);
              && (toks == [] ==> r == Ok((Null, Null)))
              && (r.Err? <==> exists k :: 0 <= k < |toks| && Count(toks[k], '.') >= 2)
              && (r.Ok? && toks != [] ==>
                    && r.value.0.Number? && r.value.1.Number?
                    && r.value.0.x <= r.value.1.x
                    && (exists k :: 0 <= k < |toks| && TokenValue(toks[k]) == Ok(r.value.0.x))
                    && (exists k :: 0 <= k < |toks| && TokenValue(toks[k]) == Ok(r.value.1.x))
                    && forall k :: 0 <= k < |toks| ==>
                         TokenValue(toks[k]).Ok? && r.value.0.x <= TokenValue(toks[k]).value <= r.value.1.x)
  {
    var lo, hi := Get(row, "price_min"), Get(row, "price_max");
    if !NeedsParse(row) then Ok((lo, hi))
    else
      var toks := NormTokens(Get(row, "price_text").s);
      if toks == [] then Ok((lo, hi))
      else
        var vals := TokenValues(toks);
        if vals.Err? then Err(vals.error)
        else
          ValuesRange(toks, vals.value);
          Ok((Number(Least(vals.value)), Number(Greatest(vals.value))))
  }

  /** The least and greatest converted values are values of tokens and bound all of them. */
  lemma ValuesRange(toks: seq<string>, xs: seq<real>)
    requires toks != [] && forall t :: t in toks ==> IsGrouped(t)
    requires TokenValues(toks) == Ok(xs)
    ensures xs != [] && Least(xs) <= Greatest(xs)
    ensures exists k :: 0 <= k < |toks| && TokenValue(toks[k]) == Ok(Least(xs))
    ensures exists k :: 0 <= k < |toks| && TokenValue(toks[k]) == Ok(Greatest(xs))
    ensures forall k :: 0 <= k < |toks| ==>
              TokenValue(toks[k]).Ok? && Least(xs) <= TokenValue(toks[k]).value <= Greatest(xs)
  {
    var least, greatest := Least(xs), Greatest(xs);
    var i :| 0 <= i < |xs| && xs[i] == least;
    var j :| 0 <= j < |xs| && xs[j] == greatest;
    assert TokenValue(toks[i]) == Ok(least);
    assert TokenValue(toks[j]) == Ok(greatest);
    forall k | 0 <= k < |toks|
      ensures TokenValue(toks[k]).Ok? && least <= TokenValue(toks[k]).value <= greatest
    {
      assert xs[k] in xs;
    }
  }

  // ---------------------------------------------------------------- _read_any and run

  predicate EndsWith(s: string, suffix: string) {
    |suffix| <= |s| && s[|s| - |suffix|..] == suffix
  }

  /** The lines of a ".jsonl" file, opened in text mode, that the reader decodes. */
  function JsonlLines(text: string): seq<string> {
    NonBlank(Lines(UniversalNewlines(text)), StrSpace)
  }

  /**
   * `_read_any`: a ".jsonl" path is read line by line in text mode (`text` is the
   * file; "\r\n" and a lone "\r" end lines as "\n" does), skipping
   * lines that strip to nothing and decoding every other one; any other path is a
   * CSV file whose rows are given.  A line that does not decode raises (`Err`
   * carries its index).
   */
  method ReadAny(path: string, text: string, decode: string -> Option<Row>, csvRows: seq<Row>)
    returns (r: Result<seq<Row>, nat>)
    ensures !EndsWith(path, ".jsonl") ==> r == Ok(csvRows)
    ensures EndsWith(path, ".jsonl") ==>
              (r.Ok? <==> forall line :: line in JsonlLines(text) ==> decode(line).Some?)
    ensures EndsWith(path, ".jsonl") && r.Ok? ==>
              && |r.value| == |JsonlLines(text)|
              && forall k :: 0 <= k < |r.value| ==> decode(JsonlLines(text)[k]) == Some(r.value[k])
  {
    if EndsWith(path, ".jsonl") {
      var all := Lines(UniversalNewlines(text));
      r := ReadRows(all, StrSpace, decode);
      NonBlankDecoded(all, StrSpace, decode);
      assert forall line :: line in JsonlLines(text) <==> exists k :: 0 <= k < |JsonlLines(text)| && JsonlLines(text)[k] == line;
    } else {
      r := Ok(csvRows);
    }
  }

  /** Every non-blank line decodes exactly when every line of `NonBlank` does. */
  lemma NonBlankDecoded(lines: seq<string>, kind: Whitespace, decode: string -> Option<Row>)
    ensures (forall k :: 0 <= k < |lines| && !IsBlank(kind, lines[k]) ==> decode(lines[k]).Some?) <==>
            (forall k :: 0 <= k < |NonBlank(lines, kind)| ==> decode(NonBlank(lines, kind)[k]).Some?)
  {
    if forall k :: 0 <= k < |lines| && !IsBlank(kind, lines[k]) ==> decode(lines[k]).Some? {
      KeptLinesDecode(lines, kind, decode);
    }
    if forall k :: 0 <= k < |NonBlank(lines, kind)| ==> decode(NonBlank(lines, kind)[k]).Some? {
      NonBlankLinesDecode(lines, kind, decode);
    }
  }

  lemma KeptLinesDecode(lines: seq<string>, kind: Whitespace, decode: string -> Option<Row>)
    requires forall k :: 0 <= k < |lines| && !IsBlank(kind, lines[k]) ==> decode(lines[k]).Some?
    ensures forall k :: 0 <= k < |NonBlank(lines, kind)| ==> decode(NonBlank(lines, kind)[k]).Some?
  {
    var nb := NonBlank(lines, kind);
    NonBlankMembers(lines, kind);
    forall k | 0 <= k < |nb| ensures decode(nb[k]).Some? {
      assert nb[k] in nb;
      var j :| 0 <= j < |lines| && lines[j] == nb[k];
      assert !IsBlank(kind, lines[j]);
    }
  }

  lemma NonBlankLinesDecode(lines: seq<string>, kind: Whitespace, decode: string -> Option<Row>)
    requires forall k :: 0 <= k < |NonBlank(lines, kind)| ==> decode(NonBlank(lines, kind)[k]).Some?
    ensures forall k :: 0 <= k < |lines| && !IsBlank(kind, lines[k]) ==> decode(lines[k]).Some?
  {
    var nb := NonBlank(lines, kind);
    NonBlankMembers(lines, kind);
    forall k | 0 <= k < |lines| && !IsBlank(kind, lines[k]) ensures decode(lines[k]).Some? {
      assert lines[k] in lines;
      assert lines[k] in nb;
      var j :| 0 <= j < |nb| && nb[j] == lines[k];
    }
  }

  /** What `run` gets to before its summaries: nothing for an empty table, else the two price columns. */
  datatype Report = NoData | PriceColumns(lo: seq<Cell>, hi: seq<Cell>)

  /** `df.apply(_norm_price, axis=1)`: the rows in order; the first conversion error raises. */
  function PriceColumnsOf(rows: seq<Row>): (r: Result<(seq<Cell>, seq<Cell>), string>)
    ensures r.Ok? <==> forall k :: 0 <= k < |rows| ==> NormPrice(rows[k]).Ok?
    ensures r.Ok? ==>
              && |r.value.0| == |rows| && |r.value.1| == |rows|
              && forall k :: 0 <= k < |rows| ==> NormPrice(rows[k]) == Ok((r.value.0[k], r.value.1[k]))
  {
    if rows == [] then Ok(([], []))
    else
      var first := NormPrice(rows[0]);
      var rest := PriceColumnsOf(rows[1..]);
      assert forall k :: 1 <= k < |rows| ==> rows[k] == rows[1..][k - 1];
      if first.Err? then Err(first.error)
      else if rest.Err? then Err(rest.error)
      else Ok(([first.value.0] + rest.value.0, [first.value.1] + rest.value.1))
  }

  /**
   * `run` up to the price columns.  A table built from records is empty exactly
   * when it has no columns or no rows, that is when every record is `{}`; then
   * "No data found." is all that happens.
   */
  function Run(rows: seq<Row>): (r: Result<Report, string>)
    ensures r == Ok(NoData) <==> forall k :: 0 <= k < |rows| ==> rows[k] == map[]
    ensures r.Err? ==> exists k :: 0 <= k < |rows| && NormPrice(rows[k]).Err?
    ensures r.Ok? && r.value.PriceColumns? ==>
              && |r.value.lo| == |rows| && |r.value.hi| == |rows|
              && forall k :: 0 <= k < |rows| ==> NormPrice(rows[k]) == Ok((r.value.lo[k], r.value.hi[k]))
  {
    if forall k :: 0 <= k < |rows| ==> rows[k] == map[] then Ok(NoData)
    else
      var cols := PriceColumnsOf(rows);
      if cols.Err? then Err(cols.error) else Ok(PriceColumns(cols.value.0, cols.value.1))
  }
}
