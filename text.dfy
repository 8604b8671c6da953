/** Character classes and string helpers used by the price parsers and readers. */
module Text {

  /** The two notions of whitespace the program strips with. */
  datatype Whitespace =
    | StrSpace   // `str.strip()`: every character for which `str.isspace()` holds
    | ByteSpace  // `bytes.strip()`: ASCII space, \t, \n, \r, \x0b, \x0c

  predicate IsSpace(kind: Whitespace, c: char) {
    match kind
    case ByteSpace =>
      c == ' ' || c == '\t' || c == '\n' || c == '\r' || c == '\U{000B}' || c == '\U{000C}'
    case StrSpace =>
      || ('\t' <= c <= '\r')
      || ('\U{001C}' <= c <= ' ')
      || c == '\U{0085}' || c == '\U{00A0}' || c == '\U{1680}'
      || ('\U{2000}' <= c <= '\U{200A}')
      || c == '\U{2028}' || c == '\U{2029}' || c == '\U{202F}' || c == '\U{205F}' || c == '\U{3000}'
  }

  predicate IsDigit(c: char) { '0' <= c <= '9' }

  predicate IsDigits(s: string) { forall k :: 0 <= k < |s| ==> IsDigit(s[k]) }

  /** A regular-expression word character (`\w`), restricted to ASCII. */
  predicate IsWordChar(c: char) {
    IsDigit(c) || ('a' <= c <= 'z') || ('A' <= c <= 'Z') || c == '_'
  }

  /** Every character is whitespace of the given kind (so stripping leaves ""). */
  predicate IsBlank(kind: Whitespace, s: string) {
    forall k :: 0 <= k < |s| ==> IsSpace(kind, s[k])
  }

  function StripLeft(kind: Whitespace, s: string): (r: string)
    ensures |r| <= |s| && r == s[|s| - |r|..]
    ensures IsBlank(kind, s[..|s| - |r|])
    ensures r == [] || !IsSpace(kind, r[0])
  {
    if |s| > 0 && IsSpace(kind, s[0]) then
      var r := StripLeft(kind, s[1..]);
      assert s[1..][..|s| - 1 - |r|] == s[1..|s| - |r|];
      r
    else s
  }

  function StripRight(kind: Whitespace, s: string): (r: string)
    ensures |r| <= |s| && r == s[..|r|]
    ensures IsBlank(kind, s[|r|..])
    ensures r == [] || !IsSpace(kind, r[|r| - 1])
  {
    if |s| > 0 && IsSpace(kind, s[|s| - 1]) then
      var r := StripRight(kind, s[..|s| - 1]);
      assert s[..|s| - 1][|r|..] + [s[|s| - 1]] == s[|r|..];
      r
    else s
  }

  /** Python's `strip()`: removes leading and trailing whitespace of the given kind. */
  function Strip(kind: Whitespace, s: string): (r: string)
    ensures r == [] <==> IsBlank(kind, s)
    ensures r != [] ==> !IsSpace(kind, r[0]) && !IsSpace(kind, r[|r| - 1])
    ensures |r| <= |s|
  {
    var left := StripLeft(kind, s);
    var r := StripRight(kind, left);
    StripParts(kind, s, left, r);
    r
  }

  /** The facts `Strip` promises, from those of its two halves. */
  lemma StripParts(kind: Whitespace, s: string, left: string, r: string)
    requires left == StripLeft(kind, s) && r == StripRight(kind, left)
    ensures r == [] <==> IsBlank(kind, s)
    ensures r != [] ==> !IsSpace(kind, r[0]) && !IsSpace(kind, r[|r| - 1])
  {
    if IsBlank(kind, s) {
      StripLeftBlank(kind, s);
    }
    if r == [] {
      StrippedBlank(kind, s, left);
    } else {
      assert r[0] == left[0];
    }
  }

  /** When the right strip empties the left strip, all of `s` was whitespace. */
  lemma StrippedBlank(kind: Whitespace, s: string, left: string)
    requires left == StripLeft(kind, s) && StripRight(kind, left) == []
    ensures IsBlank(kind, s)
  {
    assert left[0..] == left;
    assert s == s[..|s| - |left|] + left;
    BlankJoin(kind, s[..|s| - |left|], left);
  }

  /** Blank text strips to nothing from the left. */
  lemma {:induction false} StripLeftBlank(kind: Whitespace, s: string)
    requires IsBlank(kind, s)
    ensures StripLeft(kind, s) == []
  {
    if s != [] {
      assert IsBlank(kind, s[1..]) by {
        forall k | 0 <= k < |s| - 1 ensures IsSpace(kind, s[1..][k]) {
          assert s[1..][k] == s[k + 1];
        }
      }
      StripLeftBlank(kind, s[1..]);
    }
  }

  lemma BlankJoin(kind: Whitespace, a: string, b: string)
    requires IsBlank(kind, a) && IsBlank(kind, b)
    ensures IsBlank(kind, a + b)
  {
    forall k | 0 <= k < |a + b| ensures IsSpace(kind, (a + b)[k]) {
      if k >= |a| {
        assert (a + b)[k] == b[k - |a|];
      }
    }
  }

  /** Text that starts and ends with a visible character is its own stripped form. */
  lemma StripKeeps(kind: Whitespace, s: string)
    requires s != [] && !IsSpace(kind, s[0]) && !IsSpace(kind, s[|s| - 1])
    ensures Strip(kind, s) == s
  {
  }

  /** Python's `sub in s`, computed by scanning. */
  predicate Occurs(sub: string, s: string)
    decreases |s|
  {
    |sub| <= |s| && (s[..|sub|] == sub || Occurs(sub, s[1..]))
  }

  ghost predicate OccursAt(sub: string, s: string, i: int) {
    0 <= i <= |s| - |sub| && s[i..i + |sub|] == sub
  }

  /** The scan agrees with the textbook definition of a substring. */
  lemma {:induction false} OccursIff(sub: string, s: string)
    ensures Occurs(sub, s) <==> exists i :: OccursAt(sub, s, i)
    decreases |s|
  {
    if |sub| <= |s| && s[..|sub|] != sub {
      OccursIff(sub, s[1..]);
      if Occurs(sub, s[1..]) {
        var i :| OccursAt(sub, s[1..], i);
        assert OccursAt(sub, s, i + 1);
      }
      if i :| OccursAt(sub, s, i) {
        assert i != 0;
        assert OccursAt(sub, s[1..], i - 1);
      }
    } else if |sub| <= |s| {
      assert OccursAt(sub, s, 0);
    }
  }

  /** `s.replace(a, b)` for single characters. */
  function ReplaceChar(s: string, a: char, b: char): (r: string)
    ensures |r| == |s|
    ensures forall k :: 0 <= k < |s| ==> r[k] == (if s[k] == a then b else s[k])
    ensures a != b ==> a !in r
    ensures a != b ==> Count(r, b) == Count(s, a) + Count(s, b)
    ensures forall c :: c != a && c != b ==> Count(r, c) == Count(s, c)
  {
    var r := seq(|s|, k requires 0 <= k < |s| => if s[k] == a then b else s[k]);
    ReplacedCounts(s, r, a, b);
    r
  }

  /** Replacing `a` by `b` moves every `a` to the `b`s and leaves other characters' counts alone. */
  lemma {:induction false} ReplacedCounts(s: string, r: string, a: char, b: char)
    requires |r| == |s|
    requires forall k :: 0 <= k < |s| ==> r[k] == (if s[k] == a then b else s[k])
    ensures a != b ==> a !in r
    ensures a != b ==> Count(r, b) == Count(s, a) + Count(s, b)
    ensures forall c :: c != a && c != b ==> Count(r, c) == Count(s, c)
  {
    if s != [] {
      ReplacedCounts(s[1..], r[1..], a, b);
      assert r == [r[0]] + r[1..];
    }
  }

  /** `s.replace(c, "")` for a single character. */
  function RemoveChar(s: string, c: char): (r: string)
    ensures c !in r
    ensures |r| <= |s|
    ensures forall x :: x in r ==> x in s
  {
    if s == [] then [] else (if s[0] == c then [] else [s[0]]) + RemoveChar(s[1..], c)
  }

  /** Removing a character that does not occur changes nothing. */
  lemma {:induction false} RemoveAbsent(s: string, c: char)
    requires c !in s
    ensures RemoveChar(s, c) == s
  {
    if s != [] {
      assert c !in s[1..] by { assert forall x :: x in s[1..] ==> x in s; }
      RemoveAbsent(s[1..], c);
    }
  }

  /** Removal works piecewise over a concatenation. */
  lemma {:induction false} RemoveCharAppend(a: string, b: string, c: char)
    ensures RemoveChar(a + b, c) == RemoveChar(a, c) + RemoveChar(b, c)
  {
    if a == [] {
      assert a + b == b;
    } else {
      assert (a + b)[0] == a[0] && (a + b)[1..] == a[1..] + b;
      RemoveCharAppend(a[1..], b, c);
    }
  }

  /** Number of occurrences of `c` in `s`. */
  function Count(s: string, c: char): nat {
    if s == [] then 0 else (if s[0] == c then 1 else 0) + Count(s[1..], c)
  }

  function UpperAscii(c: char): char {
    if 'a' <= c <= 'z' then (c as int - 32) as char else c
  }

  /** `str.upper()` on ASCII letters; every other character is kept. */
  function Upper(s: string): (r: string)
    ensures |r| == |s|
    ensures forall k :: 0 <= k < |s| ==> r[k] == UpperAscii(s[k])
  {
    if s == [] then [] else [UpperAscii(s[0])] + Upper(s[1..])
  }

  function DigitValue(c: char): nat
    requires IsDigit(c)
  {
    c as int - '0' as int
  }

  /** Value of a run of decimal digits; "" is 0. */
  function DigitsValue(d: string): nat
    requires IsDigits(d)
  {
    if d == [] then 0 else DigitsValue(d[..|d| - 1]) * 10 + DigitValue(d[|d| - 1])
  }

  function Pow10(n: nat): (r: nat)
    ensures r >= 1
  {
    if n == 0 then 1 else 10 * Pow10(n - 1)
  }

  /** End of the run of digits starting at i. */
  function DigitRunEnd(s: string, i: nat): (j: nat)
    requires i <= |s|
    ensures i <= j <= |s| && IsDigits(s[i..j])
    ensures j == |s| || !IsDigit(s[j])
    decreases |s| - i
  {
    if i < |s| && IsDigit(s[i]) then
      var j := DigitRunEnd(s, i + 1);
      assert s[i..j] == [s[i]] + s[i + 1..j];
      j
    else i
  }

  /** A run of digits that stops at `j` ends at `j`. */
  lemma {:induction false} RunEndsAt(s: string, i: nat, j: nat)
    requires i <= j <= |s| && IsDigits(s[i..j]) && (j == |s| || !IsDigit(s[j]))
    ensures DigitRunEnd(s, i) == j
    decreases j - i
  {
    if i < j {
      assert s[i] == s[i..j][0];
      assert s[i + 1..j] == s[i..j][1..];
      RunEndsAt(s, i + 1, j);
    }
  }

  // ---------------------------------------------------------------- spans of a text, [start, end)

  /** Each span ends at or before any later one starts. */
  ghost predicate Disjoint(spans: seq<(nat, nat)>) {
    forall k1, k2 :: 0 <= k1 < k2 < |spans| ==> spans[k1].1 <= spans[k2].0
  }

  /** Position p lies inside one of `spans`. */
  ghost predicate InSpan(spans: seq<(nat, nat)>, p: nat) {
    exists k :: 0 <= k < |spans| && spans[k].0 <= p < spans[k].1
  }

  /** A span that ends before the others start can go in front. */
  lemma DisjointCons(i: nat, e: nat, rest: seq<(nat, nat)>)
    requires Disjoint(rest) && forall k :: 0 <= k < |rest| ==> e <= rest[k].0
    ensures Disjoint([(i, e)] + rest)
  {
    var spans := [(i, e)] + rest;
    forall k1, k2 | 0 <= k1 < k2 < |spans| ensures spans[k1].1 <= spans[k2].0 {
      assert spans[k2] == rest[k2 - 1];
      if k1 > 0 {
        assert spans[k1] == rest[k1 - 1];
      }
    }
  }

  /** A position inside the new front span, or inside a later one, is inside the whole list. */
  lemma InSpanCons(i: nat, e: nat, rest: seq<(nat, nat)>, p: nat)
    requires i <= p && (e <= p ==> InSpan(rest, p))
    ensures InSpan([(i, e)] + rest, p)
  {
    var spans := [(i, e)] + rest;
    if p < e {
      assert spans[0] == (i, e);
    } else {
      var k :| 0 <= k < |rest| && rest[k].0 <= p < rest[k].1;
      assert spans[k + 1] == rest[k];
    }
  }
}
