/**
 * The newline-delimited record format shared by the writer, `clean` and the
 * report's reader: rows as dictionaries of cells, the file's lines, and the
 * loop that turns non-blank lines into rows.  JSON text itself is abstract:
 * readers take the decoder as a parameter.
 */
module Jsonl {
  import opened Basics
  import opened Text

  /** One value of a decoded record (a JSON scalar, or a list of strings such as `images`). */
  datatype Cell = Null | Str(s: string) | Number(x: real) | Flag(b: bool) | StrList(items: seq<string>)

  /** A decoded record: a dictionary from field names to cells. */
  type Row = map<string, Cell>

  /** `row.get(key)`: a missing key reads as None. */
  function Get(row: Row, key: string): Cell {
    if key in row then row[key] else Null
  }

  /** Position of the first occurrence of `c`. */
  function IndexOf(s: string, c: char): (i: nat)
    requires c in s
    ensures i < |s| && s[i] == c && c !in s[..i]
  {
    if s[0] == c then 0
    else
      var i := 1 + IndexOf(s[1..], c);
      assert s[..i] == [s[0]] + s[1..][..i - 1];
      i
  }

  /** Iterating over a file opened in binary mode: each line keeps its "\n"; a final piece without one is a line too. */
  function Lines(s: string): (ls: seq<string>)
    decreases |s|
  {
    if s == [] then []
    else if '\n' in s then
      var i := IndexOf(s, '\n');
      [s[..i + 1]] + Lines(s[i + 1..])
    else [s]
  }

  /**
   * A file opened in text mode reads with universal newlines: "\r\n" and a lone
   * "\r" each become "\n"; every other character is kept.
   */
  function UniversalNewlines(s: string): (r: string)
    ensures '\r' !in r
    ensures |r| <= |s|
    decreases |s|
  {
    if s == [] then []
    else if s[0] == '\r' then "\n" + UniversalNewlines(if |s| > 1 && s[1] == '\n' then s[2..] else s[1..])
    else [s[0]] + UniversalNewlines(s[1..])
  }

  /** Text without "\r" reads back unchanged in text mode. */
  lemma {:induction false} NoCarriageReturnKept(s: string)
    requires '\r' !in s
    ensures UniversalNewlines(s) == s
  {
    if s != [] {
      assert '\r' !in s[1..] by {
        assert forall x :: x in s[1..] ==> x in s;
      }
      NoCarriageReturnKept(s[1..]);
    }
  }

  /** The text of records written one per line, each followed by "\n". */
  function JoinLines(records: seq<string>): (s: string)
    ensures |records| > 0 ==> |s| > 0 && s[|s| - 1] == '\n'
  {
    if records == [] then [] else records[0] + "\n" + JoinLines(records[1..])
  }

  lemma {:induction false} JoinLinesAppend(records: seq<string>, r: string)
    ensures JoinLines(records + [r]) == JoinLines(records) + r + "\n"
  {
    if records != [] {
      assert (records + [r])[1..] == records[1..] + [r];
      JoinLinesAppend(records[1..], r);
    } else {
      assert [r][1..] == [];
    }
  }

  /** Records that contain no newline come back one per line, each with its "\n". */
  lemma {:induction false} LinesOfJoinLines(records: seq<string>)
    requires forall k :: 0 <= k < |records| ==> '\n' !in records[k]
    ensures Lines(JoinLines(records)) == seq(|records|, k requires 0 <= k < |records| => records[k] + "\n")
  {
    if records != [] {
      var s := JoinLines(records);
      var r := records[0];
      assert s == r + "\n" + JoinLines(records[1..]);
      assert s[|r|] == '\n' && s[..|r|] == r;
      assert IndexOf(s, '\n') == |r|;
      assert s[..|r| + 1] == r + "\n";
      assert s[|r| + 1..] == JoinLines(records[1..]);
      LinesOfJoinLines(records[1..]);
    }
  }

  /** The lines that `if not line.strip(): continue` lets through, in file order. */
  function NonBlank(lines: seq<string>, kind: Whitespace): (r: seq<string>)
    ensures |r| <= |lines|
    ensures forall k :: 0 <= k < |r| ==> !IsBlank(kind, r[k])
  {
    if lines == [] then []
    else (if IsBlank(kind, lines[0]) then [] else [lines[0]]) + NonBlank(lines[1..], kind)
  }

  lemma {:induction false} NonBlankAppend(lines: seq<string>, line: string, kind: Whitespace)
    ensures NonBlank(lines + [line], kind) ==
              NonBlank(lines, kind) + (if IsBlank(kind, line) then [] else [line])
  {
    if lines != [] {
      assert (lines + [line])[1..] == lines[1..] + [line];
      NonBlankAppend(lines[1..], line, kind);
    } else {
      assert [line][1..] == [];
    }
  }

  /** One more line of a prefix: `NonBlank` keeps it exactly when it is not blank. */
  lemma NonBlankPrefix(lines: seq<string>, i: nat, kind: Whitespace)
    requires i < |lines|
    ensures NonBlank(lines[..i + 1], kind) ==
              NonBlank(lines[..i], kind) + (if IsBlank(kind, lines[i]) then [] else [lines[i]])
  {
    assert lines[..i + 1] == lines[..i] + [lines[i]];
    NonBlankAppend(lines[..i], lines[i], kind);
  }

  /** The lines `NonBlank` keeps are exactly the non-blank lines. */
  lemma {:induction false} NonBlankMembers(lines: seq<string>, kind: Whitespace)
    ensures forall l :: l in NonBlank(lines, kind) <==> l in lines && !IsBlank(kind, l)
  {
    if lines != [] {
      NonBlankMembers(lines[1..], kind);
      assert forall l :: l in lines <==> l == lines[0] || l in lines[1..];
    }
  }

  /** `not line.strip()`. */
  method StripsToNothing(kind: Whitespace, line: string) returns (b: bool)
    ensures b <==> IsBlank(kind, line)
  {
    b := Strip(kind, line) == [];
  }

  /** Row `k` is what the decoder made of kept line `k`. */
  predicate DecodedAs(kept: seq<string>, rows: seq<Row>, decode: string -> Option<Row>) {
    |rows| == |kept| && forall k :: 0 <= k < |rows| ==> decode(kept[k]) == Some(rows[k])
  }

  /** Every non-blank line before `n` decodes. */
  predicate DecodedUpTo(lines: seq<string>, n: nat, kind: Whitespace, decode: string -> Option<Row>)
    requires n <= |lines|
  {
    forall k :: 0 <= k < n && !IsBlank(kind, lines[k]) ==> decode(lines[k]).Some?
  }

  lemma DecodedAsAppend(kept: seq<string>, rows: seq<Row>, line: string, row: Row, decode: string -> Option<Row>)
    requires DecodedAs(kept, rows, decode) && decode(line) == Some(row)
    ensures DecodedAs(kept + [line], rows + [row], decode)
  {
    forall k | 0 <= k < |rows| + 1 ensures decode((kept + [line])[k]) == Some((rows + [row])[k]) {
      if k < |rows| {
        assert (kept + [line])[k] == kept[k] && (rows + [row])[k] == rows[k];
      }
    }
  }

  lemma DecodedNext(lines: seq<string>, i: nat, kind: Whitespace, decode: string -> Option<Row>)
    requires i < |lines| && DecodedUpTo(lines, i, kind, decode)
    requires IsBlank(kind, lines[i]) || decode(lines[i]).Some?
    ensures DecodedUpTo(lines, i + 1, kind, decode)
  {
  }

  /**
   * The reading loop of `clean` and of the report's `.jsonl` reader: skip lines
   * that strip to nothing and decode every other line into one row.  A line the
   * decoder rejects raises (`Err` carries its index) and no rows are returned.
   */
  method ReadRows(lines: seq<string>, kind: Whitespace, decode: string -> Option<Row>)
    returns (r: Result<seq<Row>, nat>)
    ensures r.Ok? ==>
              && |r.value| == |NonBlank(lines, kind)|
              && forall k :: 0 <= k < |r.value| ==> decode(NonBlank(lines, kind)[k]) == Some(r.value[k])
    ensures r.Ok? <==> forall k :: 0 <= k < |lines| && !IsBlank(kind, lines[k]) ==> decode(lines[k]).Some?
    ensures r.Err? ==>
              && r.error < |lines| && !IsBlank(kind, lines[r.error]) && decode(lines[r.error]).None?
              && forall k :: 0 <= k < r.error && !IsBlank(kind, lines[k]) ==> decode(lines[k]).Some?
  {
    var rows: seq<Row> := [];
    ghost var kept: seq<string> := [];
    var i := 0;
    while i < |lines|
      invariant 0 <= i <= |lines|
      invariant kept == NonBlank(lines[..i], kind)
      invariant DecodedAs(kept, rows, decode)
      invariant DecodedUpTo(lines, i, kind, decode)
    {
      var line := lines[i];
      NonBlankPrefix(lines, i, kind);
      var blank := StripsToNothing(kind, line);
      if blank {
        DecodedNext(lines, i, kind, decode);
        i := i + 1;
        continue;
      }
      var row := decode(line);
      if row.None? {
        return Err(i);
      }
      DecodedNext(lines, i, kind, decode);
      DecodedAsAppend(kept, rows, line, row.value, decode);
      rows := rows + [row.value];
      kept := kept + [line];
      i := i + 1;
    }
    assert lines[..i] == lines;
    return Ok(rows);
  }
}
