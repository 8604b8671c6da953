/**
 * Keep-first deduplication by a key, as pandas' `drop_duplicates(subset=..., keep="first")`
 * does it: the first row for each key survives, later rows with that key are dropped,
 * and the survivors keep their input order.
 */
module Dedup {

  /** Index i holds the first occurrence of its key. */
  ghost predicate IsFirst<T, K>(xs: seq<T>, key: T -> K, i: int)
    requires 0 <= i < |xs|
  {
    forall j :: 0 <= j < i ==> key(xs[j]) != key(xs[i])
  }

  ghost predicate UniqueKeys<T, K>(xs: seq<T>, key: T -> K) {
    forall a, b :: 0 <= a < b < |xs| ==> key(xs[a]) != key(xs[b])
  }

  /** `a` is `b` with some elements left out and the rest in order. */
  ghost predicate Subsequence<T>(a: seq<T>, b: seq<T>)
    decreases |b|
  {
    if a == [] then true
    else if b == [] then false
    else (a[0] == b[0] && Subsequence(a[1..], b[1..])) || Subsequence(a, b[1..])
  }

  ghost function KeySet<T, K>(xs: seq<T>, key: T -> K): set<K> {
    set x | x in xs :: key(x)
  }

  /** Keep-first, remembering the keys already `seen`. */
  function KeepFirstFrom<T, K(==)>(xs: seq<T>, key: T -> K, seen: set<K>): (r: seq<T>)
    ensures |r| <= |xs|
  {
    if xs == [] then []
    else if key(xs[0]) in seen then KeepFirstFrom(xs[1..], key, seen)
    else [xs[0]] + KeepFirstFrom(xs[1..], key, seen + {key(xs[0])})
  }

  function KeepFirst<T, K(==)>(xs: seq<T>, key: T -> K): seq<T> {
    KeepFirstFrom(xs, key, {})
  }

  lemma {:induction false} KeepFirstFromFacts<T, K>(xs: seq<T>, key: T -> K, seen: set<K>)
    ensures var r := KeepFirstFrom(xs, key, seen);
      && Subsequence(r, xs)
      && UniqueKeys(r, key)
      && KeySet(r, key) !! seen
      && KeySet(r, key) == KeySet(xs, key) - seen
  {
    if xs != [] {
      var x := xs[0];
      var rest := xs[1..];
      assert KeySet(xs, key) == {key(x)} + KeySet(rest, key) by {
        assert xs == [x] + rest;
      }
      if key(x) in seen {
        KeepFirstFromFacts(rest, key, seen);
      } else {
        KeepFirstFromFacts(rest, key, seen + {key(x)});
        var tail := KeepFirstFrom(rest, key, seen + {key(x)});
        var r := [x] + tail;
        assert r[1..] == tail && r[0] == x && xs[1..] == rest;
        assert KeySet(r, key) == {key(x)} + KeySet(tail, key) by {
          assert forall y :: y in r <==> y == x || y in tail;
        }
        forall a, b | 0 <= a < b < |r| ensures key(r[a]) != key(r[b]) {
          if a == 0 {
            assert r[b] in tail;
            assert key(r[b]) in KeySet(tail, key);
          } else {
            assert r[a] == tail[a - 1] && r[b] == tail[b - 1];
          }
        }
      }
    }
  }

  /** The kept rows are exactly the first occurrences of their keys, in input order. */
  lemma {:induction false} KeepFirstKeepsFirsts<T, K>(xs: seq<T>, key: T -> K)
    ensures var r := KeepFirst(xs, key);
      && Subsequence(r, xs)
      && UniqueKeys(r, key)
      && KeySet(r, key) == KeySet(xs, key)
      && (forall i :: 0 <= i < |xs| && IsFirst(xs, key, i) ==> xs[i] in r)
      && (forall x :: x in r ==> exists i :: 0 <= i < |xs| && IsFirst(xs, key, i) && xs[i] == x)
  {
    KeepFirstFromFacts(xs, key, {});
    FirstsFrom(xs, key, {}, 0);
  }

  /** Position `from` starts its key exactly when the prefix before it has no such key. */
  lemma FirstIffUnseen<T, K>(xs: seq<T>, key: T -> K, from: nat)
    requires from < |xs|
    ensures IsFirst(xs, key, from) <==> key(xs[from]) !in KeySet(xs[..from], key)
  {
    if key(xs[from]) in KeySet(xs[..from], key) {
      var y :| y in xs[..from] && key(y) == key(xs[from]);
      var j :| 0 <= j < from && xs[..from][j] == y;
      assert xs[j] == y;
    } else {
      forall j | 0 <= j < from ensures key(xs[j]) != key(xs[from]) {
        assert xs[j] in xs[..from];
      }
    }
  }

  lemma KeySetSnoc<T, K>(xs: seq<T>, x: T, key: T -> K)
    ensures KeySet(xs + [x], key) == KeySet(xs, key) + {key(x)}
  {
    assert forall y :: y in xs + [x] <==> y in xs || y == x;
  }

  /** One step of the keep-first scan over `xs[from..]`, with `seen` the keys of the prefix. */
  lemma KeepFirstStep<T, K>(xs: seq<T>, key: T -> K, seen: set<K>, from: nat)
    requires from < |xs|
    requires seen == KeySet(xs[..from], key)
    ensures var seen' := seen + {key(xs[from])};
      && seen' == KeySet(xs[..from + 1], key)
      && KeepFirstFrom(xs[from..], key, seen) ==
           if IsFirst(xs, key, from) then [xs[from]] + KeepFirstFrom(xs[from + 1..], key, seen')
           else KeepFirstFrom(xs[from + 1..], key, seen')
  {
    assert xs[from..][0] == xs[from] && xs[from..][1..] == xs[from + 1..];
    assert xs[..from + 1] == xs[..from] + [xs[from]];
    KeySetSnoc(xs[..from], xs[from], key);
    FirstIffUnseen(xs, key, from);
    if key(xs[from]) in seen {
      assert seen + {key(xs[from])} == seen;
    }
  }

  /** Induction over a suffix `xs[from..]`, with `seen` the keys of the prefix. */
  lemma {:induction false} FirstsFrom<T, K>(xs: seq<T>, key: T -> K, seen: set<K>, from: nat)
    requires from <= |xs|
    requires seen == KeySet(xs[..from], key)
    ensures var r := KeepFirstFrom(xs[from..], key, seen);
      && (forall i :: from <= i < |xs| && IsFirst(xs, key, i) ==> xs[i] in r)
      && (forall x :: x in r ==> exists i :: from <= i < |xs| && IsFirst(xs, key, i) && xs[i] == x)
    decreases |xs| - from
  {
    if from < |xs| {
      var seen' := seen + {key(xs[from])};
      KeepFirstStep(xs, key, seen, from);
      FirstsFrom(xs, key, seen', from + 1);
      var tail := KeepFirstFrom(xs[from + 1..], key, seen');
      var r := KeepFirstFrom(xs[from..], key, seen);
      assert forall x' :: x' in r ==> x' in tail || (x' == xs[from] && IsFirst(xs, key, from));
    }
  }

  /** A sequence whose keys are already distinct is left as it is. */
  lemma {:induction false} KeepFirstOfUnique<T, K>(xs: seq<T>, key: T -> K, seen: set<K>)
    requires UniqueKeys(xs, key)
    requires KeySet(xs, key) !! seen
    ensures KeepFirstFrom(xs, key, seen) == xs
  {
    if xs != [] {
      assert key(xs[0]) in KeySet(xs, key);
      assert KeySet(xs[1..], key) !! seen + {key(xs[0])} by {
        forall y | y in xs[1..] ensures key(y) != key(xs[0]) && key(y) !in seen {
          var b :| 0 <= b < |xs[1..]| && xs[1..][b] == y;
          assert xs[b + 1] == y;
          assert key(y) in KeySet(xs, key);
        }
      }
      assert UniqueKeys(xs[1..], key) by {
        forall a, b | 0 <= a < b < |xs[1..]| ensures key(xs[1..][a]) != key(xs[1..][b]) {
          assert xs[1..][a] == xs[a + 1] && xs[1..][b] == xs[b + 1];
        }
      }
      KeepFirstOfUnique(xs[1..], key, seen + {key(xs[0])});
    }
  }

  /** Deduplicating twice is the same as deduplicating once. */
  lemma KeepFirstIdempotent<T, K>(xs: seq<T>, key: T -> K)
    ensures KeepFirst(KeepFirst(xs, key), key) == KeepFirst(xs, key)
  {
    KeepFirstFromFacts(xs, key, {});
    KeepFirstOfUnique(KeepFirst(xs, key), key, {});
  }
}
