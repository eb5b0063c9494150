/**
 * Collection operations the controller relies on, with PHP and Laravel
 * semantics: `sortByDesc` (a stable sort on a numeric key), `slice`
 * (PHP's `array_slice`), `take`, and the `ceil` of a quotient used for
 * the last page number.
 */
module Collections {
  // ---------------------------------------------------------------------
  // sortByDesc: stable insertion by a key, largest key first
  // ---------------------------------------------------------------------

  /** Places `x` after every entry whose key is at least its own. */
  function InsertByKey<T>(x: T, sorted: seq<T>, key: T -> int): seq<T>
    decreases |sorted|
  {
    if |sorted| == 0 then [x]
    else if key(sorted[0]) >= key(x) then [sorted[0]] + InsertByKey(x, sorted[1..], key)
    else [x] + sorted
  }

  /** `sortByDesc(key)`: entries with larger keys first, equal keys in their original order. */
  function SortByDesc<T>(s: seq<T>, key: T -> int): seq<T>
    decreases |s|
  {
    if |s| == 0 then [] else InsertByKey(s[|s| - 1], SortByDesc(s[..|s| - 1], key), key)
  }

  predicate NonIncreasing<T>(s: seq<T>, key: T -> int) {
    forall i, j :: 0 <= i < j < |s| ==> key(s[i]) >= key(s[j])
  }

  /** The entries of `s` whose key is `k`, in the order of `s`. */
  function WithKey<T>(s: seq<T>, key: T -> int, k: int): seq<T>
    decreases |s|
  {
    if |s| == 0 then [] else (if key(s[0]) == k then [s[0]] else []) + WithKey(s[1..], key, k)
  }

  lemma {:induction false} WithKeyAppend<T>(a: seq<T>, b: seq<T>, key: T -> int, k: int)
    ensures WithKey(a + b, key, k) == WithKey(a, key, k) + WithKey(b, key, k)
    decreases |a|
  {
    if |a| > 0 {
      assert (a + b)[1..] == a[1..] + b;
      WithKeyAppend(a[1..], b, key, k);
    } else {
      assert a + b == b;
    }
  }

  lemma {:induction false} WithKeyNone<T>(s: seq<T>, key: T -> int, k: int)
    requires forall i :: 0 <= i < |s| ==> key(s[i]) < k
    ensures WithKey(s, key, k) == []
    decreases |s|
  {
    if |s| > 0 {
      WithKeyNone(s[1..], key, k);
    }
  }

  lemma {:induction false} InsertPermutes<T>(x: T, sorted: seq<T>, key: T -> int)
    ensures multiset(InsertByKey(x, sorted, key)) == multiset(sorted) + multiset{x}
    decreases |sorted|
  {
    if |sorted| > 0 && key(sorted[0]) >= key(x) {
      InsertPermutes(x, sorted[1..], key);
      assert sorted == [sorted[0]] + sorted[1..];
    }
  }

  lemma {:induction false} InsertKeepsOrder<T>(x: T, sorted: seq<T>, key: T -> int)
    requires NonIncreasing(sorted, key)
    ensures NonIncreasing(InsertByKey(x, sorted, key), key)
    decreases |sorted|
  {
    if |sorted| > 0 {
      if key(sorted[0]) >= key(x) {
        var tail := sorted[1..];
        assert NonIncreasing(tail, key) by {
          forall i, j | 0 <= i < j < |tail| ensures key(tail[i]) >= key(tail[j]) {
            assert tail[i] == sorted[i + 1] && tail[j] == sorted[j + 1];
          }
        }
        InsertKeepsOrder(x, tail, key);
        InsertAfterHead(x, sorted, key);
      } else {
        var r := [x] + sorted;
        assert InsertByKey(x, sorted, key) == r;
        forall i, j | 0 <= i < j < |r| ensures key(r[i]) >= key(r[j]) {
          if i == 0 {
            assert r[j] == sorted[j - 1];
            assert key(sorted[0]) >= key(sorted[j - 1]);
          } else {
            assert r[i] == sorted[i - 1] && r[j] == sorted[j - 1];
          }
        }
      }
    }
  }

  /** When `x` goes after the head, the head still leads an ordered list. */
  lemma InsertAfterHead<T>(x: T, sorted: seq<T>, key: T -> int)
    requires NonIncreasing(sorted, key)
    requires |sorted| > 0 && key(sorted[0]) >= key(x)
    requires NonIncreasing(InsertByKey(x, sorted[1..], key), key)
    ensures NonIncreasing(InsertByKey(x, sorted, key), key)
  {
    var rest := InsertByKey(x, sorted[1..], key);
    var r := [sorted[0]] + rest;
    assert InsertByKey(x, sorted, key) == r;
    InsertPermutes(x, sorted[1..], key);
    forall j | 0 < j < |r| ensures key(r[0]) >= key(r[j]) {
      assert r[j] == rest[j - 1];
      assert r[j] in multiset(rest);
      if r[j] != x {
        assert r[j] in multiset(sorted[1..]);
        var m :| 0 <= m < |sorted[1..]| && sorted[1..][m] == r[j];
        assert sorted[m + 1] == r[j];
      }
    }
    forall i, j | 0 <= i < j < |r| ensures key(r[i]) >= key(r[j]) {
      if i > 0 {
        assert r[i] == rest[i - 1] && r[j] == rest[j - 1];
      }
    }
  }

  lemma {:induction false} InsertKeepsTies<T>(x: T, sorted: seq<T>, key: T -> int, k: int)
    requires NonIncreasing(sorted, key)
    ensures WithKey(InsertByKey(x, sorted, key), key, k) == WithKey(sorted, key, k) + WithKey([x], key, k)
    decreases |sorted|
  {
    if |sorted| == 0 {
      assert InsertByKey(x, sorted, key) == [x];
    } else if key(sorted[0]) >= key(x) {
      var head, tail := sorted[0], sorted[1..];
      assert NonIncreasing(tail, key) by {
        forall i, j | 0 <= i < j < |tail| ensures key(tail[i]) >= key(tail[j]) {
          assert tail[i] == sorted[i + 1] && tail[j] == sorted[j + 1];
        }
      }
      InsertKeepsTies(x, tail, key, k);
      var rest := InsertByKey(x, tail, key);
      var r := [head] + rest;
      assert InsertByKey(x, sorted, key) == r;
      assert r[0] == head && r[1..] == rest;
      var h := if key(head) == k then [head] else [];
      assert WithKey(r, key, k) == h + WithKey(rest, key, k);
      assert WithKey(sorted, key, k) == h + WithKey(tail, key, k);
    } else {
      InsertBeforeLarger(x, sorted, key, k);
    }
  }

  /** Inserting before a list whose keys are all smaller puts `x` first. */
  lemma InsertBeforeLarger<T>(x: T, sorted: seq<T>, key: T -> int, k: int)
    requires NonIncreasing(sorted, key)
    requires |sorted| > 0 && key(sorted[0]) < key(x)
    ensures WithKey(InsertByKey(x, sorted, key), key, k) == WithKey(sorted, key, k) + WithKey([x], key, k)
  {
    var r := [x] + sorted;
    assert InsertByKey(x, sorted, key) == r;
    assert r[0] == x && r[1..] == sorted;
    assert WithKey([x], key, k) == (if key(x) == k then [x] else []) by {
      assert [x][1..] == [];
    }
    if key(x) == k {
      forall i | 0 <= i < |sorted| ensures key(sorted[i]) < k {
        if i > 0 {
          assert key(sorted[0]) >= key(sorted[i]);
        }
      }
      WithKeyNone(sorted, key, k);
    }
  }

  /** The result is a rearrangement of the input. */
  lemma {:induction false} SortByDescPermutes<T>(s: seq<T>, key: T -> int)
    ensures multiset(SortByDesc(s, key)) == multiset(s)
    decreases |s|
  {
    if |s| > 0 {
      SortByDescPermutes(s[..|s| - 1], key);
      InsertPermutes(s[|s| - 1], SortByDesc(s[..|s| - 1], key), key);
      assert s == s[..|s| - 1] + [s[|s| - 1]];
    }
  }

  /** Keys never increase along the result. */
  lemma {:induction false} SortByDescOrders<T>(s: seq<T>, key: T -> int)
    ensures NonIncreasing(SortByDesc(s, key), key)
    decreases |s|
  {
    if |s| > 0 {
      SortByDescOrders(s[..|s| - 1], key);
      InsertKeepsOrder(s[|s| - 1], SortByDesc(s[..|s| - 1], key), key);
    }
  }

  /** Stability: for every key, the entries carrying it appear in their original order. */
  lemma {:induction false} SortByDescStable<T>(s: seq<T>, key: T -> int, k: int)
    ensures WithKey(SortByDesc(s, key), key, k) == WithKey(s, key, k)
    decreases |s|
  {
    if |s| > 0 {
      var init := s[..|s| - 1];
      SortByDescStable(init, key, k);
      SortByDescOrders(init, key);
      InsertKeepsTies(s[|s| - 1], SortByDesc(init, key), key, k);
      assert s == init + [s[|s| - 1]];
      WithKeyAppend(init, [s[|s| - 1]], key, k);
    }
  }

  /** An input already in key order comes back unchanged. */
  lemma {:induction false} SortByDescSortedInput<T>(s: seq<T>, key: T -> int)
    requires NonIncreasing(s, key)
    ensures SortByDesc(s, key) == s
    decreases |s|
  {
    if |s| > 0 {
      var init := s[..|s| - 1];
      assert NonIncreasing(init, key);
      SortByDescSortedInput(init, key);
      InsertAtEnd(s[|s| - 1], init, key);
    }
  }

  lemma {:induction false} InsertAtEnd<T>(x: T, sorted: seq<T>, key: T -> int)
    requires forall i :: 0 <= i < |sorted| ==> key(sorted[i]) >= key(x)
    ensures InsertByKey(x, sorted, key) == sorted + [x]
    decreases |sorted|
  {
    if |sorted| > 0 {
      InsertAtEnd(x, sorted[1..], key);
      assert sorted == [sorted[0]] + sorted[1..];
    }
  }

  // ---------------------------------------------------------------------
  // slice, take and ceil
  // ---------------------------------------------------------------------

  function Min(a: int, b: int): int {
    if a <= b then a else b
  }

  function Max(a: int, b: int): int {
    if a <= b then b else a
  }

  /** Where `array_slice` starts: a negative offset counts back from the end, clamped to the list. */
  function SliceStart(len: nat, offset: int): (start: nat)
    ensures start <= len
    ensures offset >= 0 ==> start == Min(offset, len)
    ensures offset < 0 ==> start == Max(0, len + offset)
  {
    if offset >= 0 then Min(offset, len) else Max(0, len + offset)
  }

  /**
   * PHP's `array_slice($s, $offset, $length)`: a negative offset counts from the
   * end, a negative length stops that many entries before the end.
   */
  function Slice<T>(s: seq<T>, offset: int, length: int): (r: seq<T>)
    ensures |r| <= |s|
    ensures length >= 0 ==> |r| <= length
    ensures var start := SliceStart(|s|, offset);
      && start + |r| <= |s| && r == s[start..start + |r|]
      && (length >= 0 ==> |r| == Min(length, |s| - start))
      && (length < 0 ==> |r| == Max(0, |s| + length - start))
  {
    var start := SliceStart(|s|, offset);
    var end := if length >= 0 then Min(start + length, |s|) else Max(start, |s| + length);
    s[start..end]
  }

  /** PHP's `ceil($a / $b)` for integers, `$b` non-zero. */
  function CeilDiv(a: int, b: int): int
    requires b != 0
  {
    if b > 0 then -((-a) / b) else -(a / (-b))
  }

  /** With a positive divisor, `CeilDiv(a, b)` is the least `c` with `a <= c * b`. */
  lemma CeilDivBounds(a: int, b: int)
    requires b > 0
    ensures var c := CeilDiv(a, b); (c - 1) * b < a <= c * b
  {
    var q := (-a) / b;
    var r := (-a) % b;
    assert -a == b * q + r && 0 <= r < b;
    var c := -q;
    assert c * b == a + r;
    assert (c - 1) * b == c * b - b;
  }
}
