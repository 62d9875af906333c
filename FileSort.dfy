/**
 * `sort_files(lis)`: `lis.sort(key=lambda x: x.split('.')[0])`, then
 * `return lis`.  Python's `list.sort` is stable and compares `str` keys by
 * code point, lexicographically.  The sorted order is specified by a
 * functional insertion sort whose output is shown to be ordered by key, a
 * permutation of the input, and order-preserving among equal keys.
 */
module FileSort {
  import opened PyStr

  /** `x.split('.')[0]`: the file name up to its first '.', or all of it. */
  function SortKey(x: string): (k: string)
    ensures k <= x && '.' !in k
    ensures |k| < |x| ==> x[|k|] == '.'
  {
    SplitFirst(x, '.');
    Split(x, '.')[0]
  }

  /** `a <= b` on Python strings: lexicographic order of code points. */
  predicate StrLe(a: string, b: string)
    decreases |a|
  {
    a == [] || (b != [] && (a[0] < b[0] || (a[0] == b[0] && StrLe(a[1..], b[1..]))))
  }

  lemma {:induction false} StrLeTotal(a: string, b: string)
    ensures StrLe(a, b) || StrLe(b, a)
    decreases |a|
  {
    if a != [] && b != [] && a[0] == b[0] {
      StrLeTotal(a[1..], b[1..]);
    }
  }

  lemma {:induction false} StrLeTransitive(a: string, b: string, c: string)
    requires StrLe(a, b) && StrLe(b, c)
    ensures StrLe(a, c)
    decreases |a|
  {
    if a != [] && a[0] == b[0] && b[0] == c[0] {
      StrLeTransitive(a[1..], b[1..], c[1..]);
    }
  }

  lemma {:induction false} StrLeAntisymmetric(a: string, b: string)
    requires StrLe(a, b) && StrLe(b, a)
    ensures a == b
    decreases |a|
  {
    if a != [] {
      StrLeAntisymmetric(a[1..], b[1..]);
    }
  }

  predicate KeyLe(x: string, y: string) {
    StrLe(SortKey(x), SortKey(y))
  }

  /** Ordered by key, each element against its successor. */
  predicate Sorted(s: seq<string>) {
    forall i :: 0 < i < |s| ==> KeyLe(s[i - 1], s[i])
  }

  /** Ordered by key as a whole: any earlier element's key is at most any later one's. */
  lemma {:induction false} SortedAllPairs(s: seq<string>, i: nat, j: nat)
    requires Sorted(s) && i <= j < |s|
    ensures KeyLe(s[i], s[j])
    decreases j - i
  {
    if i == j {
      StrLeTotal(SortKey(s[i]), SortKey(s[i]));
    } else {
      SortedAllPairs(s, i, j - 1);
      StrLeTransitive(SortKey(s[i]), SortKey(s[j - 1]), SortKey(s[j]));
    }
  }

  /**
   * `x` inserted into `t` after every element whose key is at most its own:
   * it moves left only past strictly larger keys, which is what makes the
   * sort stable.
   */
  function Insert(t: seq<string>, x: string): (r: seq<string>)
    ensures |r| == |t| + 1
    ensures r[|t|] == x || (|t| > 0 && r[|t|] == t[|t| - 1])
    decreases |t|
  {
    if t == [] || KeyLe(t[|t| - 1], x) then t + [x]
    else Insert(t[..|t| - 1], x) + [t[|t| - 1]]
  }

  /** The stable sort by key, as repeated insertion from the left. */
  function SortSpec(s: seq<string>): (r: seq<string>)
    ensures |r| == |s|
    decreases |s|
  {
    if s == [] then [] else Insert(SortSpec(s[..|s| - 1]), s[|s| - 1])
  }

  lemma {:induction false} InsertSorted(t: seq<string>, x: string)
    requires Sorted(t)
    ensures Sorted(Insert(t, x))
    decreases |t|
  {
    if t != [] && !KeyLe(t[|t| - 1], x) {
      var init := t[..|t| - 1];
      InsertSorted(init, x);
      var r := Insert(t, x);
      var ri := Insert(init, x);
      assert r == ri + [t[|t| - 1]];
      StrLeTotal(SortKey(t[|t| - 1]), SortKey(x));
      forall i | 0 < i < |r|
        ensures KeyLe(r[i - 1], r[i])
      {
        if i < |r| - 1 {
          assert r[i - 1] == ri[i - 1] && r[i] == ri[i];
        } else if ri[|init|] != x {
          assert |t| >= 2 && ri[|init|] == t[|t| - 2];
        }
      }
    }
  }

  lemma {:induction false} SortSpecSorted(s: seq<string>)
    ensures Sorted(SortSpec(s))
    decreases |s|
  {
    if s != [] {
      SortSpecSorted(s[..|s| - 1]);
      InsertSorted(SortSpec(s[..|s| - 1]), s[|s| - 1]);
    }
  }

  lemma {:induction false} InsertPermutes(t: seq<string>, x: string)
    ensures multiset(Insert(t, x)) == multiset(t) + multiset{x}
    decreases |t|
  {
    if t != [] && !KeyLe(t[|t| - 1], x) {
      var init := t[..|t| - 1];
      InsertPermutes(init, x);
      assert t == init + [t[|t| - 1]];
    }
  }

  lemma {:induction false} SortSpecPermutes(s: seq<string>)
    ensures multiset(SortSpec(s)) == multiset(s)
    decreases |s|
  {
    if s != [] {
      SortSpecPermutes(s[..|s| - 1]);
      InsertPermutes(SortSpec(s[..|s| - 1]), s[|s| - 1]);
      assert s == s[..|s| - 1] + [s[|s| - 1]];
    }
  }

  /** The elements of `s` whose key is `k`, in their order in `s`. */
  function WithKey(s: seq<string>, k: string): (r: seq<string>)
    ensures |r| <= |s|
    decreases |s|
  {
    if s == [] then []
    else (if SortKey(s[0]) == k then [s[0]] else []) + WithKey(s[1..], k)
  }

  lemma {:induction false} WithKeyAppend(a: seq<string>, b: seq<string>, k: string)
    ensures WithKey(a + b, k) == WithKey(a, k) + WithKey(b, k)
    decreases |a|
  {
    if a == [] {
      assert a + b == b;
    } else {
      var head := if SortKey(a[0]) == k then [a[0]] else [];
      assert (a + b)[0] == a[0] && (a + b)[1..] == a[1..] + b;
      assert WithKey(a + b, k) == head + WithKey(a[1..] + b, k);
      WithKeyAppend(a[1..], b, k);
      assert WithKey(a, k) == head + WithKey(a[1..], k);
    }
  }

  lemma {:induction false} InsertStable(t: seq<string>, x: string, k: string)
    ensures WithKey(Insert(t, x), k) == WithKey(t, k) + WithKey([x], k)
    decreases |t|
  {
    if t == [] || KeyLe(t[|t| - 1], x) {
      WithKeyAppend(t, [x], k);
    } else {
      var init := t[..|t| - 1];
      var last := t[|t| - 1];
      InsertStable(init, x, k);
      WithKeyAppend(Insert(init, x), [last], k);
      WithKeyAppend(init, [last], k);
      assert t == init + [last];
      if SortKey(x) == k && SortKey(last) == k {
        StrLeTotal(SortKey(last), SortKey(x));
      }
    }
  }

  /** Stability: the elements sharing any one key come out in the order they went in. */
  lemma {:induction false} SortSpecStable(s: seq<string>, k: string)
    ensures WithKey(SortSpec(s), k) == WithKey(s, k)
    decreases |s|
  {
    if s != [] {
      var init := s[..|s| - 1];
      SortSpecStable(init, k);
      InsertStable(SortSpec(init), s[|s| - 1], k);
      WithKeyAppend(init, [s[|s| - 1]], k);
      assert s == init + [s[|s| - 1]];
    }
  }

  /**
   * `sort_files(lis)`: the list is sorted in place by the library sort and the
   * same list object is returned.  The new contents are the stable sort by
   * key, written back element by element.
   */
  method SortFiles(lis: array<string>) returns (r: array<string>)
    modifies lis
    ensures r == lis
    ensures lis[..] == SortSpec(old(lis[..]))
    ensures Sorted(lis[..]) && multiset(lis[..]) == multiset(old(lis[..]))
    ensures forall k :: WithKey(lis[..], k) == WithKey(old(lis[..]), k)
  {
    var sorted := SortSpec(lis[..]);
    SortSpecSorted(lis[..]);
    SortSpecPermutes(lis[..]);
    forall k {
      SortSpecStable(lis[..], k);
    }
    forall k | 0 <= k < lis.Length {
      lis[k] := sorted[k];
    }
    r := lis;
  }
}
