/** The list operations the rankers use: `list.sort(key=k, reverse=True)`,
    which is stable (elements with equal keys keep their order even when
    reversed), and the slice `s[:k]`. The sort itself is library code; it is
    specified here by a stable insertion sort. */
module PyList {

  /** Non-increasing under key. */
  predicate SortedDesc<T>(s: seq<T>, key: T -> real) {
    forall i, j :: 0 <= i < j < |s| ==> key(s[i]) >= key(s[j])
  }

  /** The elements of s whose key is v, in their order in s. */
  function WithKey<T>(s: seq<T>, key: T -> real, v: real): seq<T> {
    if s == [] then []
    else WithKey(s[..|s| - 1], key, v) + (if key(s[|s| - 1]) == v then [s[|s| - 1]] else [])
  }

  /** Places x after every element whose key is at least key(x). */
  function InsertDesc<T>(s: seq<T>, x: T, key: T -> real): seq<T>
    decreases |s|
  {
    if s == [] || key(s[|s| - 1]) >= key(x) then s + [x]
    else InsertDesc(s[..|s| - 1], x, key) + [s[|s| - 1]]
  }

  /** `sorted(s, key=key, reverse=True)`: stable descending sort. */
  function SortDesc<T>(s: seq<T>, key: T -> real): seq<T>
    decreases |s|
  {
    if s == [] then [] else InsertDesc(SortDesc(s[..|s| - 1], key), s[|s| - 1], key)
  }

  /** The slice s[:k], Python semantics: a negative k counts from the end. */
  function SliceTo<T>(s: seq<T>, k: int): (r: seq<T>)
    ensures 0 <= k ==> |r| == if k < |s| then k else |s|
    ensures k < 0 ==> |r| == if -k < |s| then |s| + k else 0
    ensures r == s[..|r|]
  {
    if k >= 0 then (if k <= |s| then s[..k] else s)
    else if -k <= |s| then s[..|s| + k] else []
  }

  lemma {:induction false} WithKeyAppend<T>(a: seq<T>, b: seq<T>, key: T -> real, v: real)
    ensures WithKey(a + b, key, v) == WithKey(a, key, v) + WithKey(b, key, v)
    decreases |b|
  {
    if b == [] {
      assert a + b == a;
    } else {
      var b' := b[..|b| - 1];
      assert (a + b)[..|a + b| - 1] == a + b';
      WithKeyAppend(a, b', key, v);
    }
  }

  /** Inserting adds x and nothing else. */
  lemma {:induction false} InsertDescMultiset<T>(s: seq<T>, x: T, key: T -> real)
    ensures multiset(InsertDesc(s, x, key)) == multiset(s) + multiset{x}
    decreases |s|
  {
    if s != [] && key(s[|s| - 1]) < key(x) {
      assert s == s[..|s| - 1] + [s[|s| - 1]];
      InsertDescMultiset(s[..|s| - 1], x, key);
    }
  }

  /** Inserting into a sorted sequence keeps it sorted. */
  lemma {:induction false} InsertDescSorted<T>(s: seq<T>, x: T, key: T -> real)
    requires SortedDesc(s, key)
    ensures SortedDesc(InsertDesc(s, x, key), key)
    decreases |s|
  {
    if s != [] && key(s[|s| - 1]) < key(x) {
      var s' := s[..|s| - 1];
      var last := s[|s| - 1];
      InsertDescSorted(s', x, key);
      InsertDescAbove(s', x, key, key(last));
      var r' := InsertDesc(s', x, key);
      var r := r' + [last];
      forall i, j | 0 <= i < j < |r| ensures key(r[i]) >= key(r[j]) {
        assert r[i] == r'[i];
        if j < |r'| {
          assert r[j] == r'[j];
        }
      }
      assert InsertDesc(s, x, key) == r;
    } else {
      var r := s + [x];
      forall i, j | 0 <= i < j < |r| ensures key(r[i]) >= key(r[j]) {
        assert r[i] == s[i];
        if j < |s| {
          assert r[j] == s[j];
        }
      }
    }
  }

  /** Inserting keeps a lower bound that every key of s and the key of x meet. */
  lemma {:induction false} InsertDescAbove<T>(s: seq<T>, x: T, key: T -> real, b: real)
    requires forall i :: 0 <= i < |s| ==> key(s[i]) >= b
    requires key(x) >= b
    ensures forall i :: 0 <= i < |InsertDesc(s, x, key)| ==> key(InsertDesc(s, x, key)[i]) >= b
    decreases |s|
  {
    if s != [] && key(s[|s| - 1]) < key(x) {
      var s' := s[..|s| - 1];
      InsertDescAbove(s', x, key, b);
      var r := InsertDesc(s', x, key) + [s[|s| - 1]];
      assert InsertDesc(s, x, key) == r;
    } else {
      var r := s + [x];
      assert forall i :: 0 <= i < |s| ==> r[i] == s[i];
    }
  }

  /** WithKey of a one-element sequence. */
  lemma WithKeySingle<T>(x: T, key: T -> real, v: real)
    ensures WithKey([x], key, v) == if key(x) == v then [x] else []
  {
    assert [x][..0] == [];
  }

  /** Inserting into a sorted sequence puts x after every element with x's key. */
  lemma {:induction false} InsertDescStable<T>(s: seq<T>, x: T, key: T -> real, v: real)
    requires SortedDesc(s, key)
    ensures WithKey(InsertDesc(s, x, key), key, v) == WithKey(s, key, v) + WithKey([x], key, v)
    decreases |s|
  {
    if s == [] || key(s[|s| - 1]) >= key(x) {
      WithKeyAppend(s, [x], key, v);
    } else {
      var s' := s[..|s| - 1];
      var last := s[|s| - 1];
      assert s == s' + [last];
      var r' := InsertDesc(s', x, key);
      assert InsertDesc(s, x, key) == r' + [last];
      var wx, wl := WithKey([x], key, v), WithKey([last], key, v);
      calc {
        WithKey(InsertDesc(s, x, key), key, v);
        { WithKeyAppend(r', [last], key, v); }
        WithKey(r', key, v) + wl;
        { InsertDescStable(s', x, key, v); }
        WithKey(s', key, v) + wx + wl;
        { SingletonsCommute(x, last, key, v); }
        WithKey(s', key, v) + wl + wx;
        { WithKeyAppend(s', [last], key, v); }
        WithKey(s, key, v) + wx;
      }
    }
  }

  /** Two elements with different keys: at most one of them has key v, so
      their WithKey singletons commute. */
  lemma SingletonsCommute<T>(x: T, y: T, key: T -> real, v: real)
    requires key(x) != key(y)
    ensures WithKey([x], key, v) + WithKey([y], key, v) == WithKey([y], key, v) + WithKey([x], key, v)
  {
    WithKeySingle(x, key, v);
    WithKeySingle(y, key, v);
  }

  /** list.sort(key=key, reverse=True) yields a non-increasing permutation of
      its input in which elements with equal keys keep their input order. */
  lemma {:induction false} SortDescCorrect<T>(s: seq<T>, key: T -> real)
    ensures SortedDesc(SortDesc(s, key), key)
    ensures multiset(SortDesc(s, key)) == multiset(s)
    ensures |SortDesc(s, key)| == |s|
    ensures forall v :: WithKey(SortDesc(s, key), key, v) == WithKey(s, key, v)
    decreases |s|
  {
    if s != [] {
      var s' := s[..|s| - 1];
      var last := s[|s| - 1];
      assert s == s' + [last];
      SortDescCorrect(s', key);
      InsertDescSorted(SortDesc(s', key), last, key);
      InsertDescMultiset(SortDesc(s', key), last, key);
      forall v ensures WithKey(SortDesc(s, key), key, v) == WithKey(s, key, v) {
        InsertDescStable(SortDesc(s', key), last, key, v);
        WithKeyAppend(s', [last], key, v);
      }
      assert |SortDesc(s, key)| == |multiset(SortDesc(s, key))|;
    }
  }

  /** Every element kept by a slice of a sorted sequence has a key at least
      that of every element cut off. */
  lemma SliceKeepsLargest<T>(s: seq<T>, k: int, key: T -> real)
    requires SortedDesc(s, key)
    ensures forall i, j :: 0 <= i < |SliceTo(s, k)| <= j < |s| ==> key(SliceTo(s, k)[i]) >= key(s[j])
  {
  }

  /** What a slice keeps of the elements with one key is a prefix of them. */
  lemma {:induction false} WithKeyOfPrefix<T>(s: seq<T>, n: nat, key: T -> real, v: real)
    requires n <= |s|
    ensures |WithKey(s[..n], key, v)| <= |WithKey(s, key, v)|
         && WithKey(s[..n], key, v) == WithKey(s, key, v)[..|WithKey(s[..n], key, v)|]
  {
    assert s == s[..n] + s[n..];
    WithKeyAppend(s[..n], s[n..], key, v);
  }
}
