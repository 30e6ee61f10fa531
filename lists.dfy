/** The array updates the views apply to the lists they hold in state: `filter` on a
    record's key, `map` that replaces the records carrying a key, and `filter` on the
    index. */
module Lists {

  /** Number of elements whose key is `k`. */
  function CountKey<T, K(==)>(s: seq<T>, key: T -> K, k: K): nat {
    if s == [] then 0 else (if key(s[0]) == k then 1 else 0) + CountKey(s[1..], key, k)
  }

  /** `s.filter(x => key(x) !== k)`. */
  function Without<T(==,!new), K(==)>(s: seq<T>, key: T -> K, k: K): (r: seq<T>)
    ensures |r| == |s| - CountKey(s, key, k)
    ensures forall x :: x in r <==> x in s && key(x) != k
  {
    if s == [] then []
    else
      assert forall x :: x in s <==> x == s[0] || x in s[1..];
      if key(s[0]) == k then Without(s[1..], key, k)
      else [s[0]] + Without(s[1..], key, k)
  }

  /** Filtering distributes over concatenation: the kept elements stay in their order. */
  lemma {:induction false} WithoutAppend<T(!new), K>(a: seq<T>, b: seq<T>, key: T -> K, k: K)
    ensures Without(a + b, key, k) == Without(a, key, k) + Without(b, key, k)
  {
    if a == [] {
      assert a + b == b;
    } else {
      var ab := a + b;
      assert ab[0] == a[0] && ab[1..] == a[1..] + b;
      WithoutAppend(a[1..], b, key, k);
      if key(a[0]) != k {
        assert Without(ab, key, k) == [a[0]] + Without(a[1..] + b, key, k);
        assert Without(a, key, k) == [a[0]] + Without(a[1..], key, k);
      }
    }
  }

  /** A list with no element keyed `k` is left as it is. */
  lemma {:induction false} WithoutNoMatch<T(!new), K>(s: seq<T>, key: T -> K, k: K)
    requires forall i :: 0 <= i < |s| ==> key(s[i]) != k
    ensures Without(s, key, k) == s
  {
    if s != [] {
      WithoutNoMatch(s[1..], key, k);
    }
  }

  /** Filtering twice on the same key is filtering once. */
  lemma WithoutIdempotent<T(!new), K>(s: seq<T>, key: T -> K, k: K)
    ensures Without(Without(s, key, k), key, k) == Without(s, key, k)
  {
    var r := Without(s, key, k);
    forall i | 0 <= i < |r| ensures key(r[i]) != k {
      assert r[i] in r;
    }
    WithoutNoMatch(r, key, k);
  }

  /** `s.map(x => key(x) === k ? y : x)`. */
  function ReplaceWhere<T, K(==)>(s: seq<T>, key: T -> K, k: K, y: T): (r: seq<T>)
    ensures |r| == |s|
    ensures forall i :: 0 <= i < |s| ==> r[i] == if key(s[i]) == k then y else s[i]
  {
    if s == [] then []
    else [if key(s[0]) == k then y else s[0]] + ReplaceWhere(s[1..], key, k, y)
  }

  /** Replacing the records keyed `k` by a record keyed `k` touches nothing else: filtering
      `k` out afterwards gives what filtering it out before gives, and the number of records
      keyed `k` is unchanged. */
  lemma {:induction false} ReplaceKeepsOthers<T(!new), K>(s: seq<T>, key: T -> K, k: K, y: T)
    requires key(y) == k
    ensures Without(ReplaceWhere(s, key, k, y), key, k) == Without(s, key, k)
    ensures CountKey(ReplaceWhere(s, key, k, y), key, k) == CountKey(s, key, k)
  {
    if s != [] {
      var r := ReplaceWhere(s, key, k, y);
      assert r[1..] == ReplaceWhere(s[1..], key, k, y);
      ReplaceKeepsOthers(s[1..], key, k, y);
    }
  }

  /** `s.filter((_, idx) => idx !== i)`. */
  function RemoveAt<T>(s: seq<T>, i: nat): (r: seq<T>)
    ensures i < |s| ==> |r| == |s| - 1
    ensures i < |s| ==> forall j :: 0 <= j < |r| ==> r[j] == if j < i then s[j] else s[j + 1]
    ensures i >= |s| ==> r == s
  {
    if i < |s| then s[..i] + s[i + 1..] else s
  }
}
