/** Models of the JavaScript values and array/string primitives that the views rely on:
    optional values, `toLowerCase`, `trim`, `startsWith`, `includes`, de-duplication
    by an `includes`-guarded `push`, and numeric sums. */
module JsValues {

  datatype Option<+T> = None | Some(value: T)

  /** No element occurs twice. */
  predicate Distinct<T(==)>(s: seq<T>) {
    forall i, j :: 0 <= i < j < |s| ==> s[i] != s[j]
  }

  /** The elements of `s` in order of first appearance: what a loop that pushes each
      element only when the array does not already `includes` it produces. */
  function Dedup<T(==,!new)>(s: seq<T>): (r: seq<T>)
    ensures Distinct(r)
    ensures forall x :: x in r <==> x in s
    ensures |r| <= |s|
  {
    if s == [] then []
    else
      var d := Dedup(s[..|s| - 1]);
      var x := s[|s| - 1];
      assert forall y :: y in s <==> y in s[..|s| - 1] || y == x;
      if x in d then d else d + [x]
  }

  /** Extending a prefix by one element. */
  lemma PrefixSnoc<T>(s: seq<T>, i: nat)
    requires i < |s|
    ensures s[..i + 1] == s[..i] + [s[i]]
  {
  }

  /** Pushing one more element onto the input pushes it onto the output when it is new. */
  lemma DedupSnoc<T(!new)>(s: seq<T>, x: T)
    ensures Dedup(s + [x]) == if x in Dedup(s) then Dedup(s) else Dedup(s) + [x]
  {
    assert (s + [x])[..|s + [x]| - 1] == s;
  }

  lemma DedupOfDistinct<T(!new)>(s: seq<T>)
    requires Distinct(s)
    ensures Dedup(s) == s
  {
    if s != [] {
      DedupOfDistinct(s[..|s| - 1]);
    }
  }

  /** A duplicate-free sequence has as many elements as its set. */
  lemma {:induction false} DistinctCardinality<T(!new)>(s: seq<T>)
    requires Distinct(s)
    ensures |set x | x in s| == |s|
  {
    if s != [] {
      var p := s[..|s| - 1];
      DistinctCardinality(p);
      assert (set x | x in s) == (set x | x in p) + {s[|s| - 1]};
    }
  }

  /** Sum of a sequence of integers, added left to right as `reduce` does. */
  function Sum(s: seq<int>): int {
    if s == [] then 0 else Sum(s[..|s| - 1]) + s[|s| - 1]
  }

  lemma {:induction false} SumAppend(a: seq<int>, b: seq<int>)
    ensures Sum(a + b) == Sum(a) + Sum(b)
  {
    if b != [] {
      assert (a + b)[..|a + b| - 1] == a + b[..|b| - 1];
      SumAppend(a, b[..|b| - 1]);
    } else {
      assert a + b == a;
    }
  }

  /** `f(k)` summed over the keys in order. */
  function SumBy<K>(keys: seq<K>, f: K -> int): int {
    if keys == [] then 0 else SumBy(keys[..|keys| - 1], f) + f(keys[|keys| - 1])
  }

  /** Raising `f` by `a` at one key that occurs once raises the sum by `a`. */
  lemma {:induction false} SumByBump<K>(keys: seq<K>, f: K -> int, g: K -> int, c: K, a: int)
    requires Distinct(keys)
    requires forall k :: k in keys ==> g(k) == f(k) + (if k == c then a else 0)
    ensures SumBy(keys, g) == SumBy(keys, f) + (if c in keys then a else 0)
  {
    if keys != [] {
      var p := keys[..|keys| - 1];
      assert Distinct(p);
      SumByBump(p, f, g, c, a);
      assert c in keys <==> c in p || c == keys[|keys| - 1];
      assert keys[|keys| - 1] !in p;
    }
  }

  /** Sums agree when the functions agree on the keys. */
  lemma {:induction false} SumByCongruent<K>(keys: seq<K>, f: K -> int, g: K -> int)
    requires forall k :: k in keys ==> f(k) == g(k)
    ensures SumBy(keys, f) == SumBy(keys, g)
  {
    if keys != [] {
      SumByCongruent(keys[..|keys| - 1], f, g);
    }
  }

  /** `String.prototype.toLowerCase` on the ASCII letters. */
  function LowerChar(c: char): char {
    if 'A' <= c <= 'Z' then (c as int + 32) as char else c
  }

  function Lower(s: string): string {
    seq(|s|, i requires 0 <= i < |s| => LowerChar(s[i]))
  }

  /** Case-insensitive equality as `a.toLowerCase() === b.toLowerCase()`. */
  predicate SameIgnoringCase(a: string, b: string) {
    Lower(a) == Lower(b)
  }

  /** `s.startsWith(p)`. */
  predicate StartsWith(s: string, p: string) {
    |p| <= |s| && s[..|p|] == p
  }

  /** `s.includes(t)`: `t` occurs at some position of `s`. */
  predicate Includes(s: string, t: string)
    decreases |s|
  {
    StartsWith(s, t) || (|s| > 0 && Includes(s[1..], t))
  }

  lemma {:induction false} IncludesAt(s: string, t: string, i: nat)
    requires i + |t| <= |s| && s[i..i + |t|] == t
    ensures Includes(s, t)
  {
    if i > 0 {
      assert s[1..][i - 1..i - 1 + |t|] == s[i..i + |t|];
      IncludesAt(s[1..], t, i - 1);
    } else {
      assert s[..|t|] == t;
    }
  }

  /** The characters `String.prototype.trim` removes: the ECMAScript WhiteSpace and
      LineTerminator code points (tab, line feed, vertical tab, form feed, carriage return,
      the space separators of Unicode category Zs, U+2028, U+2029 and U+FEFF). */
  predicate IsJsWhitespace(c: char) {
    || ('\U{0009}' <= c <= '\U{000D}')
    || c == ' ' || c == '\U{00A0}' || c == '\U{1680}'
    || ('\U{2000}' <= c <= '\U{200A}')
    || c == '\U{2028}' || c == '\U{2029}' || c == '\U{202F}' || c == '\U{205F}'
    || c == '\U{3000}' || c == '\U{FEFF}'
  }

  /** `!s.trim()`: nothing is left once the surrounding white space is removed. */
  predicate IsBlank(s: string) {
    forall i :: 0 <= i < |s| ==> IsJsWhitespace(s[i])
  }

  /** Drops the leading white space. */
  function TrimStart(s: string): (r: string)
    ensures |r| <= |s| && r == s[|s| - |r|..]
    ensures r == [] || !IsJsWhitespace(r[0])
  {
    if s == [] || !IsJsWhitespace(s[0]) then s else TrimStart(s[1..])
  }

  /** Drops the trailing white space. */
  function TrimEnd(s: string): (r: string)
    ensures |r| <= |s| && r == s[..|r|]
    ensures r == [] || !IsJsWhitespace(r[|r| - 1])
  {
    if s == [] || !IsJsWhitespace(s[|s| - 1]) then s else TrimEnd(s[..|s| - 1])
  }

  /** `s.trim()`. */
  function Trim(s: string): string {
    TrimEnd(TrimStart(s))
  }

  lemma {:induction false} TrimStartEmpty(s: string)
    ensures TrimStart(s) == [] <==> IsBlank(s)
  {
    if s != [] && IsJsWhitespace(s[0]) {
      TrimStartEmpty(s[1..]);
      BlankCons(s);
    }
  }

  /** A string whose first character is white space is blank exactly when its tail is. */
  lemma BlankCons(s: string)
    requires s != [] && IsJsWhitespace(s[0])
    ensures IsBlank(s) <==> IsBlank(s[1..])
  {
    if IsBlank(s[1..]) {
      forall i | 0 <= i < |s| ensures IsJsWhitespace(s[i]) {
        if i > 0 { assert s[i] == s[1..][i - 1]; }
      }
    }
  }

  /** Trimming the end never removes a first character that is not white space. */
  lemma {:induction false} TrimEndKeepsFirst(s: string)
    requires s != [] && !IsJsWhitespace(s[0])
    ensures TrimEnd(s) != []
  {
    if |s| > 1 && IsJsWhitespace(s[|s| - 1]) {
      assert s[..|s| - 1][0] == s[0];
      TrimEndKeepsFirst(s[..|s| - 1]);
    }
  }

  /** `!s.trim()` holds exactly when the string is blank. */
  lemma BlankIffTrimEmpty(s: string)
    ensures Trim(s) == [] <==> IsBlank(s)
  {
    TrimStartEmpty(s);
    if TrimStart(s) != [] {
      TrimEndKeepsFirst(TrimStart(s));
    }
  }
}
