/** Order-preserving filters and the bookkeeping of Python's insertion-ordered
    dictionaries-of-lists. */
module Seqs {
  import opened Wrappers

  /** The elements of `s` that satisfy `p`, in their order in `s` (Python's
      `[x for x in s if p(x)]`). Its properties are the lemmas below, so that they
      are brought in only where a proof needs them. */
  function Filter<T>(s: seq<T>, p: T -> bool): (r: seq<T>)
    ensures |r| <= |s|
  {
    if s == [] then []
    else (if p(s[0]) then [s[0]] else []) + Filter(s[1..], p)
  }

  /** The filter keeps exactly the elements that pass the test. */
  lemma {:induction false} FilterMembers<T(!new)>(s: seq<T>, p: T -> bool)
    ensures forall x :: x in Filter(s, p) <==> x in s && p(x)
  {
    if s != [] {
      FilterMembers(s[1..], p);
      assert forall x :: x in s <==> x == s[0] || x in s[1..];
    }
  }

  /** The filter keeps the order of what it keeps. */
  lemma {:induction false} FilterSubsequence<T>(s: seq<T>, p: T -> bool)
    ensures Subsequence(Filter(s, p), s)
  {
    if s != [] {
      var rest := Filter(s[1..], p);
      FilterSubsequence(s[1..], p);
      if p(s[0]) {
        assert Filter(s, p) == [s[0]] + rest;
        assert ([s[0]] + rest)[1..] == rest;
      } else {
        assert Filter(s, p) == rest;
      }
    }
  }

  /** `a` is `b` with some elements left out and the rest kept in order. */
  predicate Subsequence<T(==)>(a: seq<T>, b: seq<T>)
    decreases |b|
  {
    a == [] || (b != [] && ((a[0] == b[0] && Subsequence(a[1..], b[1..])) || Subsequence(a, b[1..])))
  }

  lemma {:induction false} FilterAppend<T>(a: seq<T>, b: seq<T>, p: T -> bool)
    ensures Filter(a + b, p) == Filter(a, p) + Filter(b, p)
  {
    if a == [] {
      assert a + b == b;
    } else {
      var h := if p(a[0]) then [a[0]] else [];
      var ab := a + b;
      assert ab != [] && ab[0] == a[0] && ab[1..] == a[1..] + b;
      assert Filter(ab, p) == h + Filter(a[1..] + b, p);
      FilterAppend(a[1..], b, p);
      assert Filter(a, p) == h + Filter(a[1..], p);
    }
  }

  /** Filtering one more element at the end. */
  lemma FilterSnoc<T>(s: seq<T>, x: T, p: T -> bool)
    ensures Filter(s + [x], p) == Filter(s, p) + (if p(x) then [x] else [])
  {
    FilterAppend(s, [x], p);
    assert [x][1..] == [];
  }

  /** One step of a filter that deletes, from the back, the elements failing `p`:
      `tags` is `found` with the failing elements after position `i` already gone. */
  lemma FilterFromBack<T>(found: seq<T>, i: nat, p: T -> bool, tags: seq<T>)
    requires i < |found| && tags == found[..i + 1] + Filter(found[i + 1..], p)
    ensures i < |tags| && tags[i] == found[i]
    ensures p(found[i]) ==> tags == found[..i] + Filter(found[i..], p)
    ensures !p(found[i]) ==> tags[..i] + tags[i + 1..] == found[..i] + Filter(found[i..], p)
  {
    assert found[i..][1..] == found[i + 1..];
    assert found[..i + 1] == found[..i] + [found[i]];
    assert tags[..i] == found[..i];
    assert tags[i + 1..] == Filter(found[i + 1..], p);
  }

  /** Concatenation is associative (stated once, so that proofs need not rediscover it
      among many other facts). */
  lemma AppendAssoc<T>(a: seq<T>, b: seq<T>, c: seq<T>)
    ensures a + b + c == a + (b + c)
  {
  }

  predicate StrictlyIncreasing(s: seq<nat>) {
    forall j, k :: 0 <= j < k < |s| ==> s[j] < s[k]
  }

  /** Leaving elements out of a strictly increasing sequence keeps it strictly increasing. */
  lemma {:induction false} SubsequenceIncreasing(a: seq<nat>, b: seq<nat>)
    requires Subsequence(a, b) && StrictlyIncreasing(b)
    ensures StrictlyIncreasing(a)
    ensures forall x :: x in a ==> x in b
    decreases |b|
  {
    if a != [] {
      if a[0] == b[0] && Subsequence(a[1..], b[1..]) {
        SubsequenceIncreasing(a[1..], b[1..]);
        forall k | 0 < k < |a| ensures a[0] < a[k] {
          assert a[k] in a[1..];
          var m :| 0 <= m < |b[1..]| && b[1..][m] == a[k];
          assert b[m + 1] == a[k];
        }
        assert forall k :: 0 < k < |a| ==> a[k] == a[1..][k - 1];
        assert forall x :: x in a ==> x == b[0] || x in a[1..];
        assert forall x :: x in b[1..] ==> x in b;
      } else {
        SubsequenceIncreasing(a, b[1..]);
        assert forall x :: x in b[1..] ==> x in b;
      }
    }
  }

  lemma IncreasingSlice(s: seq<nat>, lo: nat, hi: nat)
    requires StrictlyIncreasing(s) && lo <= hi <= |s|
    ensures StrictlyIncreasing(s[lo..hi])
  {
    forall i, j | 0 <= i < j < hi - lo
      ensures s[lo..hi][i] < s[lo..hi][j]
    {
      assert s[lo..hi][i] == s[lo + i] && s[lo..hi][j] == s[lo + j];
    }
  }

  /** Filtering a strictly increasing sequence of ids keeps it strictly increasing. */
  lemma FilterIncreasing(s: seq<nat>, p: nat -> bool)
    requires StrictlyIncreasing(s)
    ensures StrictlyIncreasing(Filter(s, p))
  {
    FilterSubsequence(s, p);
    SubsequenceIncreasing(Filter(s, p), s);
  }

  /** Position of the first occurrence of `x` in `s`. */
  function IndexOf<T(==)>(s: seq<T>, x: T): (k: nat)
    requires x in s
    ensures k < |s| && s[k] == x
  {
    if s[0] == x then 0 else 1 + IndexOf(s[1..], x)
  }

  /** `IndexOf` finds the first occurrence. */
  lemma {:induction false} IndexOfFirst<T>(s: seq<T>, x: T, k: nat)
    requires k < |s| && s[k] == x && x !in s[..k]
    ensures IndexOf(s, x) == k
  {
    if k > 0 {
      assert s[..k][0] == s[0];
      assert s[1..][k - 1] == x;
      assert s[1..][..k - 1] == s[..k][1..];
      IndexOfFirst(s[1..], x, k - 1);
    }
  }

  /** In a sequence without repetitions the position of an element is unique. */
  lemma IndexOfIncreasing(s: seq<nat>, k: nat)
    requires StrictlyIncreasing(s) && k < |s|
    ensures IndexOf(s, s[k]) == k
  {
    var j := IndexOf(s, s[k]);
    assert s[j] == s[k];
  }

  function Reverse<T>(s: seq<T>): (r: seq<T>)
    ensures |r| == |s|
    ensures forall k :: 0 <= k < |s| ==> r[k] == s[|s| - 1 - k]
  {
    if s == [] then [] else Reverse(s[1..]) + [s[0]]
  }

  lemma ReverseMembers<T>(s: seq<T>)
    ensures forall x :: x in Reverse(s) <==> x in s
  {
    var r := Reverse(s);
    forall x | x in s ensures x in r {
      var k :| 0 <= k < |s| && s[k] == x;
      assert r[|s| - 1 - k] == x;
    }
  }

  predicate NoDuplicates<T(==)>(s: seq<T>) {
    forall j, k :: 0 <= j < k < |s| ==> s[j] != s[k]
  }

  /** The distinct keys of `s`, in the order of their first occurrence: the key order of a
      Python dictionary filled by assigning `d[key(x)]` for each `x` of `s` in turn. */
  function FirstOccurrences<T(==,!new), K(==,!new)>(s: seq<T>, key: T -> K): (ks: seq<K>)
    ensures NoDuplicates(ks)
    ensures forall k :: k in ks <==> exists x :: x in s && key(x) == k
  {
    if s == [] then []
    else
      var ks := FirstOccurrences(s[..|s| - 1], key);
      var last := s[|s| - 1];
      assert s == s[..|s| - 1] + [last];
      assert forall x :: x in s <==> x in s[..|s| - 1] || x == last;
      if key(last) in ks then ks else ks + [key(last)]
  }

  /** The keys first seen in a prefix are the first keys seen in the whole. */
  lemma {:induction false} FirstOccurrencesPrefix<T(!new), K(!new)>(s: seq<T>, key: T -> K, j: nat)
    requires j <= |s|
    ensures var pre := FirstOccurrences(s[..j], key);
      |pre| <= |FirstOccurrences(s, key)| && FirstOccurrences(s, key)[..|pre|] == pre
    decreases |s| - j
  {
    if j < |s| {
      var init := s[..|s| - 1];
      assert init[..j] == s[..j];
      FirstOccurrencesPrefix(init, key, j);
    } else {
      assert s[..j] == s;
    }
  }

  /** When no key first seen before position `i` is `bad` and the key at `i` is new and
      `bad`, it is the first `bad` key of all. */
  lemma FirstFailingKey<T(!new), K(!new)>(s: seq<T>, key: T -> K, i: nat, bad: K -> bool)
    requires i < |s|
    requires key(s[i]) !in FirstOccurrences(s[..i], key) && bad(key(s[i]))
    requires forall j :: 0 <= j < |FirstOccurrences(s[..i], key)| ==> !bad(FirstOccurrences(s[..i], key)[j])
    ensures var all := FirstOccurrences(s, key);
      var n := |FirstOccurrences(s[..i], key)|;
      && FirstWhere(all, bad) == Some(n) && n < |all| && all[n] == key(s[i])
  {
    var pre := FirstOccurrences(s[..i], key);
    var all := FirstOccurrences(s, key);
    NewKeyPrefix(s, key, i);
    assert forall j :: 0 <= j < |pre| ==> all[j] == pre[j];
    FirstWhereAt(all, bad, |pre|);
  }

  /** A new key at position `i` follows the keys seen before it in the order of all. */
  lemma NewKeyPrefix<T(!new), K(!new)>(s: seq<T>, key: T -> K, i: nat)
    requires i < |s| && key(s[i]) !in FirstOccurrences(s[..i], key)
    ensures var pre := FirstOccurrences(s[..i], key);
      var all := FirstOccurrences(s, key);
      |pre| < |all| && all[..|pre| + 1] == pre + [key(s[i])]
  {
    assert s[..i + 1][..i] == s[..i];
    FirstOccurrencesPrefix(s, key, i + 1);
  }

  /** The first position that passes. */
  lemma FirstWhereAt<T>(s: seq<T>, p: T -> bool, n: nat)
    requires n < |s| && p(s[n]) && forall j :: 0 <= j < n ==> !p(s[j])
    ensures FirstWhere(s, p) == Some(n)
  {
  }

  /** The test "has key `k`". */
  function KeyIs<T, K(==)>(key: T -> K, k: K): T -> bool {
    x => key(x) == k
  }

  /** The dictionary-of-lists `groups`, with its keys in the order `order`, holds the
      elements of `s` by key: the keys in order of first occurrence, and under each key
      the elements with that key in their order in `s`. */
  ghost predicate Grouped<T(!new), K(!new)>(s: seq<T>, key: T -> K, order: seq<K>, groups: map<K, seq<T>>) {
    && order == FirstOccurrences(s, key)
    && (forall k :: k in groups <==> k in order)
    && (forall k :: k in groups ==> groups[k] == Filter(s, KeyIs(key, k)))
  }

  /** Appending an element under its key, opening the key when it is new, keeps the
      grouping. */
  lemma GroupedSnoc<T(!new), K(!new)>(s: seq<T>, x: T, key: T -> K, order: seq<K>, groups: map<K, seq<T>>)
    requires Grouped(s, key, order, groups)
    ensures key(x) !in groups ==> Grouped(s + [x], key, order + [key(x)], groups[key(x) := [x]])
    ensures key(x) in groups ==> Grouped(s + [x], key, order, groups[key(x) := groups[key(x)] + [x]])
  {
    assert (s + [x])[..|s + [x]| - 1] == s;
    forall k
      ensures Filter(s + [x], KeyIs(key, k)) == Filter(s, KeyIs(key, k)) + (if key(x) == k then [x] else [])
    {
      FilterSnoc(s, x, KeyIs(key, k));
    }
    if key(x) !in groups {
      assert forall y :: y in s ==> !KeyIs(key, key(x))(y);
      FilterNone(s, KeyIs(key, key(x)));
    }
  }

  /** Extending a slice by one element. */
  lemma SliceSnoc<T>(s: seq<T>, i: nat, j: nat)
    requires i <= j < |s|
    ensures s[i..j + 1] == s[i..j] + [s[j]]
  {
  }

  /** The first n elements of the suffix from i are the n elements from i. */
  lemma SliceOfSuffix<T>(s: seq<T>, i: nat, n: nat)
    requires i + n <= |s|
    ensures s[i..][..n] == s[i..i + n]
  {
  }

  /** Appending an element that fails p to elements that all fail p. */
  lemma NoneAppended<T>(s: seq<T>, x: T, p: T -> bool)
    requires forall k :: 0 <= k < |s| ==> !p(s[k])
    requires !p(x)
    ensures forall k :: 0 <= k < |s + [x]| ==> !p((s + [x])[k])
  {
    forall k | 0 <= k < |s + [x]| ensures !p((s + [x])[k]) {
      if k < |s| {
        assert (s + [x])[k] == s[k];
      }
    }
  }

  /** Nothing passes, nothing is kept. */
  lemma {:induction false} FilterNone<T>(s: seq<T>, p: T -> bool)
    requires forall y :: y in s ==> !p(y)
    ensures Filter(s, p) == []
  {
    if s != [] {
      assert s[0] in s;
      assert forall y :: y in s[1..] ==> y in s;
      FilterNone(s[1..], p);
    }
  }

  /** Each key seen has at least one element. */
  lemma KeyGroupNonEmpty<T(!new), K(!new)>(s: seq<T>, key: T -> K, k: K)
    requires k in FirstOccurrences(s, key)
    ensures Filter(s, KeyIs(key, k)) != []
  {
    var x :| x in s && key(x) == k;
    FilterMembers(s, KeyIs(key, k));
    assert x in Filter(s, KeyIs(key, k));
  }

  /** Every element lands in the group of its key and in no other, and no group is empty. */
  lemma GroupsPartition<T(!new), K(!new)>(s: seq<T>, key: T -> K, order: seq<K>, groups: map<K, seq<T>>)
    requires Grouped(s, key, order, groups)
    ensures forall x :: x in s ==> key(x) in groups && x in groups[key(x)]
    ensures forall x, k :: x in s && k in groups && x in groups[k] ==> k == key(x)
    ensures forall k :: k in groups ==> groups[k] != []
  {
    forall k | k in groups
      ensures forall x :: x in groups[k] <==> x in s && key(x) == k
    {
      FilterMembers(s, KeyIs(key, k));
    }
    forall k | k in groups
      ensures groups[k] != []
    {
      var x :| x in s && key(x) == k;
      assert x in groups[k];
    }
  }

  /** Position of the last `x` among the first `n` elements of `s`. */
  function LastIndexOf<T(==)>(s: seq<T>, x: T, n: nat): (r: Option<nat>)
    requires n <= |s|
    ensures r.Some? ==> r.value < n && s[r.value] == x
    ensures forall k :: 0 <= k < n && s[k] == x ==> r.Some? && k <= r.value
    decreases n
  {
    if n == 0 then None
    else if s[n - 1] == x then Some(n - 1)
    else LastIndexOf(s, x, n - 1)
  }

  /** An occurrence with none after it, before n, is the last one before n. */
  lemma LastIndexOfIs<T>(s: seq<T>, x: T, n: nat, i: nat)
    requires i < n <= |s| && s[i] == x
    requires forall k :: i < k < n ==> s[k] != x
    ensures LastIndexOf(s, x, n) == Some(i)
  {
    var r := LastIndexOf(s, x, n);
    assert r.Some? && i <= r.value;
  }

  /** `for x in xs: y = f(x); if y is not None: acc.append(y)`, stopping at the first
      exception. */
  function MapSome<T, U>(xs: seq<T>, f: T -> Result<Option<U>>, acc: seq<U>): Result<seq<U>>
    decreases |xs|
  {
    if xs == [] then Ok(acc)
    else
      var y :- f(xs[0]);
      MapSome(xs[1..], f, if y.Some? then acc + [y.value] else acc)
  }

  /** The elements on which `f` gives a value. */
  function GivesSome<T, U>(f: T -> Result<Option<U>>): T -> bool {
    x => f(x).Ok? && f(x).value.Some?
  }

  /** The run succeeds exactly when `f` succeeds on every element, and then it appends,
      in order, the values of the elements on which `f` gives one. */
  lemma MapSomeValues<T, U>(xs: seq<T>, f: T -> Result<Option<U>>, acc: seq<U>)
    ensures MapSome(xs, f, acc).Ok? <==> forall k :: 0 <= k < |xs| ==> f(xs[k]).Ok?
    ensures MapSome(xs, f, acc).Ok? ==>
      var r := MapSome(xs, f, acc).value;
      var m := Filter(xs, GivesSome(f));
      && |r| == |acc| + |m| && r[..|acc|] == acc
      && forall j :: 0 <= j < |m| ==> f(m[j]) == Ok(Some(r[|acc| + j]))
  {
    MapSomeSucceeds(xs, f, acc);
    if MapSome(xs, f, acc).Ok? {
      MapSomeItems(xs, f, acc);
    }
  }

  lemma {:induction false} MapSomeSucceeds<T, U>(xs: seq<T>, f: T -> Result<Option<U>>, acc: seq<U>)
    ensures MapSome(xs, f, acc).Ok? <==> forall k :: 0 <= k < |xs| ==> f(xs[k]).Ok?
    decreases |xs|
  {
    if xs != [] {
      var tail := xs[1..];
      assert forall k :: 1 <= k < |xs| ==> xs[k] == tail[k - 1];
      var y := f(xs[0]);
      if y.Ok? {
        MapSomeSucceeds(tail, f, if y.value.Some? then acc + [y.value.value] else acc);
      }
    }
  }

  lemma {:induction false} MapSomeItems<T, U>(xs: seq<T>, f: T -> Result<Option<U>>, acc: seq<U>)
    requires MapSome(xs, f, acc).Ok?
    ensures var r := MapSome(xs, f, acc).value;
      var m := Filter(xs, GivesSome(f));
      && |r| == |acc| + |m| && r[..|acc|] == acc
      && forall j :: 0 <= j < |m| ==> f(m[j]) == Ok(Some(r[|acc| + j]))
    decreases |xs|
  {
    if xs != [] {
      var tail := xs[1..];
      var y := f(xs[0]);
      var acc' := if y.value.Some? then acc + [y.value.value] else acc;
      assert MapSome(xs, f, acc) == MapSome(tail, f, acc');
      MapSomeItems(tail, f, acc');
      var r := MapSome(tail, f, acc').value;
      var p := GivesSome(f);
      var mt := Filter(tail, p);
      if y.value.Some? {
        var m := [xs[0]] + mt;
        assert Filter(xs, p) == m;
        assert r[..|acc|] == r[..|acc'|][..|acc|];
        assert r[|acc|] == r[..|acc'|][|acc|];
        assert forall j :: 1 <= j < |m| ==> m[j] == mt[j - 1];
      } else {
        assert Filter(xs, p) == mt;
      }
    }
  }

  /** Position of the first element of `s` that passes `p`. */
  function FirstWhere<T>(s: seq<T>, p: T -> bool): (r: Option<nat>)
    ensures r.Some? ==> r.value < |s| && p(s[r.value]) && forall j :: 0 <= j < r.value ==> !p(s[j])
    ensures r.None? ==> forall j :: 0 <= j < |s| ==> !p(s[j])
  {
    if s == [] then None
    else if p(s[0]) then Some(0)
    else
      match FirstWhere(s[1..], p)
      case None => None
      case Some(k) => Some(k + 1)
  }
}
