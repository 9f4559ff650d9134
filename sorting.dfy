/** std::sort, as both of the program's sorts use it: by a key that is a line,
    compared with operator<. std::sort's own algorithm is not modelled; insertion
    sort stands for it, and what is proved of it (sorted, and a permutation) is
    exactly what std::sort promises. */
module Sorting {
  import opened Lines

  /** The key of each element, in order. */
  function Keys<T>(s: seq<T>, key: T -> Line): (ks: seq<Line>)
  {
    seq(|s|, i requires 0 <= i < |s| => key(s[i]))
  }

  lemma {:induction false} KeysAppend<T>(a: seq<T>, b: seq<T>, key: T -> Line)
    ensures Keys(a + b, key) == Keys(a, key) + Keys(b, key)
  {
    var l, r := Keys(a + b, key), Keys(a, key) + Keys(b, key);
    assert |l| == |r|;
    forall i | 0 <= i < |l| ensures l[i] == r[i] {
      if i < |a| {
        assert (a + b)[i] == a[i];
      } else {
        assert (a + b)[i] == b[i - |a|];
      }
    }
  }

  lemma KeysRemove<T>(t: seq<T>, k: nat, key: T -> Line)
    requires k < |t|
    ensures multiset(Keys(t, key)) == multiset(Keys(t[..k] + t[k + 1..], key)) + multiset{key(t[k])}
  {
    var pre, post, x := t[..k], t[k + 1..], t[k];
    assert t == pre + [x] + post;
    KeysAppend(pre + [x], post, key);
    KeysAppend(pre, [x], key);
    KeysAppend(pre, post, key);
    var kp, kq := Keys(pre, key), Keys(post, key);
    assert Keys([x], key) == [key(x)];
    assert Keys(t, key) == kp + [key(x)] + kq;
    assert multiset(Keys(t, key)) == multiset(kp) + multiset{key(x)} + multiset(kq);
    assert multiset(Keys(pre + post, key)) == multiset(kp) + multiset(kq);
  }

  lemma MultisetRemove<T>(t: seq<T>, k: nat)
    requires k < |t|
    ensures multiset(t[..k] + t[k + 1..]) == multiset(t) - multiset{t[k]}
  {
    assert t == t[..k] + [t[k]] + t[k + 1..];
    assert multiset(t) == multiset(t[..k] + t[k + 1..]) + multiset{t[k]};
  }

  /** Taking s's first element out of s, and a copy of it out of t, keeps the
      multisets equal. */
  lemma RemoveMatching<T>(s: seq<T>, t: seq<T>, k: nat)
    requires multiset(s) == multiset(t) && s != [] && k < |t| && t[k] == s[0]
    ensures multiset(s[1..]) == multiset(t[..k] + t[k + 1..])
  {
    MultisetRemove(t, k);
    MultisetTail(s);
  }

  /** Putting the matching element back on both sides keeps the key multisets
      equal. */
  lemma KeysRestoreMatching<T>(s: seq<T>, t: seq<T>, k: nat, key: T -> Line)
    requires s != [] && k < |t| && t[k] == s[0]
    requires multiset(Keys(s[1..], key)) == multiset(Keys(t[..k] + t[k + 1..], key))
    ensures multiset(Keys(s, key)) == multiset(Keys(t, key))
  {
    calc {
      multiset(Keys(s, key));
      { assert s == [s[0]] + s[1..];
        KeysAppend([s[0]], s[1..], key);
        assert Keys([s[0]], key) == [key(s[0])]; }
      multiset(Keys(s[1..], key)) + multiset{key(s[0])};
      multiset(Keys(t[..k] + t[k + 1..], key)) + multiset{key(t[k])};
      { KeysRemove(t, k, key); }
      multiset(Keys(t, key));
    }
  }

  /** Equal multisets of elements give equal multisets of keys. */
  lemma {:induction false} KeysPermutation<T>(s: seq<T>, t: seq<T>, key: T -> Line)
    requires multiset(s) == multiset(t)
    ensures multiset(Keys(s, key)) == multiset(Keys(t, key))
    decreases |s|
  {
    assert |s| == |multiset(s)| == |multiset(t)| == |t|;
    if s != [] {
      assert s[0] in multiset(t);
      var k :| 0 <= k < |t| && t[k] == s[0];
      RemoveMatching(s, t, k);
      KeysPermutation(s[1..], t[..k] + t[k + 1..], key);
      KeysRestoreMatching(s, t, k, key);
    }
  }

  /** The sort key of a line is the line itself (sorting the batch array). */
  function Id(l: Line): Line { l }

  /** No later element has a key less than an earlier one's. */
  ghost predicate SortedBy<T>(s: seq<T>, key: T -> Line) {
    forall i, j :: 0 <= i < j < |s| ==> !Less(key(s[j]), key(s[i]))
  }

  lemma SortedByKeys<T>(s: seq<T>, key: T -> Line)
    requires SortedBy(s, key)
    ensures Sorted(Keys(s, key))
  {
  }

  /** Puts x before the first element whose key is not less than x's. */
  function InsertBy<T>(x: T, s: seq<T>, key: T -> Line): (r: seq<T>)
    ensures multiset(r) == multiset(s) + multiset{x}
  {
    if s == [] then [x]
    else if Less(key(s[0]), key(x)) then
      assert s == [s[0]] + s[1..];
      [s[0]] + InsertBy(x, s[1..], key)
    else [x] + s
  }

  function SortBy<T>(s: seq<T>, key: T -> Line): (r: seq<T>)
    ensures multiset(r) == multiset(s) && |r| == |s|
  {
    if s == [] then []
    else
      assert s == [s[0]] + s[1..];
      InsertBy(s[0], SortBy(s[1..], key), key)
  }

  lemma {:induction false} InsertBySorted<T>(x: T, s: seq<T>, key: T -> Line)
    requires SortedBy(s, key)
    ensures SortedBy(InsertBy(x, s, key), key)
    decreases |s|
  {
    var r := InsertBy(x, s, key);
    if s == [] {
    } else if Less(key(s[0]), key(x)) {
      var t := InsertBy(x, s[1..], key);
      InsertBySorted(x, s[1..], key);
      forall j | 0 <= j < |t| ensures !Less(key(t[j]), key(s[0])) {
        assert t[j] in multiset(t);
        if t[j] == x {
          LessAsymmetric(key(s[0]), key(x));
        } else {
          assert t[j] in multiset(s[1..]);
          var k :| 0 <= k < |s[1..]| && s[1..][k] == t[j];
          assert s[k + 1] == t[j];
        }
      }
      assert r == [s[0]] + t;
    } else {
      forall j | 0 <= j < |s| ensures !Less(key(s[j]), key(x)) {
        if j > 0 {
          NotAfterTransitive(key(x), key(s[0]), key(s[j]));
        }
      }
      assert r == [x] + s;
    }
  }

  /** The result of SortBy is in key order. */
  lemma {:induction false} SortBySorted<T>(s: seq<T>, key: T -> Line)
    ensures SortedBy(SortBy(s, key), key)
    decreases |s|
  {
    if s != [] {
      SortBySorted(s[1..], key);
      InsertBySorted(s[0], SortBy(s[1..], key), key);
    }
  }

  /** No element of a sorted sequence is less than its first. */
  lemma SortedFirstLeast(s: seq<Line>, x: Line)
    requires Sorted(s) && x in multiset(s)
    ensures !Less(x, s[0])
  {
    var k :| 0 <= k < |s| && s[k] == x;
    if k == 0 {
      LessIrreflexive(x);
    }
  }

  lemma MultisetTail<T>(s: seq<T>)
    requires s != []
    ensures multiset(s[1..]) == multiset(s) - multiset{s[0]}
  {
    assert s == [s[0]] + s[1..];
  }

  /** Two sorted sequences of lines with the same elements start with the same
      line, and what follows is again sorted with the same elements. */
  lemma SortedHeads(a: seq<Line>, b: seq<Line>)
    requires Sorted(a) && Sorted(b) && multiset(a) == multiset(b) && a != []
    ensures b != [] && a[0] == b[0]
    ensures Sorted(a[1..]) && Sorted(b[1..]) && multiset(a[1..]) == multiset(b[1..])
  {
    assert |a| == |multiset(a)| == |multiset(b)| == |b|;
    SortedFirstLeast(b, a[0]);
    SortedFirstLeast(a, b[0]);
    LessTotal(a[0], b[0]);
    MultisetTail(a);
    MultisetTail(b);
  }

  /** Two sorted sequences of lines with the same elements are the same
      sequence, whatever algorithm sorted them. */
  lemma {:induction false} SortedUnique(a: seq<Line>, b: seq<Line>)
    requires Sorted(a) && Sorted(b) && multiset(a) == multiset(b)
    ensures a == b
    decreases |a|
  {
    if a == [] {
      assert |b| == |multiset(b)| == 0;
    } else {
      SortedHeads(a, b);
      SortedUnique(a[1..], b[1..]);
      assert a == [a[0]] + a[1..];
      assert b == [b[0]] + b[1..];
    }
  }
}
