/** Order-preserving filters over sequences: the model of a query with a `filter`/`filter_by` clause. */
module Sequences {

  /** The elements of `s` that `keep` accepts, in the order of `s`. */
  function Filter<T(!new)>(s: seq<T>, keep: T -> bool): (r: seq<T>)
    ensures |r| <= |s|
    ensures forall x :: x in r <==> x in s && keep(x)
  {
    if s == [] then []
    else (if keep(s[0]) then [s[0]] else []) + Filter(s[1..], keep)
  }

  /** The filter keeps every accepted element as many times as `s` holds it, and no other. */
  lemma {:induction false} FilterMultiset<T(!new)>(s: seq<T>, keep: T -> bool)
    ensures forall x :: multiset(Filter(s, keep))[x] == if keep(x) then multiset(s)[x] else 0
  {
    if s != [] {
      FilterMultiset(s[1..], keep);
      var head := if keep(s[0]) then [s[0]] else [];
      assert s == [s[0]] + s[1..];
      assert multiset(s) == multiset{s[0]} + multiset(s[1..]);
      assert multiset(head + Filter(s[1..], keep)) == multiset(head) + multiset(Filter(s[1..], keep));
    }
  }

  /** Filtering commutes with concatenation, so the filter keeps the relative order of what it keeps. */
  lemma {:induction false} FilterConcat<T(!new)>(a: seq<T>, b: seq<T>, keep: T -> bool)
    ensures Filter(a + b, keep) == Filter(a, keep) + Filter(b, keep)
  {
    if a == [] {
      assert a + b == b;
    } else {
      assert (a + b)[0] == a[0] && (a + b)[1..] == a[1..] + b;
      FilterConcat(a[1..], b, keep);
    }
  }

  /** A weaker filter keeps at least as many elements, and strictly more when it keeps
      some element of `s` that the stronger one drops. */
  lemma {:induction false} FilterStronger<T(!new)>(s: seq<T>, weak: T -> bool, strong: T -> bool)
    requires forall x :: x in s && strong(x) ==> weak(x)
    ensures |Filter(s, strong)| <= |Filter(s, weak)|
    ensures (exists x :: x in s && weak(x) && !strong(x)) ==> |Filter(s, strong)| < |Filter(s, weak)|
  {
    if s != [] {
      FilterStronger(s[1..], weak, strong);
      if exists x :: x in s && weak(x) && !strong(x) {
        var x :| x in s && weak(x) && !strong(x);
        if x != s[0] {
          assert x in s[1..];
        }
      }
    }
  }

  /** Filters that agree on every element of `s` select the same subsequence. */
  lemma {:induction false} FilterAgree<T(!new)>(s: seq<T>, f: T -> bool, g: T -> bool)
    requires forall x :: x in s ==> f(x) == g(x)
    ensures Filter(s, f) == Filter(s, g)
  {
    if s != [] {
      FilterAgree(s[1..], f, g);
    }
  }

  /** A filter that rejects every element of `s` selects nothing. */
  lemma {:induction false} FilterNone<T(!new)>(s: seq<T>, keep: T -> bool)
    requires forall x :: x in s ==> !keep(x)
    ensures Filter(s, keep) == []
  {
    if s != [] {
      FilterNone(s[1..], keep);
    }
  }
}
