/** Sequence operations that stand for JavaScript's Array.prototype.filter. */
module Seqs {

  /** The elements of `s` that satisfy `p`, in their original order. */
  function Filter<T(!new)>(s: seq<T>, p: T -> bool): (r: seq<T>)
    ensures |r| <= |s|
    ensures forall x :: x in r <==> x in s && p(x)
  {
    if s == [] then []
    else (if p(s[0]) then [s[0]] else []) + Filter(s[1..], p)
  }

  /** Filtering keeps every passing element as many times as it occurs, and nothing else. */
  lemma {:induction false} FilterMultiset<T(!new)>(s: seq<T>, p: T -> bool)
    ensures forall x :: multiset(Filter(s, p))[x] == if p(x) then multiset(s)[x] else 0
  {
    if s != [] {
      FilterMultiset(s[1..], p);
      assert s == [s[0]] + s[1..];
      assert multiset(s) == multiset{s[0]} + multiset(s[1..]);
    }
  }

  /** Filtering distributes over concatenation: the kept elements stay in input order. */
  lemma {:induction false} FilterAppend<T(!new)>(a: seq<T>, b: seq<T>, p: T -> bool)
    ensures Filter(a + b, p) == Filter(a, p) + Filter(b, p)
  {
    if a == [] {
      assert a + b == b;
    } else {
      var head := if p(a[0]) then [a[0]] else [];
      assert (a + b)[0] == a[0];
      assert (a + b)[1..] == a[1..] + b;
      calc {
        Filter(a + b, p);
        head + Filter(a[1..] + b, p);
        { FilterAppend(a[1..], b, p); }
        head + (Filter(a[1..], p) + Filter(b, p));
        (head + Filter(a[1..], p)) + Filter(b, p);
      }
    }
  }

  /** A filter that every element passes changes nothing. */
  lemma {:induction false} FilterKeepsAll<T(!new)>(s: seq<T>, p: T -> bool)
    requires forall x :: x in s ==> p(x)
    ensures Filter(s, p) == s
  {
    if s != [] {
      FilterKeepsAll(s[1..], p);
    }
  }

  /** Filtering by a weaker condition first does not change the result of a stronger one. */
  lemma {:induction false} FilterOfFilter<T(!new)>(s: seq<T>, weak: T -> bool, strong: T -> bool)
    requires forall x :: strong(x) ==> weak(x)
    ensures Filter(Filter(s, weak), strong) == Filter(s, strong)
  {
    if s != [] {
      var head := if strong(s[0]) then [s[0]] else [];
      if weak(s[0]) {
        var w := Filter(s, weak);
        assert w == [s[0]] + Filter(s[1..], weak);
        assert w[0] == s[0] && w[1..] == Filter(s[1..], weak);
        calc {
          Filter(w, strong);
          head + Filter(w[1..], strong);
          head + Filter(Filter(s[1..], weak), strong);
          { FilterOfFilter(s[1..], weak, strong); }
          head + Filter(s[1..], strong);
        }
      } else {
        assert Filter(s, weak) == [] + Filter(s[1..], weak) == Filter(s[1..], weak);
        calc {
          Filter(Filter(s, weak), strong);
          Filter(Filter(s[1..], weak), strong);
          { FilterOfFilter(s[1..], weak, strong); }
          Filter(s[1..], strong);
        }
      }
    }
  }

}
