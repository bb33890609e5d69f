/** Filtering and mapping of sequences, from the end, so that appending one element is one step. */
module Seqs {

  function Filter<T>(p: T -> bool, s: seq<T>): (r: seq<T>)
    ensures |r| <= |s|
  {
    if s == [] then []
    else
      var r := Filter(p, s[..|s| - 1]);
      if p(s[|s| - 1]) then r + [s[|s| - 1]] else r
  }

  function Map<T, U>(f: T -> U, s: seq<T>): (r: seq<U>)
    ensures |r| == |s| && forall i :: 0 <= i < |s| ==> r[i] == f(s[i])
  {
    seq(|s|, i requires 0 <= i < |s| => f(s[i]))
  }

  lemma {:induction false} FilterLast<T>(p: T -> bool, s: seq<T>)
    requires s != [] && p(s[|s| - 1])
    ensures Filter(p, s) != [] && Filter(p, s)[|Filter(p, s)| - 1] == s[|s| - 1]
  {
  }

  lemma {:induction false} ConcatAssoc<T>(a: seq<T>, b: seq<T>, c: seq<T>)
    ensures a + (b + c) == a + b + c
  {
  }

  lemma {:induction false} FilterSnoc<T>(p: T -> bool, s: seq<T>, x: T)
    ensures Filter(p, s + [x]) == if p(x) then Filter(p, s) + [x] else Filter(p, s)
  {
    assert (s + [x])[..|s|] == s;
  }

  lemma {:induction false} FilterAppend<T>(p: T -> bool, s: seq<T>, t: seq<T>)
    ensures Filter(p, s + t) == Filter(p, s) + Filter(p, t)
  {
    if t == [] {
      assert s + t == s;
    } else {
      hide Filter;
      var init, last := t[..|t| - 1], t[|t| - 1];
      FilterAppend(p, s, init);
      assert s + init + [last] == s + t;
      assert init + [last] == t;
      FilterSnoc(p, s + init, last);
      FilterSnoc(p, init, last);
      ConcatAssoc(Filter(p, s), Filter(p, init), [last]);
    }
  }

  lemma {:induction false} FilterMember<T(!new)>(p: T -> bool, s: seq<T>)
    ensures forall x :: x in Filter(p, s) <==> x in s && p(x)
  {
    if s != [] {
      var init, last := s[..|s| - 1], s[|s| - 1];
      FilterMember(p, init);
      assert s == init + [last];
    }
  }

  lemma {:induction false} FilterAll<T>(p: T -> bool, s: seq<T>)
    requires forall i :: 0 <= i < |s| ==> p(s[i])
    ensures Filter(p, s) == s
  {
    if s != [] {
      FilterAll(p, s[..|s| - 1]);
    }
  }

  lemma {:induction false} FilterNone<T>(p: T -> bool, s: seq<T>)
    requires forall i :: 0 <= i < |s| ==> !p(s[i])
    ensures Filter(p, s) == []
  {
    if s != [] {
      FilterNone(p, s[..|s| - 1]);
    }
  }

  /** Filtering by the weaker condition first changes nothing. */
  lemma {:induction false} FilterFilter<T>(p: T -> bool, q: T -> bool, s: seq<T>)
    requires forall i :: 0 <= i < |s| && q(s[i]) ==> p(s[i])
    ensures Filter(q, Filter(p, s)) == Filter(q, s)
  {
    if s != [] {
      var init, last := s[..|s| - 1], s[|s| - 1];
      FilterFilter(p, q, init);
      if p(last) {
        FilterSnoc(q, Filter(p, init), last);
      }
    }
  }

  lemma {:induction false} FilterMap<T, U>(p: U -> bool, q: T -> bool, f: T -> U, s: seq<T>)
    requires forall i :: 0 <= i < |s| ==> q(s[i]) == p(f(s[i]))
    ensures Filter(p, Map(f, s)) == Map(f, Filter(q, s))
  {
    if s != [] {
      var init, last := s[..|s| - 1], s[|s| - 1];
      FilterMap(p, q, f, init);
      assert Map(f, s) == Map(f, init) + [f(last)];
      FilterSnoc(p, Map(f, init), f(last));
      assert Map(f, Filter(q, init) + [last]) == Map(f, Filter(q, init)) + [f(last)];
    }
  }

  /** Where the `i`-th kept element comes from. */
  lemma {:induction false} FilterPosition<T>(p: T -> bool, s: seq<T>, i: nat) returns (j: nat)
    requires i < |Filter(p, s)|
    ensures j < |s| && s[j] == Filter(p, s)[i] && p(s[j])
    ensures Filter(p, s[..j + 1]) == Filter(p, s)[..i + 1]
  {
    var init := s[..|s| - 1];
    if i < |Filter(p, init)| {
      j := FilterPosition(p, init, i);
      assert init[..j + 1] == s[..j + 1];
      assert Filter(p, s)[..i + 1] == Filter(p, init)[..i + 1];
    } else {
      j := |s| - 1;
      assert s[..j + 1] == s;
      assert Filter(p, s)[..i + 1] == Filter(p, s);
    }
  }

  function Count<T(==)>(s: seq<T>, x: T): (n: nat)
    ensures n <= |s|
  {
    if s == [] then 0 else Count(s[..|s| - 1], x) + if s[|s| - 1] == x then 1 else 0
  }

  lemma {:induction false} CountSnoc<T>(s: seq<T>, y: T, x: T)
    ensures Count(s + [y], x) == Count(s, x) + if y == x then 1 else 0
  {
    assert (s + [y])[..|s|] == s;
  }

  lemma {:induction false} CountUpdate<T>(s: seq<T>, i: nat, y: T, x: T)
    requires i < |s|
    ensures Count(s[i := y], x) == Count(s, x) - (if s[i] == x then 1 else 0) + (if y == x then 1 else 0)
  {
    var n := |s| - 1;
    if i < n {
      assert s[i := y][..n] == s[..n][i := y];
      CountUpdate(s[..n], i, y, x);
    } else {
      assert s[i := y][..n] == s[..n];
    }
  }

  function TotalLength<T>(qs: seq<seq<T>>): nat {
    if qs == [] then 0 else TotalLength(qs[..|qs| - 1]) + |qs[|qs| - 1]|
  }

  lemma {:induction false} TotalLengthUpdate<T>(qs: seq<seq<T>>, w: nat, q: seq<T>)
    requires w < |qs|
    ensures TotalLength(qs[w := q]) == TotalLength(qs) - |qs[w]| + |q|
  {
    var n := |qs| - 1;
    if w < n {
      assert qs[w := q][..n] == qs[..n][w := q];
      TotalLengthUpdate(qs[..n], w, q);
    } else {
      assert qs[w := q][..n] == qs[..n];
    }
  }

  lemma {:induction false} TotalLengthZero<T>(qs: seq<seq<T>>)
    requires forall i :: 0 <= i < |qs| ==> qs[i] == []
    ensures TotalLength(qs) == 0
  {
    if qs != [] {
      TotalLengthZero(qs[..|qs| - 1]);
    }
  }
}
