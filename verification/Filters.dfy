/** Filtering a sequence, as `retain`, `filter` and `for ... where` do in the program. */
module Filters {

  /** The elements of `s` that satisfy `p`, in order. */
  function Keep<T(!new)>(p: T -> bool, s: seq<T>): (r: seq<T>)
    ensures |r| <= |s|
    ensures forall x :: x in r <==> x in s && p(x)
  {
    if s == [] then []
    else Keep(p, s[..|s| - 1]) + (if p(s[|s| - 1]) then [s[|s| - 1]] else [])
  }

  lemma {:induction false} KeepConcat<T(!new)>(p: T -> bool, s: seq<T>, t: seq<T>)
    ensures Keep(p, s + t) == Keep(p, s) + Keep(p, t)
  {
    if t == [] {
      assert s + t == s;
    } else {
      var u := t[..|t| - 1];
      assert (s + t)[..|s + t| - 1] == s + u;
      KeepConcat(p, s, u);
    }
  }

  lemma {:induction false} KeepEverything<T(!new)>(p: T -> bool, s: seq<T>)
    requires forall x :: x in s ==> p(x)
    ensures Keep(p, s) == s
  {
    if s != [] {
      var init, last := s[..|s| - 1], s[|s| - 1];
      assert s == init + [last] && last in s;
      assert forall x :: x in init ==> x in s;
      KeepEverything(p, init);
    }
  }

  lemma {:induction false} KeepLess<T(!new)>(p: T -> bool, s: seq<T>, x: T)
    requires x in s && !p(x)
    ensures |Keep(p, s)| < |s|
  {
    if p(s[|s| - 1]) {
      KeepLess(p, s[..|s| - 1], x);
    }
  }

  /** Filtering drops nothing exactly if every element satisfies the predicate. */
  lemma KeepAll<T(!new)>(p: T -> bool, s: seq<T>)
    ensures Keep(p, s) == s <==> forall x :: x in s ==> p(x)
    ensures |Keep(p, s)| == |s| <==> forall x :: x in s ==> p(x)
  {
    if x :| x in s && !p(x) {
      KeepLess(p, s, x);
    } else {
      KeepEverything(p, s);
    }
  }

  lemma DropThenAppend<T>(s: seq<T>, pos: nat)
    requires pos < |s| - 1
    ensures var init := s[..|s| - 1];
            s[..pos] + s[pos + 1..] == (init[..pos] + init[pos + 1..]) + [s[|s| - 1]]
  {}

  /** Filtering out a single element leaves what is before and after it. */
  lemma {:induction false} KeepAllButOne<T(!new)>(p: T -> bool, s: seq<T>, pos: nat)
    requires pos < |s| && !p(s[pos]) && forall j :: 0 <= j < |s| && j != pos ==> p(s[j])
    ensures Keep(p, s) == s[..pos] + s[pos + 1..]
  {
    var init, last := s[..|s| - 1], s[|s| - 1];
    if pos == |init| {
      assert forall x :: x in init ==> p(x);
      assert Keep(p, init) == init by { KeepAll(p, init); }
      assert s[..pos] + s[pos + 1..] == init;
    } else {
      KeepAllButOne(p, init, pos);
      DropThenAppend(s, pos);
    }
  }

  /** Filtering keeps any relation that holds between every earlier and later element. */
  lemma {:induction false} KeepPairwise<T(!new)>(p: T -> bool, s: seq<T>, r: (T, T) -> bool)
    requires forall i, j :: 0 <= i < j < |s| ==> r(s[i], s[j])
    ensures forall i, j :: 0 <= i < j < |Keep(p, s)| ==> r(Keep(p, s)[i], Keep(p, s)[j])
  {
    if s != [] {
      var u := s[..|s| - 1];
      KeepPairwise(p, u, r);
      forall i, j | 0 <= i < j < |Keep(p, s)| ensures r(Keep(p, s)[i], Keep(p, s)[j]) {
        if j == |Keep(p, u)| {
          assert Keep(p, u)[i] in Keep(p, u);
          var k :| 0 <= k < |u| && u[k] == Keep(p, u)[i];
          assert s[k] == u[k];
        }
      }
    }
  }
}
