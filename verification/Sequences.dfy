/** Sequence facts that several components need. */
module Sequences {

  /** The elements of `s` without position `i`. */
  function Without<T>(s: seq<T>, i: nat): (r: seq<T>)
    requires i < |s|
  {
    s[..i] + s[i + 1..]
  }

  lemma WithoutRemovesOne<T>(s: seq<T>, i: nat)
    requires i < |s|
    ensures multiset(s) == multiset{s[i]} + multiset(Without(s, i))
  {
    assert s == s[..i] + ([s[i]] + s[i + 1..]);
  }

  lemma CountedOnceIsDistinct<T>(s: seq<T>)
    requires forall x :: x in s ==> multiset(s)[x] == 1
    ensures forall i, j :: 0 <= i < j < |s| ==> s[i] != s[j]
  {
    forall i, j | 0 <= i < j < |s|
      ensures s[i] != s[j]
    {
      assert s == s[..j] + ([s[j]] + s[j + 1..]);
      assert multiset(s) == multiset(s[..j]) + (multiset{s[j]} + multiset(s[j + 1..]));
      var x := s[j];
      assert x in s && multiset(s)[x] >= multiset(s[..j])[x] + 1;
      assert x !in s[..j];
      assert s[..j][i] == s[i];
    }
  }

  lemma {:induction false} DistinctIsCountedOnce<T>(s: seq<T>, x: T)
    requires forall i, j :: 0 <= i < j < |s| ==> s[i] != s[j]
    ensures multiset(s)[x] == if x in s then 1 else 0
  {
    if s != [] {
      var last := |s| - 1;
      DistinctIsCountedOnce(s[..last], x);
      assert s == s[..last] + [s[last]];
      assert x in s <==> x in s[..last] || x == s[last];
      assert forall i :: 0 <= i < last ==> s[..last][i] != s[last];
    }
  }

  /** Some of the elements of s, in their order. */
  ghost predicate IsSubsequence<T>(sub: seq<T>, s: seq<T>) {
    if sub == [] then true
    else if s == [] then false
    else if sub[|sub| - 1] == s[|s| - 1] && IsSubsequence(sub[..|sub| - 1], s[..|s| - 1]) then true
    else IsSubsequence(sub, s[..|s| - 1])
  }

  lemma {:induction false} SubsequenceRefl<T>(s: seq<T>)
    ensures IsSubsequence(s, s)
  {
    if s != [] {
      SubsequenceRefl(s[..|s| - 1]);
    }
  }

  lemma {:induction false} SubsequenceOfWithout<T>(sub: seq<T>, s: seq<T>, i: nat)
    requires i < |s| && IsSubsequence(sub, Without(s, i))
    ensures IsSubsequence(sub, s)
    decreases |s|
  {
    var w := Without(s, i);
    var s' := s[..|s| - 1];
    if sub == [] {
    } else if i == |s| - 1 {
      assert w == s';
    } else {
      assert w[..|w| - 1] == Without(s', i);
      assert w[|w| - 1] == s[|s| - 1];
      if sub[|sub| - 1] == w[|w| - 1] && IsSubsequence(sub[..|sub| - 1], w[..|w| - 1]) {
        SubsequenceOfWithout(sub[..|sub| - 1], s', i);
      } else {
        SubsequenceOfWithout(sub, s', i);
      }
    }
  }

  lemma {:induction false} SubsequenceTransitive<T>(x: seq<T>, y: seq<T>, z: seq<T>)
    requires IsSubsequence(x, y) && IsSubsequence(y, z)
    ensures IsSubsequence(x, z)
    decreases |z|
  {
    if x != [] && z != [] {
      var (x', y', z') := (x[..|x| - 1], y[..|y| - 1], z[..|z| - 1]);
      if y[|y| - 1] == z[|z| - 1] && IsSubsequence(y', z') {
        if x[|x| - 1] == y[|y| - 1] && IsSubsequence(x', y') {
          SubsequenceTransitive(x', y', z');
        } else {
          SubsequenceTransitive(x, y', z');
        }
      } else {
        SubsequenceTransitive(x, y, z');
      }
    }
  }

  lemma SubsequenceLonger<T>(x: seq<T>, y: seq<T>, e: T)
    requires IsSubsequence(x, y)
    ensures IsSubsequence(x, y + [e]) && IsSubsequence(x + [e], y + [e])
  {
    assert (y + [e])[..|y|] == y && (x + [e])[..|x|] == x;
  }

  lemma EmptyFirst<T>(s: seq<T>, t: seq<T>)
    requires s == []
    ensures s + t == t
  {
  }

  ghost function Count<T>(m: multiset<T>, x: T): nat {
    m[x]
  }

  lemma CountAfter<T>(m: multiset<T>, y: T, x: T)
    ensures Count(m + multiset{y}, x) == Count(m, x) + (if x == y then 1 else 0)
    ensures y in m ==> Count(m - multiset{y}, x) + (if x == y then 1 else 0) == Count(m, x)
  {
  }
}
