/** Sequences without duplicates, as intrusive lists are. */
module Seqs {

  ghost predicate NoDup<T>(s: seq<T>)
  {
    forall j, k :: 0 <= j < k < |s| ==> s[j] != s[k]
  }

  /** The sequence with (the first occurrence of) `a` taken out */
  function Without<T(==)>(s: seq<T>, a: T): seq<T>
  {
    if s == [] then [] else if s[0] == a then s[1..] else [s[0]] + Without(s[1..], a)
  }

  lemma {:induction false} WithoutMembers<T>(s: seq<T>, a: T)
    requires NoDup(s)
    ensures forall x :: x in Without(s, a) <==> x in s && x != a
    ensures NoDup(Without(s, a))
  {
    if s != [] {
      assert s == [s[0]] + s[1..];
      assert NoDup(s[1..]);
      WithoutMembers(s[1..], a);
      assert s[0] !in s[1..];
    }
  }

  lemma {:induction false} WithoutSubset<T>(s: seq<T>, a: T, x: T)
    ensures x in Without(s, a) ==> x in s
  {
    if s != [] {
      WithoutSubset(s[1..], a, x);
    }
  }

  lemma WithoutMember<T>(s: seq<T>, a: T, x: T)
    requires NoDup(s)
    ensures x in Without(s, a) <==> x in s && x != a
  {
    WithoutMembers(s, a);
  }

  lemma {:induction false} WithoutIndex<T>(s: seq<T>, k: nat)
    requires NoDup(s) && k < |s|
    ensures Without(s, s[k]) == s[..k] + s[k + 1..]
  {
    if k > 0 {
      WithoutIndex(s[1..], k - 1);
      assert s[..k] + s[k + 1..] == [s[0]] + (s[1..][..k - 1] + s[1..][k..]);
    }
  }

  lemma FrontApart(q: seq<int>)
    requires NoDup(q) && q != []
    ensures NoDup(q[1..]) && q[0] in q && forall x :: x in q[1..] <==> x in q && x != q[0]
  {
    assert q == [q[0]] + q[1..];
  }

  /** What stands at `k` stands nowhere else. */
  lemma Distinct<T>(s: seq<T>, k: nat)
    requires NoDup(s) && k < |s|
    ensures forall j {:trigger s[j]} :: 0 <= j < |s| && j != k ==> s[j] != s[k]
  {
  }

  lemma NoDupInsert<T>(s: seq<T>, k: nat, x: T)
    requires NoDup(s) && k <= |s| && x !in s
    ensures NoDup(s[..k] + [x] + s[k..])
  {
    var r := s[..k] + [x] + s[k..];
    assert forall i :: 0 <= i < |r| && i != k ==> r[i] == s[if i < k then i else i - 1] && r[i] in s;
  }
}
