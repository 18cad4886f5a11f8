/** Sequence vocabulary shared by the models. */
module Sequences {

  ghost predicate Distinct<T>(s: seq<T>) {
    forall i, j :: 0 <= i < j < |s| ==> s[i] != s[j]
  }

  lemma AppendDistinct<T(!new)>(a: seq<T>, b: seq<T>)
    requires Distinct(a) && Distinct(b) && forall k :: k in b ==> k !in a
    ensures Distinct(a + b) && forall k :: k in a + b <==> k in a || k in b
  {
    forall i, j | 0 <= i < j < |a + b| ensures (a + b)[i] != (a + b)[j] {
      if i < |a| <= j { assert b[j - |a|] in b && a[i] in a; }
    }
  }

  lemma Regroup<T>(a: seq<T>, b: seq<T>, c: seq<T>)
    ensures a + (b + c) == a + b + c
  {
  }

  lemma Suffix<T>(s: seq<T>, m: nat, n: nat)
    requires m + n <= |s|
    ensures s[m..][n..] == s[m + n..]
  {
  }

  lemma SliceOfFront<T>(a: seq<T>, b: seq<T>, from: nat, end: nat)
    requires from <= end <= |a|
    ensures (a + b)[from..end] == a[from..end]
  {
  }

  function Concat<T>(parts: seq<seq<T>>): seq<T> {
    if parts == [] then [] else parts[0] + Concat(parts[1..])
  }

  lemma {:induction false} InConcat<T>(parts: seq<seq<T>>, x: T)
    ensures x in Concat(parts) <==> exists b :: 0 <= b < |parts| && x in parts[b]
  {
    if parts != [] {
      InConcat(parts[1..], x);
      assert forall b :: 1 <= b < |parts| ==> parts[1..][b - 1] == parts[b];
    }
  }

  ghost predicate NoRepeats<T>(parts: seq<seq<T>>) {
    forall b, c, i, j ::
      (0 <= b < |parts| && 0 <= c < |parts| && 0 <= i < |parts[b]| && 0 <= j < |parts[c]|
       && parts[b][i] == parts[c][j]) ==> b == c && i == j
  }

  lemma {:induction false} ConcatDistinct<T>(parts: seq<seq<T>>)
    requires NoRepeats(parts)
    ensures Distinct(Concat(parts))
  {
    if parts != [] {
      var rest := parts[1..];
      assert forall b :: 0 <= b < |rest| ==> rest[b] == parts[b + 1];
      ConcatDistinct(rest);
      forall i, j | 0 <= i < j < |Concat(parts)| ensures Concat(parts)[i] != Concat(parts)[j] {
        if i < |parts[0]| <= j {
          InConcat(rest, Concat(parts)[j]);
        }
      }
    }
  }
}
