/** Facts about sequences that several modules share. */
module Seqs {

  ghost predicate Distinct<T>(s: seq<T>) {
    forall i, j :: 0 <= i < j < |s| ==> s[i] != s[j]
  }

  function RemoveAt<T>(s: seq<T>, i: nat): seq<T>
    requires i < |s|
  {
    s[..i] + s[i + 1..]
  }

  /** Move the element at `i` to the front. */
  function ToFront<T>(s: seq<T>, i: nat): seq<T>
    requires i < |s|
  {
    [s[i]] + RemoveAt(s, i)
  }

  function Elements<T>(s: seq<T>): set<T> {
    set x | x in s
  }

  function Below(n: nat): (r: set<nat>)
    ensures |r| == n && forall x: nat :: x in r <==> x < n
  {
    if n == 0 then {} else Below(n - 1) + {n - 1}
  }

  lemma SubsetSize<T>(a: set<T>, b: set<T>)
    requires a <= b
    ensures |a| <= |b|
  {
    assert b == a + (b - a);
  }

  lemma {:induction false} DistinctSize<T>(s: seq<T>)
    requires Distinct(s)
    ensures |Elements(s)| == |s|
  {
    if s != [] {
      var n := |s| - 1;
      DistinctSize(s[..n]);
      assert s == s[..n] + [s[n]];
      assert Elements(s) == Elements(s[..n]) + {s[n]};
    }
  }

  lemma DistinctBounded(s: seq<nat>, n: nat)
    requires Distinct(s) && forall i :: 0 <= i < |s| ==> s[i] < n
    ensures |s| <= n
  {
    DistinctSize(s);
    SubsetSize(Elements(s), Below(n));
  }

  /** Removing one occurrence from a duplicate-free sequence removes exactly that element. */
  lemma RemoveAtElements<T>(s: seq<T>, i: nat)
    requires Distinct(s) && i < |s|
    ensures Distinct(RemoveAt(s, i))
    ensures forall x :: x in RemoveAt(s, i) <==> x in s && x != s[i]
  {
    var r := RemoveAt(s, i);
    forall j | 0 <= j < |r| ensures r[j] == s[if j < i then j else j + 1] {
    }
    forall x | x in s && x != s[i] ensures x in r {
      var j :| 0 <= j < |s| && s[j] == x;
      assert r[if j < i then j else j - 1] == x;
    }
  }

  lemma ToFrontElements<T>(s: seq<T>, i: nat)
    requires Distinct(s) && i < |s|
    ensures Distinct(ToFront(s, i))
    ensures forall x :: x in ToFront(s, i) <==> x in s
  {
    RemoveAtElements(s, i);
  }

  lemma ElementsPush<T>(x: T, s: seq<T>)
    ensures Elements([x] + s) == {x} + Elements(s)
  {
  }

  lemma ElementsRemoveAt<T>(s: seq<T>, i: nat)
    requires Distinct(s) && i < |s|
    ensures Elements(RemoveAt(s, i)) == Elements(s) - {s[i]}
    ensures Elements(ToFront(s, i)) == Elements(s)
    ensures s[i] in Elements(s)
  {
    RemoveAtElements(s, i);
    ToFrontElements(s, i);
  }

  lemma NothingBefore<T>(s: seq<T>)
    ensures [] + s == s
  {
  }

  lemma InElements<T>(x: T, s: seq<T>)
    ensures x in Elements(s) <==> x in s
  {
  }
}
