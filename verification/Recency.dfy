/** Where an entry stands in a list that is ordered by recency: which keys are ahead of it. */
module Recency {
  import opened Types
  import opened Seqs
  import opened StripePolicy

  ghost function Keys(l: seq<Entry>): set<string> {
    set e | e in l :: e.key
  }

  /** The entry is in the list and exactly these keys are ahead of it. */
  ghost predicate At(l: seq<Entry>, key: string, value: string, ahead: set<string>) {
    exists i :: 0 <= i < |l| && Placed(l, i, key, value, ahead)
  }

  ghost predicate Placed(l: seq<Entry>, i: nat, key: string, value: string, ahead: set<string>)
    requires i < |l|
  {
    l[i] == Entry(key, value) && Keys(l[..i]) == ahead
  }

  predicate Absent(l: seq<Entry>, key: string) {
    forall i :: 0 <= i < |l| ==> l[i].key != key
  }

  lemma {:induction false} KeysSize(l: seq<Entry>)
    requires UniqueKeys(l)
    ensures |Keys(l)| == |l|
  {
    if l != [] {
      var n := |l| - 1;
      KeysSize(l[..n]);
      assert l == l[..n] + [l[n]];
      assert Keys(l) == Keys(l[..n]) + {l[n].key};
    }
  }

  lemma PlacedSize(l: seq<Entry>, i: nat, key: string, value: string, ahead: set<string>)
    requires UniqueKeys(l) && i < |l| && Placed(l, i, key, value, ahead)
    ensures |ahead| == i
  {
    KeysSize(l[..i]);
  }

  /** Looking a key up tells whether it is there, and its value. */
  lemma AtIsFound(l: seq<Entry>, key: string, value: string, ahead: set<string>)
    requires UniqueKeys(l) && At(l, key, value, ahead)
    ensures HasKey(l, key) && l[Find(l, key)] == Entry(key, value) && key !in ahead && |ahead| < |l|
  {
    var i :| 0 <= i < |l| && Placed(l, i, key, value, ahead);
    PlacedSize(l, i, key, value, ahead);
    var n := Find(l, key);
    assert n <= i;
  }

  lemma AbsentIsNotFound(l: seq<Entry>, key: string)
    ensures Absent(l, key) <==> !HasKey(l, key)
  {
  }

  lemma FoundKey(l: seq<Entry>, key: string)
    requires HasKey(l, key)
    ensures Find(l, key) < |l| && l[Find(l, key)].key == key
  {
  }

  lemma KeysCons(e: Entry, l: seq<Entry>)
    ensures Keys([e] + l) == Keys(l) + {e.key}
  {
  }

  /** A new entry in front is ahead of everything. */
  lemma PushAt(l: seq<Entry>, e: Entry, key: string, value: string, ahead: set<string>)
    requires At(l, key, value, ahead)
    ensures At([e] + l, key, value, ahead + {e.key})
  {
    var i :| 0 <= i < |l| && Placed(l, i, key, value, ahead);
    KeysCons(e, l[..i]);
    assert ([e] + l)[..i + 1] == [e] + l[..i];
    assert Placed([e] + l, i + 1, key, value, ahead + {e.key});
  }

  lemma HeadAt(e: Entry, l: seq<Entry>)
    ensures At([e] + l, e.key, e.value, {})
  {
    assert Placed([e] + l, 0, e.key, e.value, {});
  }

  /** Taking another entry out. */
  lemma RemoveOtherAt(l: seq<Entry>, j: nat, key: string, value: string, ahead: set<string>)
    requires UniqueKeys(l) && j < |l| && l[j].key != key && At(l, key, value, ahead)
    ensures At(RemoveAt(l, j), key, value, ahead - {l[j].key})
  {
    var i :| 0 <= i < |l| && Placed(l, i, key, value, ahead);
    var r := RemoveAt(l, j);
    if j < i {
      RemoveKeys(l[..i], j);
      assert r[..i - 1] == RemoveAt(l[..i], j);
      assert Placed(r, i - 1, key, value, ahead - {l[j].key});
    } else {
      assert forall m :: 0 <= m < i ==> l[m].key != l[j].key;
      assert r[..i] == l[..i];
      assert Placed(r, i, key, value, ahead - {l[j].key});
    }
  }

  lemma RemoveKeys(l: seq<Entry>, j: nat)
    requires UniqueKeys(l) && j < |l|
    ensures Keys(RemoveAt(l, j)) == Keys(l) - {l[j].key}
  {
    var r := RemoveAt(l, j);
    forall m | 0 <= m < |l| && m != j ensures l[m] in r {
      assert r[if m < j then m else m - 1] == l[m];
    }
    forall e | e in r ensures e.key in Keys(l) - {l[j].key} {
      var m :| 0 <= m < |r| && r[m] == e;
      assert e == l[if m < j then m else m + 1];
    }
  }

  lemma RemoveKeepsAbsent(l: seq<Entry>, j: nat, key: string)
    requires j < |l| && Absent(l, key)
    ensures Absent(RemoveAt(l, j), key)
  {
  }

  /** Taking the key itself out leaves none. */
  lemma RemoveOwn(l: seq<Entry>, j: nat)
    requires UniqueKeys(l) && j < |l|
    ensures Absent(RemoveAt(l, j), l[j].key) && UniqueKeys(RemoveAt(l, j))
  {
    var r := RemoveAt(l, j);
    forall m | 0 <= m < |r| ensures r[m] == l[if m < j then m else m + 1] {
    }
  }

  /** Dropping the last entry loses a key exactly if all the others are ahead of it. */
  lemma DropLastAt(l: seq<Entry>, key: string, value: string, ahead: set<string>)
    requires UniqueKeys(l) && At(l, key, value, ahead)
    ensures |ahead| < |l|
    ensures |ahead| + 1 < |l| ==> At(Front(l), key, value, ahead)
    ensures |ahead| + 1 == |l| ==> Absent(Front(l), key)
  {
    var i :| 0 <= i < |l| && Placed(l, i, key, value, ahead);
    PlacedSize(l, i, key, value, ahead);
    if i + 1 < |l| {
      assert Front(l)[..i] == l[..i];
      assert Placed(Front(l), i, key, value, ahead);
    }
  }

  lemma UniqueCons(e: Entry, l: seq<Entry>)
    requires UniqueKeys(l) && Absent(l, e.key)
    ensures UniqueKeys([e] + l)
  {
  }

  /** A key that is not in the list is not ahead of anything. */
  lemma NotAhead(l: seq<Entry>, key: string, value: string, ahead: set<string>, other: string)
    requires At(l, key, value, ahead) && Absent(l, other)
    ensures other !in ahead && |ahead + {other}| == |ahead| + 1
  {
    var i :| 0 <= i < |l| && Placed(l, i, key, value, ahead);
    assert other !in Keys(l[..i]);
  }

  /** Between a key and another one ahead of it or behind it there is room. */
  lemma TwoKeys(l: seq<Entry>, j: nat, key: string, value: string, ahead: set<string>)
    requires UniqueKeys(l) && j < |l| && l[j].key != key && At(l, key, value, ahead)
    ensures |ahead + {l[j].key}| < |l|
  {
    var i :| 0 <= i < |l| && Placed(l, i, key, value, ahead);
    PlacedSize(l, i, key, value, ahead);
    if j < i {
      assert l[..i][j] == l[j];
      assert ahead + {l[j].key} == ahead;
    }
  }
}
