/**
 A doubly linked list of entries with a hash map from keys to list iterators, as the baseline cache
 and the L2 stripes both keep. A node is a number; the index leads from a key to its node.
 */
module EntryList {
  import opened Types
  import opened Seqs
  import opened StripePolicy

  class EntryList {
    /** The nodes in list order. */
    var list: seq<nat>
    var nodes: map<nat, Entry>
    var index: map<string, nat>
    var nextNode: nat

    ghost predicate Valid()
      reads this
    {
      && IndexOk(nodes, index, list)
      && forall x :: x in nodes ==> x < nextNode
    }

    /** The entries in list order. */
    ghost function View(): (v: seq<Entry>)
      requires Valid()
      reads this
      ensures |v| == |list|
    {
      EntriesOf(nodes, list)
    }

    constructor ()
      ensures Valid() && View() == []
    {
      list, nodes, index, nextNode := [], map[], map[], 0;
    }

    /** The position of an indexed key. */
    lemma Place(key: string) returns (i: nat)
      requires Valid() && key in index
      ensures i < |list| && list[i] == index[key] && Find(View(), key) == i
      ensures index[key] in nodes && nodes[index[key]].key == key && View()[i] == nodes[index[key]]
    {
      assert index[key] in Elements(list);
      i :| 0 <= i < |list| && list[i] == index[key];
      IndexPlace(nodes, index, list, i);
    }

    lemma IndexMeansHas(key: string)
      requires Valid()
      ensures key in index <==> HasKey(View(), key)
    {
      if key in index {
        var _ := Place(key);
      } else {
        IndexAbsent(nodes, index, list, key);
      }
    }

    /** Where the iterator points. */
    method PositionOf(x: nat) returns (j: nat)
      requires Valid() && x in list
      ensures j < |list| && list[j] == x
    {
      j := 0;
      while list[j] != x
        invariant j < |list| && x in list[j..]
        decreases |list| - j
      {
        j := j + 1;
      }
    }

    /** Moves a node to the front. */
    method Splice(x: nat, ghost i: nat)
      requires Valid() && i < |list| && list[i] == x
      modifies this`list
      ensures Valid() && list == ToFront(old(list), i) && View() == ToFront(old(View()), i)
    {
      ElementsRemoveAt(list, i);
      ToFrontElements(list, i);
      EntriesToFront(nodes, list, i);
      var j := PositionOf(x);
      list := ToFront(list, j);
    }

    method Overwrite(x: nat, ghost i: nat, value: string)
      requires Valid() && i < |list| && list[i] == x && x in nodes
      modifies this`nodes
      ensures Valid() && View() == old(View())[i := Entry(old(nodes)[x].key, value)]
      ensures nodes.Keys == old(nodes).Keys && forall y :: y in nodes ==> nodes[y].key == old(nodes)[y].key
    {
      nodes := nodes[x := Entry(nodes[x].key, value)];
    }

    /** Erases a node and its index entry. */
    method Erase(x: nat, ghost i: nat)
      requires Valid() && i < |list| && list[i] == x
      modifies this`list, this`nodes, this`index
      ensures Valid() && list == RemoveAt(old(list), i) && View() == RemoveAt(old(View()), i)
      ensures index.Keys <= old(index).Keys
    {
      hide IndexOk;
      IndexErase(nodes, index, list, i);
      EntriesErase(nodes, list, i);
      var j := ErasePosition(x, i);
      index := index - {nodes[x].key};
      list := RemoveAt(list, j);
      nodes := nodes - {x};
    }

    method ErasePosition(x: nat, ghost i: nat) returns (j: nat)
      requires Valid() && i < |list| && list[i] == x
      ensures j == i && x in nodes
    {
      j := PositionOf(x);
      InElements(x, list);
    }

    lemma FreshUnused()
      requires Valid()
      ensures nextNode !in nodes && Elements(list) <= nodes.Keys
      ensures Elements([nextNode] + list) == nodes.Keys + {nextNode}
    {
      ElementsPush(nextNode, list);
    }

    method PushNew(key: string, value: string)
      requires Valid() && key !in index
      modifies this
      ensures Valid() && list == [old(nextNode)] + old(list) && View() == [Entry(key, value)] + old(View())
    {
      hide IndexOk;
      FreshUnused();
      IndexPush(nodes, index, list, nextNode, key, value);
      EntriesPush(nodes, list, nextNode, Entry(key, value));
      list := [nextNode] + list;
      nodes := nodes[nextNode := Entry(key, value)];
      index := index[key := nextNode];
      nextNode := nextNode + 1;
    }

    // ----- What a cache does with it

    /** A hit: the node comes to the front and its value is read. */
    method Hit(key: string) returns (value: string)
      requires Valid() && key in index
      modifies this`list
      ensures Valid() && HasKey(old(View()), key) && View() == ToFront(old(View()), Find(old(View()), key))
      ensures value == old(View())[Find(old(View()), key)].value
    {
      hide IndexOk, StripePolicy.Find;
      IndexMeansHas(key);
      var x := index[key];
      ghost var i := Place(key);
      value := nodes[x].value;
      Splice(x, i);
    }

    /** An update in place: the new value, and the node comes to the front. */
    method Refresh(key: string, value: string)
      requires Valid() && key in index
      modifies this`list, this`nodes
      ensures Valid() && HasKey(old(View()), key)
      ensures View() == [Entry(key, value)] + RemoveAt(old(View()), Find(old(View()), key))
    {
      hide IndexOk, StripePolicy.Find;
      IndexMeansHas(key);
      var x := index[key];
      ghost var i := Place(key);
      Overwrite(x, i, value);
      Splice(x, i);
    }

    /** Takes the last entry out. */
    method DropLast()
      requires Valid() && list != []
      modifies this`list, this`nodes, this`index
      ensures Valid() && View() == Front(old(View())) && index.Keys <= old(index).Keys
    {
      ghost var n := |list| - 1;
      Erase(list[|list| - 1], n);
      assert RemoveAt(old(View()), n) == Front(old(View()));
    }

    /** Takes the entry of a key out, wherever it is. */
    method TakeOut(key: string) returns (value: string)
      requires Valid() && key in index
      modifies this`list, this`nodes, this`index
      ensures Valid() && HasKey(old(View()), key) && View() == RemoveAt(old(View()), Find(old(View()), key))
      ensures value == old(View())[Find(old(View()), key)].value
    {
      hide IndexOk, StripePolicy.Find;
      IndexMeansHas(key);
      var x := index[key];
      ghost var i := Place(key);
      value := nodes[x].value;
      Erase(x, i);
    }
  }

  // ----- Nodes and index, as values

  ghost function EntriesOf(nodes: map<nat, Entry>, l: seq<nat>): (r: seq<Entry>)
    requires Elements(l) <= nodes.Keys
    ensures |r| == |l| && forall i :: 0 <= i < |l| ==> l[i] in nodes && r[i] == nodes[l[i]]
  {
    forall i | 0 <= i < |l| ensures l[i] in nodes { assert l[i] in Elements(l); }
    seq(|l|, i requires 0 <= i < |l| && l[i] in nodes => nodes[l[i]])
  }

  ghost predicate IndexOk(nodes: map<nat, Entry>, index: map<string, nat>, l: seq<nat>) {
    && Distinct(l) && nodes.Keys == Elements(l) && index.Values == Elements(l)
    && forall k :: k in index ==> index[k] in nodes && nodes[index[k]].key == k
  }

  lemma NodeIndexed(nodes: map<nat, Entry>, index: map<string, nat>, l: seq<nat>, x: nat)
    requires IndexOk(nodes, index, l) && x in nodes
    ensures nodes[x].key in index && index[nodes[x].key] == x
  {
    assert x in index.Values;
    var k :| k in index && index[k] == x;
  }

  lemma IndexPlace(nodes: map<nat, Entry>, index: map<string, nat>, l: seq<nat>, i: nat)
    requires IndexOk(nodes, index, l) && i < |l|
    ensures l[i] in nodes && Find(EntriesOf(nodes, l), nodes[l[i]].key) == i
  {
    var e := EntriesOf(nodes, l);
    var key := nodes[l[i]].key;
    assert e[i].key == key;
    var j := Find(e, key);
    assert j <= i;
    NodeIndexed(nodes, index, l, l[i]);
    NodeIndexed(nodes, index, l, l[j]);
  }

  lemma IndexAbsent(nodes: map<nat, Entry>, index: map<string, nat>, l: seq<nat>, key: string)
    requires IndexOk(nodes, index, l) && key !in index
    ensures !HasKey(EntriesOf(nodes, l), key)
  {
    var e := EntriesOf(nodes, l);
    forall i | 0 <= i < |l| ensures e[i].key != key {
      NodeIndexed(nodes, index, l, l[i]);
    }
  }

  lemma EntriesToFront(nodes: map<nat, Entry>, l: seq<nat>, i: nat)
    requires Elements(l) <= nodes.Keys && i < |l| && Elements(ToFront(l, i)) <= nodes.Keys
    ensures EntriesOf(nodes, ToFront(l, i)) == ToFront(EntriesOf(nodes, l), i)
  {
  }

  lemma EntriesErase(nodes: map<nat, Entry>, l: seq<nat>, i: nat)
    requires Elements(l) <= nodes.Keys && Distinct(l) && i < |l|
    ensures Elements(RemoveAt(l, i)) <= (nodes - {l[i]}).Keys
    ensures EntriesOf(nodes - {l[i]}, RemoveAt(l, i)) == RemoveAt(EntriesOf(nodes, l), i)
  {
    ElementsRemoveAt(l, i);
  }

  lemma IndexErase(nodes: map<nat, Entry>, index: map<string, nat>, l: seq<nat>, i: nat)
    requires IndexOk(nodes, index, l) && i < |l|
    ensures l[i] in nodes && Distinct(l) && Elements(l) <= nodes.Keys
    ensures IndexOk(nodes - {l[i]}, index - {nodes[l[i]].key}, RemoveAt(l, i))
  {
    var x := l[i];
    ElementsRemoveAt(l, i);
    RemoveAtElements(l, i);
    var rest := index - {nodes[x].key};
    NodeIndexed(nodes, index, l, x);
    forall y | y in index.Values && y != x ensures y in rest.Values {
      NodeIndexed(nodes, index, l, y);
      assert rest[nodes[y].key] == y;
    }
    forall y | y in rest.Values ensures y in index.Values && y != x {
      var k :| k in rest && rest[k] == y;
      assert index[k] == y;
    }
  }

  lemma IndexPush(nodes: map<nat, Entry>, index: map<string, nat>, l: seq<nat>, x: nat, key: string, value: string)
    requires IndexOk(nodes, index, l) && x !in nodes && key !in index
    ensures IndexOk(nodes[x := Entry(key, value)], index[key := x], [x] + l)
  {
    var nodes', index', l' := nodes[x := Entry(key, value)], index[key := x], [x] + l;
    ElementsPush(x, l);
    ValuesPush(index, x, key);
    InElements(x, l);
    assert nodes'.Keys == Elements(l');
    assert index'.Values == Elements(l');
    assert Distinct(l');
    forall k | k in index' ensures index'[k] in nodes' && nodes'[index'[k]].key == k {
      if k != key {
        assert index[k] in nodes;
      }
    }
  }

  lemma EntriesPush(nodes: map<nat, Entry>, l: seq<nat>, x: nat, e: Entry)
    requires Elements(l) <= nodes.Keys && x !in nodes && Elements([x] + l) <= nodes[x := e].Keys
    ensures EntriesOf(nodes[x := e], [x] + l) == [e] + EntriesOf(nodes, l)
    ensures x !in l
  {
    forall i | 0 <= i < |l| ensures l[i] != x {
      assert l[i] in Elements(l);
    }
  }

  lemma ValuesPush(index: map<string, nat>, x: nat, key: string)
    requires key !in index
    ensures index[key := x].Values == {x} + index.Values
  {
    var more := index[key := x];
    forall y | y in index.Values ensures y in more.Values {
      var k :| k in index && index[k] == y;
      assert more[k] == y;
    }
    assert more[key] == x;
  }
}
