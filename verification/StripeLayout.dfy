/**
 How a stripe lies in the slab: three lists of slots, the key index and the segment tags. These
 are facts about snapshots; `CacheStripe` uses them to relate its pointer moves to `StripePolicy`.
 */
module StripeLayout {
  import opened Types
  import opened Seqs
  import opened StripePolicy
  import opened LruList

  const EMPTY_PAYLOAD := Payload("", "", Free)

  function EntryAt(data: seq<Payload>, x: nat): Entry {
    if x < |data| then Entry(data[x].key, data[x].value) else Entry("", "")
  }

  /** The entries that a list of slots stands for. */
  function Entries(data: seq<Payload>, l: seq<nat>): (r: seq<Entry>)
    ensures |r| == |l|
    ensures forall i :: 0 <= i < |l| ==> r[i] == EntryAt(data, l[i])
  {
    seq(|l|, i requires 0 <= i < |l| => EntryAt(data, l[i]))
  }

  function Retag(data: seq<Payload>, x: nat, tag: Segment): (r: seq<Payload>)
    ensures |r| == |data|
  {
    if x < |data| then data[x := data[x].(segment := tag)] else data
  }

  /** The slots that carry a tag. */
  ghost function TaggedSlots(data: seq<Payload>, tag: Segment): set<nat> {
    set x: nat | x < |data| && data[x].segment == tag
  }

  /** Every key of the index leads to a node that carries the key. */
  ghost predicate KeysMatch(data: seq<Payload>, index: map<string, nat>) {
    forall k :: k in index ==> index[k] < |data| && data[index[k]].key == k
  }

  /**
   The index is a bijection between its keys and the listed nodes, each key being its node's own,
   and every node's tag names its list.
   */
  ghost predicate Indexed(data: seq<Payload>, index: map<string, nat>, w: seq<nat>, p: seq<nat>, q: seq<nat>) {
    && Elements(w) <= TaggedSlots(data, Window)
    && Elements(p) <= TaggedSlots(data, Probation)
    && Elements(q) <= TaggedSlots(data, Protected)
    && KeysMatch(data, index)
    && index.Values == Elements(w) + Elements(p) + Elements(q)
  }

  /** The lists share no slot with one another or with the free list. */
  ghost predicate Apart(w: seq<nat>, p: seq<nat>, q: seq<nat>, free: seq<nat>) {
    Elements(w) !! Elements(p) !! Elements(q) !! Elements(free)
  }

  /** A list whose nodes were not touched is still well linked. */
  lemma OtherList(pool: seq<CacheNode>, pool': seq<CacheNode>, touched: seq<nat>, head: nat, tail: nat, s: seq<nat>)
    requires Linked(pool, head, tail, s) && SameOutside(pool, pool', touched) && Elements(s) !! Elements(touched)
    ensures Linked(pool', head, tail, s)
  {
    forall x | x in s ensures x !in touched {
      assert x in Elements(s);
      assert x !in Elements(touched);
    }
    LinkedFrame(pool, pool', head, tail, s);
  }

  // ----- Entries under moves

  lemma EntriesMove(data: seq<Payload>, l: seq<nat>, i: nat)
    requires i < |l|
    ensures Entries(data, RemoveAt(l, i)) == RemoveAt(Entries(data, l), i)
    ensures Entries(data, ToFront(l, i)) == ToFront(Entries(data, l), i)
  {
  }

  lemma EntriesEnds(data: seq<Payload>, l: seq<nat>, x: nat)
    ensures Entries(data, [x] + l) == [EntryAt(data, x)] + Entries(data, l)
    ensures l != [] ==>
      Entries(data, Front(l)) == Front(Entries(data, l)) && EntryAt(data, Last(l)) == Last(Entries(data, l))
  {
  }

  lemma EntriesRetag(data: seq<Payload>, x: nat, tag: Segment, l: seq<nat>)
    ensures Entries(Retag(data, x, tag), l) == Entries(data, l)
    ensures forall y :: EntryAt(Retag(data, x, tag), y) == EntryAt(data, y)
  {
  }

  lemma EntriesElsewhere(data: seq<Payload>, x: nat, d: Payload, l: seq<nat>)
    requires x < |data| && x !in l
    ensures Entries(data[x := d], l) == Entries(data, l)
  {
    forall i | 0 <= i < |l| ensures EntryAt(data[x := d], l[i]) == EntryAt(data, l[i]) {
      assert l[i] in l;
    }
  }

  /** A listed node is the one its key leads to. */
  lemma IndexInverse(data: seq<Payload>, index: map<string, nat>, x: nat)
    requires KeysMatch(data, index) && x in index.Values
    ensures x < |data| && data[x].key in index && index[data[x].key] == x
  {
    var k :| k in index && index[k] == x;
  }

  /** The index finds the same position as a search of the list. */
  lemma IndexFinds(data: seq<Payload>, index: map<string, nat>, l: seq<nat>, i: nat)
    requires Distinct(l) && KeysMatch(data, index) && Elements(l) <= index.Values && i < |l|
    ensures l[i] < |data| && Find(Entries(data, l), data[l[i]].key) == i
    ensures HasKey(Entries(data, l), data[l[i]].key)
  {
    var e := Entries(data, l);
    assert l[i] in Elements(l);
    IndexInverse(data, index, l[i]);
    var key := data[l[i]].key;
    assert e[i].key == key;
    var j := Find(e, key);
    assert j <= i;
    assert l[j] in Elements(l);
    IndexInverse(data, index, l[j]);
  }

  lemma IndexMisses(data: seq<Payload>, index: map<string, nat>, l: seq<nat>, key: string)
    requires KeysMatch(data, index) && Elements(l) <= index.Values && (key !in index || index[key] !in l)
    ensures !HasKey(Entries(data, l), key)
  {
    forall i | 0 <= i < |l| ensures EntryAt(data, l[i]).key != key {
      assert l[i] in Elements(l);
      IndexInverse(data, index, l[i]);
    }
  }

  // ----- The index under moves

  /** Moving a node from one list to another and retagging it keeps the index right. */
  lemma IndexedMove(data: seq<Payload>, index: map<string, nat>, w: seq<nat>, p: seq<nat>, q: seq<nat>,
                    x: nat, tag: Segment, w': seq<nat>, p': seq<nat>, q': seq<nat>)
    requires Indexed(data, index, w, p, q) && x in index.Values
    requires Elements(w') == Elements(w) - {x} + (if tag == Window then {x} else {})
    requires Elements(p') == Elements(p) - {x} + (if tag == Probation then {x} else {})
    requires Elements(q') == Elements(q) - {x} + (if tag == Protected then {x} else {})
    requires tag != Free
    ensures Indexed(Retag(data, x, tag), index, w', p', q')
  {
    IndexInverse(data, index, x);
  }

  /** Forgetting a node: its slot is cleared and its key leaves the index. */
  lemma IndexedDrop(data: seq<Payload>, index: map<string, nat>, w: seq<nat>, p: seq<nat>, q: seq<nat>,
                    x: nat, w': seq<nat>, p': seq<nat>, q': seq<nat>)
    requires Indexed(data, index, w, p, q) && x in index.Values
    requires Elements(w') == Elements(w) - {x} && Elements(p') == Elements(p) - {x} && Elements(q') == Elements(q) - {x}
    ensures x < |data| && Indexed(data[x := EMPTY_PAYLOAD], index - {data[x].key}, w', p', q')
  {
    IndexInverse(data, index, x);
    var rest := index - {data[x].key};
    forall y | y in index.Values && y != x ensures y in rest.Values {
      IndexInverse(data, index, y);
      assert data[y].key in rest && rest[data[y].key] == y;
    }
    forall y | y in rest.Values ensures y in index.Values && y != x {
      var k :| k in rest && rest[k] == y;
      assert index[k] == y;
    }
  }

  lemma IndexedInsert(data: seq<Payload>, index: map<string, nat>, w: seq<nat>, p: seq<nat>, q: seq<nat>,
                      x: nat, key: string, value: string)
    requires Indexed(data, index, w, p, q) && x < |data| && x !in index.Values && key !in index
    ensures Indexed(data[x := Payload(key, value, Window)], index[key := x], [x] + w, p, q)
  {
    var more := index[key := x];
    ElementsPush(x, w);
    forall y | y in index.Values + {x} ensures y in more.Values {
      if y != x {
        var k :| k in index && index[k] == y;
        assert more[k] == y;
      } else {
        assert more[key] == x;
      }
    }
    forall y | y in more.Values ensures y in index.Values + {x} {
    }
  }

  lemma IndexedValue(data: seq<Payload>, index: map<string, nat>, w: seq<nat>, p: seq<nat>, q: seq<nat>, x: nat,
                     value: string)
    requires Indexed(data, index, w, p, q) && x < |data|
    ensures Indexed(data[x := data[x].(value := value)], index, w, p, q)
  {
  }

  // ----- Promotion

  /** Promotion into a Protected list with room. */
  lemma PromoteLayout(data: seq<Payload>, index: map<string, nat>, w: seq<nat>, p: seq<nat>, q: seq<nat>, i: nat)
    requires Indexed(data, index, w, p, q) && Distinct(p) && Apart(w, p, q, []) && i < |p|
    ensures Indexed(Retag(data, p[i], Protected), index, w, RemoveAt(p, i), [p[i]] + q)
  {
    ElementsRemoveAt(p, i);
    ElementsPush(p[i], q);
    IndexedMove(data, index, w, p, q, p[i], Protected, w, RemoveAt(p, i), [p[i]] + q);
  }

  lemma PromoteEntries(data: seq<Payload>, w: seq<nat>, p: seq<nat>, q: seq<nat>, i: nat)
    requires i < |p|
    ensures var d := Retag(data, p[i], Protected);
      && Entries(d, w) == Entries(data, w)
      && Entries(d, RemoveAt(p, i)) == RemoveAt(Entries(data, p), i)
      && Entries(d, [p[i]] + q) == [Entries(data, p)[i]] + Entries(data, q)
  {
    EntriesRetag(data, p[i], Protected, w);
    EntriesRetag(data, p[i], Protected, RemoveAt(p, i));
    EntriesRetag(data, p[i], Protected, [p[i]] + q);
    EntriesMove(data, p, i);
    EntriesEnds(data, q, p[i]);
  }

  /** Promotion into a full Protected list: its last node goes back to the front of Probation. */
  lemma PromoteFullLayout(data: seq<Payload>, index: map<string, nat>, w: seq<nat>, p: seq<nat>, q: seq<nat>, i: nat)
    requires Indexed(data, index, w, p, q) && Distinct(p) && Distinct(q) && Apart(w, p, q, [])
    requires i < |p| && q != []
    ensures Indexed(Retag(Retag(data, Last(q), Probation), p[i], Protected), index, w, [Last(q)] + RemoveAt(p, i),
      [p[i]] + Front(q))
  {
    var d := Last(q);
    ElementsFront(q);
    ElementsPush(d, p);
    IndexedMove(data, index, w, p, q, d, Probation, w, [d] + p, Front(q));
    ElementsRemoveAt(p, i);
    ElementsPush(d, RemoveAt(p, i));
    ElementsPush(p[i], Front(q));
    IndexedMove(Retag(data, d, Probation), index, w, [d] + p, Front(q), p[i], Protected, w, [d] + RemoveAt(p, i),
      [p[i]] + Front(q));
  }

  lemma ElementsFront(l: seq<nat>)
    requires Distinct(l) && l != []
    ensures Elements(Front(l)) == Elements(l) - {Last(l)} && Last(l) in Elements(l) && Distinct(Front(l))
  {
    ElementsRemoveAt(l, |l| - 1);
    RemoveAtElements(l, |l| - 1);
    assert RemoveAt(l, |l| - 1) == Front(l);
  }

  lemma PromoteFullEntries(data: seq<Payload>, w: seq<nat>, p: seq<nat>, q: seq<nat>, i: nat)
    requires i < |p| && q != []
    ensures var d := Retag(Retag(data, Last(q), Probation), p[i], Protected);
      && Entries(d, w) == Entries(data, w)
      && Entries(d, [Last(q)] + RemoveAt(p, i)) == [Last(Entries(data, q))] + RemoveAt(Entries(data, p), i)
      && Entries(d, [p[i]] + Front(q)) == [Entries(data, p)[i]] + Front(Entries(data, q))
  {
    var mid := Retag(data, Last(q), Probation);
    var p' := [Last(q)] + RemoveAt(p, i);
    var q' := [p[i]] + Front(q);
    EntriesRetag(data, Last(q), Probation, w);
    EntriesRetag(mid, p[i], Protected, w);
    EntriesRetag(data, Last(q), Probation, p');
    EntriesRetag(mid, p[i], Protected, p');
    EntriesRetag(data, Last(q), Probation, q');
    EntriesRetag(mid, p[i], Protected, q');
    EntriesMove(data, p, i);
    EntriesEnds(data, RemoveAt(p, i), Last(q));
    EntriesEnds(data, q, Last(q));
    EntriesEnds(data, Front(q), p[i]);
  }

  // ----- Looking a key up

  /** `s` shows the lists `w`, `p` and `q` of the slab. */
  ghost predicate Shows(s: Stripe, data: seq<Payload>, w: seq<nat>, p: seq<nat>, q: seq<nat>) {
    s.window == Entries(data, w) && s.probation == Entries(data, p) && s.protected == Entries(data, q)
  }

  /** The tag of the indexed node says on which list, and where, a search would find the key. */
  lemma TagNamesList(s: Stripe, data: seq<Payload>, index: map<string, nat>, w: seq<nat>, p: seq<nat>, q: seq<nat>,
                     key: string)
    requires Indexed(data, index, w, p, q) && Shows(s, data, w, p, q) && key in index
    ensures var x := index[key];
      && x < |data| && data[x].key == key
      && (data[x].segment == Window ==> x in w)
      && (data[x].segment == Probation ==> x in p && !HasKey(s.window, key))
      && (data[x].segment == Protected ==> x in q && !HasKey(s.window, key) && !HasKey(s.probation, key))
      && data[x].segment != Free
  {
    var x := index[key];
    assert x in Elements(w) + Elements(p) + Elements(q);
    assert x in w ==> x in Elements(w);
    assert x in p ==> x in Elements(p);
    assert x in q ==> x in Elements(q);
    if x !in w {
      IndexMisses(data, index, w, key);
    }
    if x !in p {
      IndexMisses(data, index, p, key);
    }
  }

  lemma IndexLookup(s: Stripe, data: seq<Payload>, index: map<string, nat>, w: seq<nat>, p: seq<nat>, q: seq<nat>,
                    key: string)
    requires Indexed(data, index, w, p, q) && Shows(s, data, w, p, q) && Distinct(w) && Distinct(p) && Distinct(q)
    ensures Has(s, key) <==> key in index
    ensures key in index ==> index[key] < |data| && Lookup(s, key) == Some(data[index[key]].value)
  {
    if key in index {
      TagNamesList(s, data, index, w, p, q, key);
      var x := index[key];
      var l := if data[x].segment == Window then w else if data[x].segment == Probation then p else q;
      var i :| 0 <= i < |l| && l[i] == x;
      IndexFinds(data, index, l, i);
    } else {
      IndexMisses(data, index, w, key);
      IndexMisses(data, index, p, key);
      IndexMisses(data, index, q, key);
    }
  }

  // ----- Hits

  function Values(data: seq<Payload>): seq<string> {
    seq(|data|, i requires 0 <= i < |data| => data[i].value)
  }

  lemma RetagValues(data: seq<Payload>, x: nat, tag: Segment)
    ensures Values(Retag(data, x, tag)) == Values(data)
  {
  }

  lemma WindowHit(s: Stripe, data: seq<Payload>, index: map<string, nat>, w: seq<nat>, p: seq<nat>, q: seq<nat>, i: nat)
    requires Indexed(data, index, w, p, q) && Shows(s, data, w, p, q) && Distinct(w) && i < |w|
    ensures w[i] < |data| && Touch(s, data[w[i]].key) == s.(window := Entries(data, ToFront(w, i)))
    ensures Indexed(data, index, ToFront(w, i), p, q)
  {
    IndexFinds(data, index, w, i);
    ElementsRemoveAt(w, i);
    EntriesMove(data, w, i);
  }

  lemma ProtectedHit(s: Stripe, data: seq<Payload>, index: map<string, nat>, w: seq<nat>, p: seq<nat>, q: seq<nat>,
                     i: nat)
    requires Indexed(data, index, w, p, q) && Shows(s, data, w, p, q) && Distinct(q) && i < |q| && q[i] < |data|
    requires !HasKey(s.window, data[q[i]].key) && !HasKey(s.probation, data[q[i]].key)
    ensures Touch(s, data[q[i]].key) == s.(protected := Entries(data, ToFront(q, i)))
    ensures Indexed(data, index, w, p, ToFront(q, i))
  {
    IndexFinds(data, index, q, i);
    ElementsRemoveAt(q, i);
    EntriesMove(data, q, i);
  }

  lemma ProbationHit(s: Stripe, data: seq<Payload>, index: map<string, nat>, w: seq<nat>, p: seq<nat>, q: seq<nat>,
                     i: nat)
    requires Indexed(data, index, w, p, q) && Shows(s, data, w, p, q) && Distinct(p) && i < |p| && p[i] < |data|
    requires !HasKey(s.window, data[p[i]].key)
    ensures Touch(s, data[p[i]].key) == Promote(s, i)
  {
    IndexFinds(data, index, p, i);
  }

  // ----- Admission

  /** The last window node enters Probation. */
  lemma AdmitLayout(data: seq<Payload>, index: map<string, nat>, w: seq<nat>, p: seq<nat>, q: seq<nat>)
    requires Indexed(data, index, w, p, q) && Apart(w, p, q, []) && Distinct(w) && w != []
    ensures var d := Retag(data, Last(w), Probation);
      && Indexed(d, index, Front(w), [Last(w)] + p, q)
      && Entries(d, Front(w)) == Front(Entries(data, w))
      && Entries(d, [Last(w)] + p) == [Last(Entries(data, w))] + Entries(data, p)
      && Entries(d, q) == Entries(data, q)
  {
    var c := Last(w);
    ElementsFront(w);
    ElementsPush(c, p);
    IndexedMove(data, index, w, p, q, c, Probation, Front(w), [c] + p, q);
    EntriesRetag(data, c, Probation, Front(w));
    EntriesRetag(data, c, Probation, [c] + p);
    EntriesRetag(data, c, Probation, q);
    EntriesEnds(data, w, c);
    EntriesEnds(data, p, c);
  }

  /** The last window node is dropped. */
  lemma RejectLayout(data: seq<Payload>, index: map<string, nat>, w: seq<nat>, p: seq<nat>, q: seq<nat>)
    requires Indexed(data, index, w, p, q) && Apart(w, p, q, []) && Distinct(w) && w != []
    ensures Last(w) < |data|
    ensures var d := data[Last(w) := EMPTY_PAYLOAD];
      && Indexed(d, index - {data[Last(w)].key}, Front(w), p, q)
      && Entries(d, Front(w)) == Front(Entries(data, w))
      && Entries(d, p) == Entries(data, p) && Entries(d, q) == Entries(data, q)
  {
    var c := Last(w);
    ElementsFront(w);
    IndexedDrop(data, index, w, p, q, c, Front(w), p, q);
    InElements(c, Front(w));
    InElements(c, p);
    InElements(c, q);
    EntriesElsewhere(data, c, EMPTY_PAYLOAD, Front(w));
    EntriesElsewhere(data, c, EMPTY_PAYLOAD, p);
    EntriesElsewhere(data, c, EMPTY_PAYLOAD, q);
    EntriesEnds(data, w, c);
  }

  /** The last probation node is dropped. */
  lemma EvictLayout(data: seq<Payload>, index: map<string, nat>, w: seq<nat>, p: seq<nat>, q: seq<nat>)
    requires Indexed(data, index, w, p, q) && Apart(w, p, q, []) && Distinct(p) && p != []
    ensures Last(p) < |data|
    ensures var d := data[Last(p) := EMPTY_PAYLOAD];
      && Indexed(d, index - {data[Last(p)].key}, w, Front(p), q) && Apart(w, Front(p), q, [])
      && Entries(d, Front(p)) == Front(Entries(data, p))
      && Entries(d, w) == Entries(data, w) && Entries(d, q) == Entries(data, q)
  {
    var v := Last(p);
    ElementsFront(p);
    IndexedDrop(data, index, w, p, q, v, w, Front(p), q);
    InElements(v, Front(p));
    InElements(v, w);
    InElements(v, q);
    EntriesElsewhere(data, v, EMPTY_PAYLOAD, Front(p));
    EntriesElsewhere(data, v, EMPTY_PAYLOAD, w);
    EntriesElsewhere(data, v, EMPTY_PAYLOAD, q);
    EntriesEnds(data, p, v);
  }

  /** The last probation node is dropped while the last window node waits to take its place. */
  lemma EvictWaiting(data: seq<Payload>, index: map<string, nat>, w: seq<nat>, p: seq<nat>, q: seq<nat>)
    requires Indexed(data, index, w, p, q) && Apart(w, p, q, []) && Distinct(p) && p != [] && Distinct(w) && w != []
    ensures Last(p) < |data| && Last(w) != Last(p)
    ensures EntryAt(data, Last(p)) == Last(Entries(data, p))
    ensures var d := data[Last(p) := EMPTY_PAYLOAD];
      && Indexed(d, index - {data[Last(p)].key}, w, Front(p), q) && Apart(w, Front(p), q, [])
      && Entries(d, Front(p)) == Front(Entries(data, p))
      && Entries(d, w) == Entries(data, w) && Entries(d, q) == Entries(data, q)
  {
    EvictLayout(data, index, w, p, q);
    ElementsFront(w);
    ElementsFront(p);
  }

  // ----- Puts

  lemma EntriesUpdate(data: seq<Payload>, l: seq<nat>, i: nat, value: string)
    requires Distinct(l) && i < |l| && l[i] < |data|
    ensures var d := data[l[i] := data[l[i]].(value := value)];
      Entries(d, l) == Entries(data, l)[i := Entry(data[l[i]].key, value)]
  {
  }

  /** Overwriting the value of the indexed node is `SetValue`. */
  lemma ValueLayout(s: Stripe, data: seq<Payload>, index: map<string, nat>, w: seq<nat>, p: seq<nat>, q: seq<nat>,
                    key: string, value: string)
    requires Indexed(data, index, w, p, q) && Shows(s, data, w, p, q) && Distinct(w) && Distinct(p) && Distinct(q)
    requires Apart(w, p, q, []) && key in index
    ensures index[key] < |data|
    ensures var x := index[key]; var d := data[x := data[x].(value := value)];
      && Indexed(d, index, w, p, q)
      && SetValue(s, key, value) == s.(window := Entries(d, w), probation := Entries(d, p), protected := Entries(d, q))
  {
    TagNamesList(s, data, index, w, p, q, key);
    var x := index[key];
    IndexedValue(data, index, w, p, q, x, value);
    var n := data[x].(value := value);
    InElements(x, w);
    InElements(x, p);
    InElements(x, q);
    if x !in w { EntriesElsewhere(data, x, n, w); }
    if x !in p { EntriesElsewhere(data, x, n, p); }
    if x !in q { EntriesElsewhere(data, x, n, q); }
    var l := if data[x].segment == Window then w else if data[x].segment == Probation then p else q;
    var i :| 0 <= i < |l| && l[i] == x;
    IndexFinds(data, index, l, i);
    EntriesUpdate(data, l, i, value);
  }

  /** A fresh node at the front of the window. */
  lemma InsertLayout(data: seq<Payload>, index: map<string, nat>, w: seq<nat>, p: seq<nat>, q: seq<nat>, x: nat,
                     key: string, value: string)
    requires Indexed(data, index, w, p, q) && x < |data| && x !in Elements(w) + Elements(p) + Elements(q)
      && key !in index
    ensures var d := data[x := Payload(key, value, Window)];
      && Indexed(d, index[key := x], [x] + w, p, q)
      && Entries(d, [x] + w) == [Entry(key, value)] + Entries(data, w)
      && Entries(d, p) == Entries(data, p) && Entries(d, q) == Entries(data, q)
  {
    var d := data[x := Payload(key, value, Window)];
    IndexedInsert(data, index, w, p, q, x, key, value);
    InElements(x, w);
    InElements(x, p);
    InElements(x, q);
    EntriesElsewhere(data, x, Payload(key, value, Window), w);
    EntriesElsewhere(data, x, Payload(key, value, Window), p);
    EntriesElsewhere(data, x, Payload(key, value, Window), q);
    EntriesEnds(d, w, x);
  }

  /** Clearing a slot that no list holds changes nothing that can be seen. */
  lemma ClearLayout(data: seq<Payload>, index: map<string, nat>, w: seq<nat>, p: seq<nat>, q: seq<nat>, x: nat)
    requires Indexed(data, index, w, p, q) && x < |data| && x !in Elements(w) + Elements(p) + Elements(q)
    ensures var d := data[x := EMPTY_PAYLOAD];
      && Indexed(d, index, w, p, q)
      && Entries(d, w) == Entries(data, w) && Entries(d, p) == Entries(data, p) && Entries(d, q) == Entries(data, q)
  {
    var d := data[x := EMPTY_PAYLOAD];
    InElements(x, w);
    InElements(x, p);
    InElements(x, q);
    EntriesElsewhere(data, x, EMPTY_PAYLOAD, w);
    EntriesElsewhere(data, x, EMPTY_PAYLOAD, p);
    EntriesElsewhere(data, x, EMPTY_PAYLOAD, q);
    forall k | k in index ensures index[k] < |d| && d[index[k]].key == k {
      assert index[k] in index.Values;
    }
  }

  // ----- Removal

  lemma RemoveLayout(data: seq<Payload>, index: map<string, nat>, w: seq<nat>, p: seq<nat>, q: seq<nat>,
                     x: nat, w': seq<nat>, p': seq<nat>, q': seq<nat>)
    requires Indexed(data, index, w, p, q) && x in index.Values
    requires Elements(w') == Elements(w) - {x} && Elements(p') == Elements(p) - {x} && Elements(q') == Elements(q) - {x}
    ensures x < |data|
    ensures var d := data[x := EMPTY_PAYLOAD];
      && Indexed(d, index - {data[x].key}, w', p', q')
      && Entries(d, w') == Entries(data, w') && Entries(d, p') == Entries(data, p')
         && Entries(d, q') == Entries(data, q')
  {
    IndexedDrop(data, index, w, p, q, x, w', p', q');
    InElements(x, w');
    InElements(x, p');
    InElements(x, q');
    EntriesElsewhere(data, x, EMPTY_PAYLOAD, w');
    EntriesElsewhere(data, x, EMPTY_PAYLOAD, p');
    EntriesElsewhere(data, x, EMPTY_PAYLOAD, q');
  }

  // ----- What a change elsewhere in the slab leaves alone

  lemma LinkedElsewhere(pool: seq<CacheNode>, pool': seq<CacheNode>, mine: set<nat>, head: nat, tail: nat, s: seq<nat>)
    requires Linked(pool, head, tail, s) && |pool'| == |pool| && Elements(s) !! mine
    requires forall x: nat :: x < |pool| && x !in mine ==> pool'[x] == pool[x]
    ensures Linked(pool', head, tail, s)
  {
    forall x | x in s && x < |pool| ensures pool'[x] == pool[x] {
      InElements(x, s);
    }
    LinkedFrame(pool, pool', head, tail, s);
  }

  /** The index, the tags and the entries of a stripe only depend on its own slots. */
  lemma LayoutElsewhere(d: seq<Payload>, d': seq<Payload>, mine: set<nat>, index: map<string, nat>, w: seq<nat>,
                        p: seq<nat>, q: seq<nat>)
    requires Indexed(d, index, w, p, q) && |d'| == |d|
    requires Elements(w) + Elements(p) + Elements(q) !! mine
    requires forall x: nat :: x < |d| && x !in mine ==> d'[x] == d[x]
    ensures Indexed(d', index, w, p, q)
    ensures Entries(d', w) == Entries(d, w) && Entries(d', p) == Entries(d, p) && Entries(d', q) == Entries(d, q)
  {
    SameEntries(d, d', mine, w);
    SameEntries(d, d', mine, p);
    SameEntries(d, d', mine, q);
    forall k | k in index ensures index[k] < |d'| && d'[index[k]].key == k {
      assert index[k] in index.Values;
    }
  }

  lemma SameEntries(d: seq<Payload>, d': seq<Payload>, mine: set<nat>, l: seq<nat>)
    requires |d'| == |d| && Elements(l) !! mine
    requires forall x: nat :: x < |d| && x !in mine ==> d'[x] == d[x]
    ensures Entries(d', l) == Entries(d, l)
  {
    forall i | 0 <= i < |l| ensures EntryAt(d', l[i]) == EntryAt(d, l[i]) {
      assert l[i] in Elements(l);
    }
  }
}
