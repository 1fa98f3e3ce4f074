/**
 The plain LRU cache that the benchmarks compare against, and its inclusion property: whatever a
 smaller cache holds, a larger one fed the same operations holds too, in the same order.
 */
module LruBaseline {
  import opened Types
  import opened Seqs
  import opened StripePolicy
  import List = EntryList

  datatype Op = DoGet(key: string) | DoPut(key: string, value: string)

  /** A hit moves the entry to the front; a miss changes nothing. */
  function Use(l: seq<Entry>, key: string): seq<Entry> {
    if HasKey(l, key) then ToFront(l, Find(l, key)) else l
  }

  /** The eviction loop: drop last entries until there is room for one more. */
  function Evict(l: seq<Entry>, capacity: nat): (r: seq<Entry>)
    requires capacity > 0
    ensures |r| < capacity
    decreases |l|
  {
    if |l| >= capacity then Evict(Front(l), capacity) else l
  }

  function Insert(l: seq<Entry>, capacity: nat, key: string, value: string): seq<Entry>
    requires capacity > 0
  {
    if HasKey(l, key) then [Entry(key, value)] + RemoveAt(l, Find(l, key))
    else [Entry(key, value)] + Evict(l, capacity)
  }

  function Step(l: seq<Entry>, capacity: nat, op: Op): seq<Entry>
    requires capacity > 0
  {
    match op
    case DoGet(k) => Use(l, k)
    case DoPut(k, v) => Insert(l, capacity, k, v)
  }

  function Run(capacity: nat, ops: seq<Op>): seq<Entry>
    requires capacity > 0
  {
    if ops == [] then [] else Step(Run(capacity, ops[..|ops| - 1]), capacity, ops[|ops| - 1])
  }

  function ValueOf(l: seq<Entry>, key: string): Option<string> {
    if HasKey(l, key) then Some(l[Find(l, key)].value) else None
  }

  // ----- Order-preserving inclusion

  /** `a` results from `b` by leaving entries out. */
  ghost predicate Within(a: seq<Entry>, b: seq<Entry>)
    decreases |b|
  {
    a == [] || (b != [] && ((a[0] == b[0] && Within(a[1..], b[1..])) || Within(a, b[1..])))
  }

  function Without(l: seq<Entry>, key: string): seq<Entry> {
    if l == [] then [] else if l[0].key == key then Without(l[1..], key) else [l[0]] + Without(l[1..], key)
  }

  lemma {:induction false} WithinWithout(a: seq<Entry>, b: seq<Entry>, key: string)
    requires Within(a, b)
    ensures Within(Without(a, key), Without(b, key))
    decreases |b|
  {
    if a != [] {
      if a[0] == b[0] && Within(a[1..], b[1..]) {
        WithinWithout(a[1..], b[1..], key);
        WithinCons(a[0], Without(a[1..], key), Without(b[1..], key));
      } else {
        WithinWithout(a, b[1..], key);
        WithinSkip(b[0], Without(a, key), Without(b[1..], key));
      }
    }
  }

  lemma WithinCons(e: Entry, a: seq<Entry>, b: seq<Entry>)
    requires Within(a, b)
    ensures Within([e] + a, [e] + b)
  {
    assert ([e] + a)[1..] == a && ([e] + b)[1..] == b;
  }

  lemma WithinSkip(e: Entry, a: seq<Entry>, b: seq<Entry>)
    requires Within(a, b)
    ensures Within(a, [e] + b)
  {
    assert ([e] + b)[1..] == b;
  }

  lemma {:induction false} WithinFront(a: seq<Entry>, b: seq<Entry>)
    requires Within(a, b) && a != []
    ensures b != [] && Within(Front(a), Front(b))
    decreases |b|
  {
    if a[0] == b[0] && Within(a[1..], b[1..]) {
      if |a| > 1 {
        WithinFront(a[1..], b[1..]);
        WithinCons(a[0], Front(a[1..]), Front(b[1..]));
        assert Front(a) == [a[0]] + Front(a[1..]) && Front(b) == [b[0]] + Front(b[1..]);
      }
    } else {
      WithinFront(a, b[1..]);
      WithinSkip(b[0], Front(a), Front(b[1..]));
      assert Front(b) == [b[0]] + Front(b[1..]);
    }
  }

  lemma {:induction false} WithinOwnFront(a: seq<Entry>, b: seq<Entry>)
    requires Within(a, b) && a != []
    ensures Within(Front(a), b)
    decreases |b|
  {
    if a[0] == b[0] && Within(a[1..], b[1..]) {
      if |a| > 1 {
        WithinOwnFront(a[1..], b[1..]);
        WithinCons(a[0], Front(a[1..]), b[1..]);
        assert Front(a) == [a[0]] + Front(a[1..]) && b == [b[0]] + b[1..];
      }
    } else {
      WithinOwnFront(a, b[1..]);
      WithinSkip(b[0], Front(a), b[1..]);
      assert b == [b[0]] + b[1..];
    }
  }

  lemma {:induction false} WithinMembers(a: seq<Entry>, b: seq<Entry>)
    requires Within(a, b)
    ensures |a| <= |b| && forall e :: e in a ==> e in b
    decreases |b|
  {
    if a != [] {
      if a[0] == b[0] && Within(a[1..], b[1..]) {
        WithinMembers(a[1..], b[1..]);
        assert a == [a[0]] + a[1..];
      } else {
        WithinMembers(a, b[1..]);
      }
    }
  }

  lemma {:induction false} WithoutIsRemove(l: seq<Entry>, key: string)
    requires UniqueKeys(l)
    ensures Without(l, key) == if HasKey(l, key) then RemoveAt(l, Find(l, key)) else l
  {
    if l != [] {
      hide Seqs.RemoveAt;
      RemoveHead(l);
      if l[0].key == key {
        WithoutAbsent(l[1..], key);
      } else {
        WithoutIsRemove(l[1..], key);
        RemoveInTail(l, Find(l[1..], key));
      }
    }
  }

  lemma RemoveHead(l: seq<Entry>)
    requires l != []
    ensures RemoveAt(l, 0) == l[1..] && l == [l[0]] + l[1..]
  {
  }

  lemma RemoveInTail(l: seq<Entry>, i: nat)
    requires l != []
    ensures i < |l[1..]| ==> RemoveAt(l, 1 + i) == [l[0]] + RemoveAt(l[1..], i)
  {
  }

  lemma {:induction false} WithoutAbsent(l: seq<Entry>, key: string)
    requires forall i :: 0 <= i < |l| ==> l[i].key != key
    ensures Without(l, key) == l
  {
    if l != [] {
      WithoutAbsent(l[1..], key);
    }
  }

  lemma FindUnique(l: seq<Entry>, e: Entry)
    requires UniqueKeys(l) && e in l
    ensures HasKey(l, e.key) && l[Find(l, e.key)] == e
  {
    var i :| 0 <= i < |l| && l[i] == e;
    var n := Find(l, e.key);
    assert n <= i;
  }

  /** A key of the smaller list is a key of the larger, with the same entry. */
  lemma WithinFind(a: seq<Entry>, b: seq<Entry>, key: string)
    requires Within(a, b) && UniqueKeys(b) && HasKey(a, key)
    ensures HasKey(b, key) && b[Find(b, key)] == a[Find(a, key)]
  {
    WithinMembers(a, b);
    var e := a[Find(a, key)];
    assert e in a;
    FindUnique(b, e);
  }

  // ----- Each list on its own

  lemma UseKeeps(l: seq<Entry>, key: string)
    requires UniqueKeys(l)
    ensures UniqueKeys(Use(l, key)) && |Use(l, key)| == |l|
  {
    if HasKey(l, key) {
      FrontInsertUnique(l, l[Find(l, key)]);
    }
  }

  lemma FrontInsertUnique(l: seq<Entry>, e: Entry)
    requires UniqueKeys(l) && HasKey(l, e.key)
    ensures UniqueKeys([e] + RemoveAt(l, Find(l, e.key)))
  {
    var i := Find(l, e.key);
    var r := RemoveAt(l, i);
    forall j | 0 <= j < |r| ensures r[j] == l[if j < i then j else j + 1] && r[j].key != e.key {
    }
  }

  lemma {:induction false} EvictIs(l: seq<Entry>, capacity: nat)
    requires capacity > 0 && |l| <= capacity
    ensures Evict(l, capacity) == if |l| == capacity then Front(l) else l
  {
  }

  lemma InsertKeeps(l: seq<Entry>, capacity: nat, key: string, value: string)
    requires capacity > 0 && UniqueKeys(l) && |l| <= capacity
    ensures UniqueKeys(Insert(l, capacity, key, value))
    ensures |Insert(l, capacity, key, value)| == (if HasKey(l, key) || |l| == capacity then |l| else |l| + 1)
  {
    if HasKey(l, key) {
      FrontInsertUnique(l, Entry(key, value));
    } else {
      EvictIs(l, capacity);
    }
  }

  // ----- Inclusion

  /** The smaller cache is within the larger, and as full as it can be. */
  ghost predicate Included(a: seq<Entry>, c: nat, b: seq<Entry>, d: nat) {
    && 0 < c <= d
    && UniqueKeys(a) && UniqueKeys(b) && |a| <= c && |b| <= d
    && Within(a, b)
    && (|b| <= |a| || |a| == c)
  }

  lemma GetKeepsIncluded(a: seq<Entry>, c: nat, b: seq<Entry>, d: nat, key: string)
    requires Included(a, c, b, d)
    ensures Included(Use(a, key), c, Use(b, key), d)
  {
    hide StripePolicy.Find, Without, StripePolicy.UniqueKeys, Within;
    UseKeeps(a, key);
    UseKeeps(b, key);
    WithoutIsRemove(a, key);
    WithoutIsRemove(b, key);
    WithinWithout(a, b, key);
    if HasKey(a, key) {
      WithinFind(a, b, key);
      WithinCons(a[Find(a, key)], Without(a, key), Without(b, key));
    } else if HasKey(b, key) {
      WithinSkip(b[Find(b, key)], a, Without(b, key));
    }
  }

  lemma PutKeepsIncluded(a: seq<Entry>, c: nat, b: seq<Entry>, d: nat, key: string, value: string)
    requires Included(a, c, b, d)
    ensures Included(Insert(a, c, key, value), c, Insert(b, d, key, value), d)
  {
    hide StripePolicy.Find, Without, StripePolicy.UniqueKeys, Within, Evict;
    InsertKeeps(a, c, key, value);
    InsertKeeps(b, d, key, value);
    WithoutIsRemove(a, key);
    WithoutIsRemove(b, key);
    WithinWithout(a, b, key);
    EvictIs(a, c);
    EvictIs(b, d);
    WithinMembers(a, b);
    var e := Entry(key, value);
    if HasKey(a, key) {
      WithinFind(a, b, key);
      WithinCons(e, Without(a, key), Without(b, key));
    } else if HasKey(b, key) {
      if |a| == c {
        WithinOwnFront(a, Without(b, key));
        WithinCons(e, Front(a), Without(b, key));
      } else {
        WithinCons(e, a, Without(b, key));
      }
    } else if |b| == d {
      WithinFront(a, b);
      WithinCons(e, Front(a), Front(b));
    } else if |a| == c {
      WithinOwnFront(a, b);
      WithinCons(e, Front(a), b);
    } else {
      WithinCons(e, a, b);
    }
  }

  /** For the same operations, the contents of the smaller cache are always an ordered part of the larger one's. */
  lemma {:induction false} Inclusion(c: nat, d: nat, ops: seq<Op>)
    requires 0 < c <= d
    ensures Included(Run(c, ops), c, Run(d, ops), d)
  {
    if ops != [] {
      Inclusion(c, d, ops[..|ops| - 1]);
      match ops[|ops| - 1] {
        case DoGet(k) => GetKeepsIncluded(Run(c, ops[..|ops| - 1]), c, Run(d, ops[..|ops| - 1]), d, k);
        case DoPut(k, v) => PutKeepsIncluded(Run(c, ops[..|ops| - 1]), c, Run(d, ops[..|ops| - 1]), d, k, v);
      }
    }
  }

  /** So every hit in the smaller cache is a hit in the larger one with the same value. */
  lemma HitsInclude(c: nat, d: nat, ops: seq<Op>, key: string)
    requires 0 < c <= d && ValueOf(Run(c, ops), key).Some?
    ensures ValueOf(Run(d, ops), key) == ValueOf(Run(c, ops), key)
  {
    Inclusion(c, d, ops);
    WithinFind(Run(c, ops), Run(d, ops), key);
  }

  // ----- The object

  class LRUCache {
    const capacity: nat
    const entries: List.EntryList
    var hits: nat
    var misses: nat
    var evictions: nat

    ghost predicate Valid()
      reads this, entries
    {
      capacity > 0 && entries.Valid() && |entries.list| <= capacity
    }

    /** The entries, most recent first. */
    ghost function View(): seq<Entry>
      requires Valid()
      reads this, entries
    {
      entries.View()
    }

    constructor (capacity: nat)
      requires capacity > 0
      ensures Valid() && this.capacity == capacity && View() == [] && fresh(entries)
    {
      this.capacity := capacity;
      entries := new List.EntryList();
      hits, misses, evictions := 0, 0, 0;
    }

    method Get(key: string) returns (r: Option<string>)
      requires Valid()
      modifies this, entries
      ensures Valid() && View() == Use(old(View()), key) && r == ValueOf(old(View()), key)
      ensures
        if r.Some? then hits == old(hits) + 1 && misses == old(misses)
        else misses == old(misses) + 1 && hits == old(hits)
    {
      hide List.IndexOk, StripePolicy.Find;
      entries.IndexMeansHas(key);
      if key !in entries.index {
        misses := misses + 1;
        return None;
      }
      var value := entries.Hit(key);
      hits := hits + 1;
      return Some(value);
    }

    method Put(key: string, value: string) returns (inserted: bool)
      requires Valid()
      modifies this, entries
      ensures Valid() && View() == Insert(old(View()), capacity, key, value)
      ensures inserted <==> !HasKey(old(View()), key)
      ensures evictions == old(evictions) + (if inserted then |old(entries.list)| + 1 - |entries.list| else 0)
    {
      hide List.IndexOk, StripePolicy.Find;
      entries.IndexMeansHas(key);
      if key in entries.index {
        entries.Refresh(key, value);
        return false;
      }
      EvictOverflow(key);
      entries.PushNew(key, value);
      return true;
    }

    /** The eviction loop; it runs at most once. */
    method EvictOverflow(ghost key: string)
      requires Valid() && key !in entries.index
      modifies this`evictions, entries
      ensures Valid() && key !in entries.index && |entries.list| < capacity && View() == Evict(old(View()), capacity)
      ensures evictions == old(evictions) + |old(entries.list)| - |entries.list|
    {
      hide List.IndexOk;
      while |entries.list| >= capacity
        invariant Valid() && key !in entries.index
        invariant Evict(View(), capacity) == Evict(old(View()), capacity)
        invariant evictions + |entries.list| == old(evictions) + |old(entries.list)|
        decreases |entries.list|
      {
        entries.DropLast();
        evictions := evictions + 1;
      }
    }
  }
}
