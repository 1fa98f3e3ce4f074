/**
 An L2 stripe remembers by recency: which keys it holds after any history of stores and takes, told
 from the history alone.
 */
module L2Recency {
  import opened Types
  import opened Seqs
  import opened StripePolicy
  import opened CacheEngine
  import opened Recency

  datatype Op = StoreOp(entry: Entry) | TakeOp(key: string)

  function RunStripe(capacity: nat, ops: seq<Op>): seq<Entry> {
    if ops == [] then []
    else
      var l := RunStripe(capacity, ops[..|ops| - 1]);
      match ops[|ops| - 1]
      case StoreOp(e) => Store(l, capacity, e)
      case TakeOp(k) => Take(l, k).list
  }

  /** The other keys stored since `key` was last stored or taken, without those taken since. */
  function Since(ops: seq<Op>, key: string): set<string> {
    if ops == [] then {}
    else
      var before := Since(ops[..|ops| - 1], key);
      match ops[|ops| - 1]
      case StoreOp(e) => if e.key == key then {} else before + {e.key}
      case TakeOp(k) => if k == key then {} else before - {k}
  }

  /** The last value stored under the key, until it is taken or the other keys stored since fill the stripe. */
  function Kept(capacity: nat, ops: seq<Op>, key: string): Option<string> {
    if ops == [] then None
    else
      var before := Kept(capacity, ops[..|ops| - 1], key);
      match ops[|ops| - 1]
      case StoreOp(e) =>
        if e.key == key then Some(e.value)
        else if |Since(ops, key)| < capacity then before
        else None
      case TakeOp(k) => if k == key then None else before
  }

  /** The key is where its history says. */
  ghost predicate Agrees(l: seq<Entry>, key: string, kept: Option<string>, since: set<string>) {
    if kept.Some? then At(l, key, kept.value, since) else Absent(l, key)
  }

  lemma StoreOther(l: seq<Entry>, capacity: nat, e: Entry, key: string, kept: Option<string>, since: set<string>)
    requires UniqueKeys(l) && |l| <= capacity && capacity > 0 && e.key != key && Agrees(l, key, kept, since)
    ensures var after := since + {e.key};
      Agrees(Store(l, capacity, e), key, if |after| < capacity then kept else None, after)
  {
    hide At, Find;
    var i := Find(l, e.key);
    if kept.None? {
      StoreKeepsAbsent(l, capacity, e, key);
    } else if HasKey(l, e.key) {
      FoundKey(l, e.key);
      TwoKeys(l, i, key, kept.value, since);
      RemoveOtherAt(l, i, key, kept.value, since);
      PushAt(RemoveAt(l, i), e, key, kept.value, since - {e.key});
      assert since - {e.key} + {e.key} == since + {e.key};
    } else {
      AbsentIsNotFound(l, e.key);
      NotAhead(l, key, kept.value, since, e.key);
      DropLastAt(l, key, kept.value, since);
      if |l| < capacity {
        PushAt(l, e, key, kept.value, since);
      } else if |since| + 1 < |l| {
        PushAt(Front(l), e, key, kept.value, since);
      }
    }
  }

  lemma StoreKeepsAbsent(l: seq<Entry>, capacity: nat, e: Entry, key: string)
    requires Absent(l, key) && e.key != key
    ensures Absent(Store(l, capacity, e), key)
  {
  }

  lemma TakeOther(l: seq<Entry>, other: string, key: string, kept: Option<string>, since: set<string>)
    requires UniqueKeys(l) && other != key && Agrees(l, key, kept, since)
    ensures Agrees(Take(l, other).list, key, kept, since - {other})
  {
    hide At, Find;
    var i := Find(l, other);
    if HasKey(l, other) {
      FoundKey(l, other);
      if kept.Some? {
        RemoveOtherAt(l, i, key, kept.value, since);
      } else {
        RemoveKeepsAbsent(l, i, key);
      }
    } else if kept.Some? {
      AbsentIsNotFound(l, other);
      NotAhead(l, key, kept.value, since, other);
      assert since - {other} == since;
    }
  }

  lemma StoreOwn(l: seq<Entry>, capacity: nat, e: Entry)
    ensures Agrees(Store(l, capacity, e), e.key, Some(e.value), {})
  {
    var i := Find(l, e.key);
    if i < |l| {
      HeadAt(e, RemoveAt(l, i));
    } else if |l| >= capacity && l != [] {
      HeadAt(e, Front(l));
    } else {
      HeadAt(e, l);
    }
  }

  lemma TakeOwn(l: seq<Entry>, key: string)
    requires UniqueKeys(l)
    ensures Agrees(Take(l, key).list, key, None, {})
  {
    if HasKey(l, key) {
      RemoveOwn(l, Find(l, key));
    }
  }

  lemma {:induction false} RunBounds(capacity: nat, ops: seq<Op>)
    requires capacity > 0
    ensures UniqueKeys(RunStripe(capacity, ops)) && |RunStripe(capacity, ops)| <= capacity
  {
    if ops != [] {
      var l := RunStripe(capacity, ops[..|ops| - 1]);
      RunBounds(capacity, ops[..|ops| - 1]);
      match ops[|ops| - 1] {
        case StoreOp(e) => StoreKeepsUnique(l, capacity, e);
        case TakeOp(k) => TakeMembers(l, k);
      }
    }
  }

  lemma {:induction false} RunAgrees(capacity: nat, ops: seq<Op>, key: string)
    requires capacity > 0
    ensures Agrees(RunStripe(capacity, ops), key, Kept(capacity, ops, key), Since(ops, key))
  {
    if ops != [] {
      hide Agrees, Store, Take, UniqueKeys;
      var front := ops[..|ops| - 1];
      var l := RunStripe(capacity, front);
      RunBounds(capacity, front);
      RunAgrees(capacity, front, key);
      match ops[|ops| - 1] {
        case StoreOp(e) =>
          if e.key == key {
            StoreOwn(l, capacity, e);
          } else {
            StoreOther(l, capacity, e, key, Kept(capacity, front, key), Since(front, key));
          }
        case TakeOp(k) =>
          if k == key {
            TakeOwn(l, key);
          } else {
            TakeOther(l, k, key, Kept(capacity, front, key), Since(front, key));
          }
      }
    } else {
      NothingAgrees(key);
    }
  }

  lemma NothingAgrees(key: string)
    ensures Agrees([], key, None, {})
  {
  }

  /** After any history a take answers what the history says was kept. */
  lemma RemembersByRecency(capacity: nat, ops: seq<Op>, key: string)
    requires capacity > 0
    ensures Take(RunStripe(capacity, ops), key).value == Kept(capacity, ops, key)
  {
    var l := RunStripe(capacity, ops);
    RunAgrees(capacity, ops, key);
    RunBounds(capacity, ops);
    var kept := Kept(capacity, ops, key);
    if kept.Some? {
      AtIsFound(l, key, kept.value, Since(ops, key));
    } else {
      AbsentIsNotFound(l, key);
    }
  }

  /** The other keys that a history stores. */
  function Stored(ops: seq<Op>, key: string): set<string> {
    if ops == [] then {}
    else
      var before := Stored(ops[..|ops| - 1], key);
      var op := ops[|ops| - 1];
      if op.StoreOp? && op.entry.key != key then before + {op.entry.key} else before
  }

  ghost predicate LeavesAlone(ops: seq<Op>, key: string) {
    forall i :: 0 <= i < |ops| ==> match ops[i] case StoreOp(e) => e.key != key case TakeOp(k) => k != key
  }

  /** An entry with fewer than `capacity` other keys stored after it is still found, whatever else is taken. */
  lemma {:induction false} StillFound(capacity: nat, before: seq<Op>, e: Entry, after: seq<Op>)
    requires capacity > 0 && LeavesAlone(after, e.key) && |Stored(after, e.key)| < capacity
    ensures Kept(capacity, before + [StoreOp(e)] + after, e.key) == Some(e.value)
    ensures Since(before + [StoreOp(e)] + after, e.key) <= Stored(after, e.key)
  {
    var ops := before + [StoreOp(e)] + after;
    if after == [] {
      assert ops == before + [StoreOp(e)];
    } else {
      var front := after[..|after| - 1];
      assert ops[..|ops| - 1] == before + [StoreOp(e)] + front;
      SubsetSize(Stored(front, e.key), Stored(after, e.key));
      StillFound(capacity, before, e, front);
      SubsetSize(Since(ops, e.key), Stored(after, e.key));
    }
  }
}
