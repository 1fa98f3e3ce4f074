/**
 The baseline cache told from its history alone: it answers a key's last value as long as fewer than
 `capacity` other keys have been used since the key was.
 */
module LruRecency {
  import opened Types
  import opened Seqs
  import opened StripePolicy
  import opened LruBaseline
  import opened Recency

  /** The value of the last put of the key. */
  function LastPut(ops: seq<Op>, key: string): Option<string> {
    if ops == [] then None
    else
      var op := ops[|ops| - 1];
      if op.DoPut? && op.key == key then Some(op.value) else LastPut(ops[..|ops| - 1], key)
  }

  /** The other keys used since the key was: put, or got while they were remembered. */
  function Since(capacity: nat, ops: seq<Op>, key: string): set<string>
    decreases |ops|, 0
  {
    if ops == [] then {}
    else
      var front := ops[..|ops| - 1];
      var op := ops[|ops| - 1];
      if op.DoGet? && Recalled(capacity, front, op.key).None? then Since(capacity, front, key)
      else if op.key == key then {}
      else Since(capacity, front, key) + {op.key}
  }

  function Recalled(capacity: nat, ops: seq<Op>, key: string): Option<string>
    decreases |ops|, 1
  {
    if |Since(capacity, ops, key)| < capacity then LastPut(ops, key) else None
  }

  /** The list holds the key where its history says; a key that is not held was never put or has been overtaken. */
  ghost predicate Agrees(l: seq<Entry>, capacity: nat, key: string, last: Option<string>, since: set<string>) {
    if last.Some? && |since| < capacity then At(l, key, last.value, since) else Absent(l, key)
  }

  /** Another key moves to the front or enters there. */
  lemma UsedOther(l: seq<Entry>, capacity: nat, e: Entry, key: string, last: Option<string>, since: set<string>)
    requires capacity > 0 && UniqueKeys(l) && |l| <= capacity && e.key != key && Agrees(l, capacity, key, last, since)
    ensures Agrees(Insert(l, capacity, e.key, e.value), capacity, key, last, since + {e.key})
  {
    hide At, Find, Evict;
    EvictIs(l, capacity);
    SubsetSize(since, since + {e.key});
    var i := Find(l, e.key);
    if last.None? || |since| >= capacity {
      InsertKeepsAbsent(l, capacity, e, key);
    } else if HasKey(l, e.key) {
      FoundKey(l, e.key);
      TwoKeys(l, i, key, last.value, since);
      RemoveOtherAt(l, i, key, last.value, since);
      PushAt(RemoveAt(l, i), e, key, last.value, since - {e.key});
      assert since - {e.key} + {e.key} == since + {e.key};
    } else {
      AbsentIsNotFound(l, e.key);
      NotAhead(l, key, last.value, since, e.key);
      DropLastAt(l, key, last.value, since);
      if |l| < capacity {
        PushAt(l, e, key, last.value, since);
      } else if |since| + 1 < |l| {
        PushAt(Front(l), e, key, last.value, since);
      }
    }
  }

  lemma InsertKeepsAbsent(l: seq<Entry>, capacity: nat, e: Entry, key: string)
    requires capacity > 0 && |l| <= capacity && Absent(l, key) && e.key != key
    ensures Absent(Insert(l, capacity, e.key, e.value), key)
  {
    EvictIs(l, capacity);
  }

  lemma UsedOwn(l: seq<Entry>, capacity: nat, key: string, value: string)
    requires capacity > 0
    ensures Agrees(Insert(l, capacity, key, value), capacity, key, Some(value), {})
  {
    if HasKey(l, key) {
      HeadAt(Entry(key, value), RemoveAt(l, Find(l, key)));
    } else {
      HeadAt(Entry(key, value), Evict(l, capacity));
    }
  }

  /** A hit is a put of the value that is there. */
  lemma UseIsInsert(l: seq<Entry>, capacity: nat, key: string)
    requires capacity > 0
    ensures Use(l, key) == if HasKey(l, key) then Insert(l, capacity, key, l[Find(l, key)].value) else l
  {
  }

  lemma AgreesAnswers(l: seq<Entry>, capacity: nat, key: string, last: Option<string>, since: set<string>)
    requires UniqueKeys(l) && Agrees(l, capacity, key, last, since)
    ensures ValueOf(l, key) == if |since| < capacity then last else None
  {
    if last.Some? && |since| < capacity {
      AtIsFound(l, key, last.value, since);
    } else {
      AbsentIsNotFound(l, key);
    }
  }

  lemma {:induction false} RunBounds(capacity: nat, ops: seq<Op>)
    requires capacity > 0
    ensures UniqueKeys(Run(capacity, ops)) && |Run(capacity, ops)| <= capacity
  {
    if ops != [] {
      var l := Run(capacity, ops[..|ops| - 1]);
      RunBounds(capacity, ops[..|ops| - 1]);
      match ops[|ops| - 1] {
        case DoGet(k) => UseKeeps(l, k);
        case DoPut(k, v) => InsertKeeps(l, capacity, k, v);
      }
    }
  }

  lemma {:induction false} RunAgrees(capacity: nat, ops: seq<Op>, key: string)
    requires capacity > 0
    ensures Agrees(Run(capacity, ops), capacity, key, LastPut(ops, key), Since(capacity, ops, key))
    decreases |ops|
  {
    if ops != [] {
      hide Agrees, Insert, Use, UniqueKeys, Find, ValueOf;
      var front := ops[..|ops| - 1];
      var op := ops[|ops| - 1];
      var l := Run(capacity, front);
      RunBounds(capacity, front);
      RunAgrees(capacity, front, key);
      if op.DoPut? {
        if op.key == key {
          UsedOwn(l, capacity, key, op.value);
        } else {
          UsedOther(l, capacity, Entry(op.key, op.value), key, LastPut(front, key), Since(capacity, front, key));
        }
      } else {
        RunAgrees(capacity, front, op.key);
        AgreesAnswers(l, capacity, op.key, LastPut(front, op.key), Since(capacity, front, op.key));
        GotStep(l, capacity, op.key, key, front);
      }
    } else {
      NothingAgrees(capacity, key);
    }
  }

  lemma NothingAgrees(capacity: nat, key: string)
    ensures Agrees([], capacity, key, None, {})
  {
  }

  lemma GotStep(l: seq<Entry>, capacity: nat, k: string, key: string, front: seq<Op>)
    requires capacity > 0 && UniqueKeys(l) && |l| <= capacity
    requires Agrees(l, capacity, key, LastPut(front, key), Since(capacity, front, key))
    requires ValueOf(l, k) == Recalled(capacity, front, k)
    ensures Agrees(Use(l, k), capacity, key, LastPut(front, key),
                   if ValueOf(l, k).None? then Since(capacity, front, key)
                   else if k == key then {} else Since(capacity, front, key) + {k})
  {
    hide Agrees, Insert, Use, UniqueKeys, Find, At, Since, LastPut;
    UseIsInsert(l, capacity, k);
    if HasKey(l, k) {
      var v := l[Find(l, k)].value;
      if k == key {
        UsedOwn(l, capacity, key, v);
      } else {
        UsedOther(l, capacity, Entry(k, v), key, LastPut(front, key), Since(capacity, front, key));
      }
    }
  }

  /** What the cache answers after any history. */
  lemma AnswersByHistory(capacity: nat, ops: seq<Op>, key: string)
    requires capacity > 0
    ensures ValueOf(Run(capacity, ops), key) == Recalled(capacity, ops, key)
  {
    RunAgrees(capacity, ops, key);
    RunBounds(capacity, ops);
    AgreesAnswers(Run(capacity, ops), capacity, key, LastPut(ops, key), Since(capacity, ops, key));
  }

  /** So whatever it answers is the value of the last put of the key. */
  lemma AnswersLastPut(capacity: nat, ops: seq<Op>, key: string)
    requires capacity > 0 && ValueOf(Run(capacity, ops), key).Some?
    ensures ValueOf(Run(capacity, ops), key) == LastPut(ops, key)
  {
    AnswersByHistory(capacity, ops, key);
  }
}
