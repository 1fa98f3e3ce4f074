/**
 What the access recorder has counted, told from the accesses: an access counts exactly if both
 positions of its key were marked since the last reset, and every `interval`-th access halves and
 resets.
 */
module RecorderHistory {
  import opened Types
  import opened Cms = CountMinSketch
  import opened Doorkeeper

  /** The accesses since the last reset. */
  function SinceReset(keys: seq<string>, interval: nat): seq<string> {
    if keys == [] then []
    else
      var since := SinceReset(keys[..|keys| - 1], interval) + [keys[|keys| - 1]];
      if |since| >= interval then [] else since
  }

  /** One of the accesses hashes to the position. */
  ghost predicate HashedTo(d: Door, since: seq<string>, pos: nat)
    requires d.numBits > 0
  {
    exists k :: k in since && (d.hash1(k) % d.numBits == pos || d.hash2(k) % d.numBits == pos)
  }

  ghost predicate LooksSeen(d: Door, since: seq<string>, key: string)
    requires d.numBits > 0
  {
    HashedTo(d, since, d.hash1(key) % d.numBits) && HashedTo(d, since, d.hash2(key) % d.numBits)
  }

  /** What reaches the sketch. */
  ghost function Reaching(d: Door, interval: nat, keys: seq<string>): seq<Cms.Op>
    requires d.numBits > 0
  {
    if keys == [] then []
    else
      var front, last := keys[..|keys| - 1], keys[|keys| - 1];
      var since := SinceReset(front, interval);
      Reaching(d, interval, front)
      + (if LooksSeen(d, since, last) then [Inc(last)] else [])
      + (if |since| + 1 >= interval then [Halve] else [])
  }

  lemma MarkedIsHashed(d: Door, since: seq<string>, pos: nat)
    requires d.numBits > 0
    ensures Marked(d, since, pos) <==> HashedTo(d, since, pos)
  {
    if Marked(d, since, pos) {
      var k :| k in since && (pos == Spot1(d, k) || pos == Spot2(d, k));
      assert d.hash1(k) % d.numBits == pos || d.hash2(k) % d.numBits == pos;
    }
    if HashedTo(d, since, pos) {
      var k :| k in since && (d.hash1(k) % d.numBits == pos || d.hash2(k) % d.numBits == pos);
      assert pos == Spot1(d, k) || pos == Spot2(d, k);
    }
  }

  lemma ContainsIsSeen(d: Door, since: seq<string>, key: string)
    requires ValidDoor(d)
    ensures Contains(AddAll(Cleared(d), since), key) <==> LooksSeen(d, since, key)
  {
    ContainsMeans(d, since, key);
    MarkedIsHashed(d, since, Spot1(d, key));
    MarkedIsHashed(d, since, Spot2(d, key));
  }

  /** Nothing has been recorded yet. */
  ghost predicate Begins(r: Recorder) {
    ValidRecorder(r) && r.door == Cleared(r.door) && r.ops == 0
  }

  /** The recorder is in the state that the accesses describe. */
  ghost predicate Follows(start: Recorder, keys: seq<string>, t: Recorder)
    requires Begins(start)
  {
    var since := SinceReset(keys, start.interval);
    && t.interval == start.interval && t.ops == |since|
    && t.door == AddAll(start.door, since)
    && t.sketch == PerformAll(start.sketch, Reaching(start.door, start.interval, keys))
  }

  lemma ReachingStep(d: Door, interval: nat, front: seq<string>, last: string)
    requires d.numBits > 0
    ensures var since := SinceReset(front, interval);
      && Reaching(d, interval, front + [last]) ==
           Reaching(d, interval, front)
           + (if LooksSeen(d, since, last) then [Inc(last)] else [])
           + (if |since| + 1 >= interval then [Halve] else [])
      && SinceReset(front + [last], interval) == if |since| + 1 >= interval then [] else since + [last]
  {
    assert (front + [last])[..|front|] == front;
  }

  /** Counting an access and, at the interval, halving. */
  lemma SketchFollows(sk: Sketch, before: seq<Cms.Op>, seen: bool, due: bool, key: string)
    requires sk.width > 0
    ensures var t := PerformAll(sk, before); var u := if seen then Increment(t, key) else t;
      PerformAll(sk, before + (if seen then [Inc(key)] else []) + (if due then [Halve] else [])) ==
      if due then Decay(u) else u
  {
    hide Increment, Decay;
    PerformOne(sk, before, Inc(key));
    var counted := before + if seen then [Inc(key)] else [];
    PerformOne(sk, counted, Halve);
    assert before + [] == before && counted + [] == counted;
  }

  lemma DoorFollows(d: Door, since: seq<string>, key: string)
    requires ValidDoor(d) && d == Cleared(d)
    ensures var t := AddAll(d, since);
      && (Contains(t, key) <==> LooksSeen(d, since, key))
      && Add(t, key) == AddAll(d, since + [key]) && Cleared(Add(t, key)) == AddAll(d, [])
  {
    hide Add, Contains, LooksSeen;
    assert (since + [key])[..|since|] == since;
    ClearedAgain(d, since + [key]);
    ContainsIsSeen(d, since, key);
  }

  lemma StepFollows(start: Recorder, front: seq<string>, last: string, t: Recorder)
    requires Begins(start) && ValidRecorder(t) && Follows(start, front, t)
    ensures Follows(start, front + [last], Record(t, last))
  {
    hide Contains, Add, Increment, Decay, LooksSeen, Cleared, Reaching, SinceReset, PerformAll, AddAll;
    var since := SinceReset(front, start.interval);
    ReachingStep(start.door, start.interval, front, last);
    DoorFollows(start.door, since, last);
    SketchFollows(start.sketch, Reaching(start.door, start.interval, front), LooksSeen(start.door, since, last),
                  |since| + 1 >= start.interval, last);
  }

  lemma ClearedAgain(d: Door, keys: seq<string>)
    requires ValidDoor(d) && d == Cleared(d)
    ensures Cleared(AddAll(d, keys)) == d && AddAll(d, []) == d
  {
  }

  /** Over any sequence of accesses, resets included. */
  lemma {:induction false} RecordsItsHistory(start: Recorder, keys: seq<string>)
    requires Begins(start)
    ensures Follows(start, keys, RecordAll(start, keys))
  {
    hide Follows, Record;
    if keys == [] {
      NothingRecorded(start);
    } else {
      var front := keys[..|keys| - 1];
      RecordsItsHistory(start, front);
      StepFollows(start, front, keys[|keys| - 1], RecordAll(start, front));
      assert front + [keys[|keys| - 1]] == keys;
    }
  }

  lemma NothingRecorded(start: Recorder)
    requires Begins(start)
    ensures Follows(start, [], start)
  {
  }

  /** The accesses before the first one of the key. */
  function UpTo(keys: seq<string>, key: string): seq<string> {
    if key !in keys then keys else UpTo(keys[..|keys| - 1], key)
  }

  lemma {:induction false} ShortOfInterval(keys: seq<string>, interval: nat)
    requires |keys| < interval
    ensures SinceReset(keys, interval) == keys
  {
    if keys != [] {
      ShortOfInterval(keys[..|keys| - 1], interval);
    }
  }

  /** How often a history increments the key, decays aside. */
  function Increments(ops: seq<Cms.Op>, key: string): nat {
    if ops == [] then 0
    else Increments(ops[..|ops| - 1], key) + if ops[|ops| - 1] == Inc(key) then 1 else 0
  }

  lemma IncrementsStep(ops: seq<Cms.Op>, seen: bool, k: string, key: string)
    ensures Increments(ops + (if seen then [Inc(k)] else []) + [], key) ==
      Increments(ops, key) + if seen && k == key then 1 else 0
  {
    assert ops + [] + [] == ops && ops + [Inc(k)] + [] == ops + [Inc(k)];
    assert (ops + [Inc(k)])[..|ops|] == ops;
  }

  /**
   Short of the interval a key accessed n times is counted n - 1 times, and once more exactly if other
   keys had marked both its positions before its first access.
   */
  lemma {:induction false} FirstAccessIsFree(d: Door, interval: nat, keys: seq<string>, key: string)
    requires d.numBits > 0 && |keys| < interval
    ensures Increments(Reaching(d, interval, keys), key) ==
      if key !in keys then 0
      else Occurrences(keys, key) - 1 + if LooksSeen(d, UpTo(keys, key), key) then 1 else 0
  {
    if keys != [] {
      hide LooksSeen, Reaching, Increments;
      var front, last := keys[..|keys| - 1], keys[|keys| - 1];
      assert keys == front + [last];
      FirstAccessIsFree(d, interval, front, key);
      ShortOfInterval(front, interval);
      OccursIfIn(front, key);
      OccursIfIn(keys, key);
      ReachingStep(d, interval, front, last);
      IncrementsStep(Reaching(d, interval, front), LooksSeen(d, front, last), last, key);
      if key in front {
        SeenAgain(d, front, key);
      }
      UpToStep(front, last, key);
    } else {
      OccursIfIn(keys, key);
    }
  }

  lemma UpToStep(front: seq<string>, last: string, key: string)
    ensures UpTo(front + [last], key) ==
      if key in front then UpTo(front, key) else if last == key then front else front + [last]
  {
    assert (front + [last])[..|front|] == front;
  }

  lemma SeenAgain(d: Door, since: seq<string>, key: string)
    requires d.numBits > 0 && key in since
    ensures LooksSeen(d, since, key)
  {
  }
}
