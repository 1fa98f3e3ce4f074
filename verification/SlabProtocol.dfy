/**
 The lock-free free list of the slab allocator, as a transition system over any number of threads.

 Every atomic access is one step: loading the head word, reading a link, writing a link, the
 compare-and-swap (which may also fail spuriously), and the update of the free counter.
 The head word packs a slot index with a 32-bit tag. `swaps` counts successful swaps without
 bound; the tag stored in the word is its value modulo 2^32.
 */
module SlabProtocol {
  import opened Types
  import opened Seqs
  import opened FreeChain

  /** Where a thread stands inside `allocate` or `deallocate`. */
  datatype Pc =
    | Idle
    | AllocLoaded(index: nat, swaps: nat)
    | AllocRead(index: nat, swaps: nat, link: nat)
    | AllocTaken
    | FreeReset(slot: nat)
    | FreeLoaded(slot: nat, index: nat, swaps: nat)
    | FreeLinked(slot: nat, index: nat, swaps: nat)
    | FreePublished

  /** `held` are the slots this thread obtained (or was given) and has not yet published as free. */
  datatype Thread = Thread(pc: Pc, held: set<nat>)

  datatype State = State(next: seq<nat>, head: nat, swaps: nat, count: nat, threads: seq<Thread>)

  datatype Action =
    | Load
    | ReadNext
    | GiveUp
    | Swap
    | FailSwap
    | Finish
    | BeginFree(slot: nat)
    | Link
    | Give(to: nat, slot: nat)

  /** The state the constructor builds, with `k` threads that hold nothing. */
  function Init(n: nat, k: nat): State
    requires 0 < n <= INVALID_INDEX
  {
    State(InitialLinks(n), 0, 0, n, seq(k, _ => Thread(Idle, {})))
  }

  /** The comparison the hardware makes: same index and same 32-bit tag. */
  predicate WordMatches(s: State, index: nat, swaps: nat) {
    index == s.head && swaps % WORD32 == s.swaps % WORD32
  }

  predicate Enabled(s: State, i: nat, a: Action) {
    i < |s.threads| &&
    var t := s.threads[i];
    match a
    case Load => t.pc.Idle? || t.pc.FreeReset?
    case ReadNext => t.pc.AllocLoaded? && t.pc.index < |s.next|
    case GiveUp => t.pc.AllocLoaded? && t.pc.index == INVALID_INDEX
    case Swap => (t.pc.AllocRead? || t.pc.FreeLinked?) && WordMatches(s, t.pc.index, t.pc.swaps)
    case FailSwap => t.pc.AllocRead? || t.pc.FreeLinked?
    case Finish => t.pc.AllocTaken? || t.pc.FreePublished?
    case BeginFree(x) => t.pc.Idle? && x in t.held
    case Link => t.pc.FreeLoaded? && t.pc.slot < |s.next|
    case Give(j, x) => t.pc.Idle? && x in t.held && j < |s.threads| && j != i
  }

  function WithThread(s: State, i: nat, t: Thread): State
    requires i < |s.threads|
  {
    s.(threads := s.threads[i := t])
  }

  function Apply(s: State, i: nat, a: Action): State
    requires Enabled(s, i, a)
  {
    var t := s.threads[i];
    match a
    case Load =>
      var pc := if t.pc.Idle? then AllocLoaded(s.head, s.swaps) else FreeLoaded(t.pc.slot, s.head, s.swaps);
      WithThread(s, i, t.(pc := pc))
    case ReadNext => WithThread(s, i, t.(pc := AllocRead(t.pc.index, t.pc.swaps, s.next[t.pc.index])))
    case GiveUp => WithThread(s, i, t.(pc := Idle))
    case Swap =>
      if t.pc.AllocRead? then
        WithThread(s, i, Thread(AllocTaken, t.held + {t.pc.index})).(head := t.pc.link, swaps := s.swaps + 1)
      else
        WithThread(s, i, Thread(FreePublished, t.held - {t.pc.slot})).(head := t.pc.slot, swaps := s.swaps + 1)
    case FailSwap =>
      var pc := if t.pc.AllocRead? then AllocLoaded(s.head, s.swaps) else FreeLoaded(t.pc.slot, s.head, s.swaps);
      WithThread(s, i, t.(pc := pc))
    case Finish =>
      var count := if t.pc.AllocTaken? then s.count + WORD32 - 1 else s.count + 1;
      WithThread(s, i, t.(pc := Idle)).(count := count % WORD32)
    case BeginFree(x) => WithThread(s, i, t.(pc := FreeReset(x)))
    case Link =>
      var pc := FreeLinked(t.pc.slot, t.pc.index, t.pc.swaps);
      WithThread(s, i, t.(pc := pc)).(next := s.next[t.pc.slot := t.pc.index])
    case Give(j, x) =>
      WithThread(WithThread(s, i, t.(held := t.held - {x})), j, s.threads[j].(held := s.threads[j].held + {x}))
  }

  datatype Event = Event(thread: nat, action: Action)

  /** A run: the state after performing the events in order, if each is enabled in turn. */
  function Run(s: State, es: seq<Event>): Option<State>
    decreases |es|
  {
    if es == [] then Some(s)
    else if Enabled(s, es[0].thread, es[0].action) then Run(Apply(s, es[0].thread, es[0].action), es[1..])
    else None
  }

  /**
   A taking swap that succeeds installs the link the head has now. This is what the tag is for: the
   swap itself compares the head word only, and installs a link that was read earlier.
   */
  predicate InstallsPresentLink(s: State, i: nat, a: Action) {
    Enabled(s, i, a) && a.Swap? && s.threads[i].pc.AllocRead? ==>
      s.head < |s.next| && s.threads[i].pc.link == s.next[s.head]
  }

  predicate LinkedRun(s: State, es: seq<Event>)
    decreases |es|
  {
    es == [] ||
    (InstallsPresentLink(s, es[0].thread, es[0].action) &&
     (Enabled(s, es[0].thread, es[0].action) ==> LinkedRun(Apply(s, es[0].thread, es[0].action), es[1..])))
  }

  /** No taking swap succeeds on a snapshot that is 2^32 or more swaps old: the 32-bit tag has not come round. */
  predicate TagFresh(s: State, i: nat, a: Action) {
    Enabled(s, i, a) && a.Swap? && s.threads[i].pc.AllocRead? ==>
      s.swaps < s.threads[i].pc.swaps + WORD32
  }

  predicate FreshRun(s: State, es: seq<Event>)
    decreases |es|
  {
    es == [] ||
    (TagFresh(s, es[0].thread, es[0].action) &&
     (Enabled(s, es[0].thread, es[0].action) ==> FreshRun(Apply(s, es[0].thread, es[0].action), es[1..])))
  }

  // ----- The invariant

  /** The slots of each thread. */
  function HeldSets(threads: seq<Thread>): (h: seq<set<nat>>)
    ensures |h| == |threads|
    ensures forall i :: 0 <= i < |h| ==> h[i] == threads[i].held
  {
    seq(|threads|, i requires 0 <= i < |threads| => threads[i].held)
  }

  ghost predicate OwnsOnly(n: nat, own: set<nat>, c: seq<nat>) {
    forall x :: x in own ==> x < n && x !in c
  }

  ghost predicate Placed(h: seq<set<nat>>, c: seq<nat>, x: nat) {
    x in c || exists i :: 0 <= i < |h| && x in h[i]
  }

  /** Every one of the `n` slots is on the free chain or held by exactly one thread, never both. */
  ghost predicate Partition(n: nat, h: seq<set<nat>>, c: seq<nat>) {
    && (forall i, j :: 0 <= i < j < |h| ==> h[i] !! h[j])
    && (forall i :: 0 <= i < |h| ==> OwnsOnly(n, h[i], c))
    && (forall x: nat :: x < n ==> Placed(h, c, x))
  }

  /** A snapshot of the head that is still current names the current head and, if taken, its true link. */
  ghost predicate PcOk(s: State, t: Thread) {
    match t.pc
    case AllocLoaded(x, w) => w <= s.swaps && (x < |s.next| || x == INVALID_INDEX) && (w == s.swaps ==> x == s.head)
    case AllocRead(x, w, link) => w <= s.swaps && x < |s.next| && (w == s.swaps ==> x == s.head && link == s.next[x])
    case FreeReset(slot) => slot in t.held
    case FreeLoaded(slot, x, w) => slot in t.held && w <= s.swaps && (w == s.swaps ==> x == s.head)
    case FreeLinked(slot, x, w) =>
      slot in t.held && w <= s.swaps && (w == s.swaps ==> x == s.head) && slot < |s.next| && s.next[slot] == x
    case _ => true
  }

  /** Swaps done whose counter update is still to come: takes minus publications. */
  function Pending(threads: seq<Thread>): int {
    if threads == [] then 0
    else Pending(threads[..|threads| - 1]) + PendingOf(threads[|threads| - 1].pc)
  }

  function PendingOf(pc: Pc): int {
    if pc.AllocTaken? then 1 else if pc.FreePublished? then -1 else 0
  }

  ghost predicate Good(s: State, c: seq<nat>) {
    && Chain(s.next, s.head, c)
    && Partition(|s.next|, HeldSets(s.threads), c)
    && (forall i :: 0 <= i < |s.threads| ==> PcOk(s, s.threads[i]))
    && s.count == (|c| + Pending(s.threads)) % WORD32
  }

  ghost predicate Inv(s: State) {
    exists c :: Good(s, c)
  }

  /** What a step does to the free chain, seen as a stack. */
  function ChainAfter(s: State, i: nat, a: Action, c: seq<nat>): seq<nat>
    requires Enabled(s, i, a)
  {
    if a.Swap? && s.threads[i].pc.AllocRead? then (if c == [] then c else c[1..])
    else if a.Swap? then [s.threads[i].pc.slot] + c
    else c
  }

  // ----- Proofs

  lemma {:induction false} PendingUpdate(threads: seq<Thread>, i: nat, t: Thread)
    requires i < |threads|
    ensures Pending(threads[i := t]) == Pending(threads) - PendingOf(threads[i].pc) + PendingOf(t.pc)
  {
    var n := |threads| - 1;
    if i == n {
      assert threads[i := t][..n] == threads[..n];
    } else {
      PendingUpdate(threads[..n], i, t);
      assert threads[i := t][..n] == threads[..n][i := t];
    }
  }

  lemma {:induction false} PendingSame(a: seq<Thread>, b: seq<Thread>)
    requires |a| == |b| && forall i :: 0 <= i < |a| ==> a[i].pc == b[i].pc
    ensures Pending(a) == Pending(b)
  {
    if a != [] {
      PendingSame(a[..|a| - 1], b[..|b| - 1]);
    }
  }

  lemma PendingIdle(threads: seq<Thread>)
    requires forall i :: 0 <= i < |threads| ==> threads[i].pc.Idle?
    ensures Pending(threads) == 0
  {
  }

  lemma PcsKept(s: State, s': State, i: nat)
    requires |s.threads| == |s'.threads| && i < |s.threads|
    requires s'.next == s.next && s'.head == s.head && s'.swaps == s.swaps
    requires forall j :: 0 <= j < |s.threads| ==> PcOk(s, s.threads[j])
    requires forall j :: 0 <= j < |s.threads| && j != i ==> s'.threads[j] == s.threads[j]
    requires PcOk(s', s'.threads[i])
    ensures forall j :: 0 <= j < |s'.threads| ==> PcOk(s', s'.threads[j])
  {
    forall j | 0 <= j < |s'.threads| ensures PcOk(s', s'.threads[j]) {
      assert PcOk(s, s.threads[j]);
    }
  }

  /** A successful swap makes every snapshot taken before it stale. */
  lemma PcsAfterSwap(s: State, s': State, i: nat)
    requires |s.threads| == |s'.threads| && i < |s.threads|
    requires s'.next == s.next && s'.swaps == s.swaps + 1
    requires forall j :: 0 <= j < |s.threads| ==> PcOk(s, s.threads[j])
    requires forall j :: 0 <= j < |s.threads| && j != i ==> s'.threads[j] == s.threads[j]
    requires PendingOf(s'.threads[i].pc) != 0
    ensures forall j :: 0 <= j < |s'.threads| ==> PcOk(s', s'.threads[j])
  {
    forall j | 0 <= j < |s'.threads| ensures PcOk(s', s'.threads[j]) {
      assert PcOk(s, s.threads[j]);
    }
  }

  /** Steps that move no slot and write no link: only one program counter changes. */
  lemma PcStep(s: State, i: nat, pc: Pc, c: seq<nat>)
    requires Good(s, c) && i < |s.threads|
    requires PcOk(s, s.threads[i].(pc := pc))
    requires PendingOf(s.threads[i].pc) == PendingOf(pc) == 0
    ensures Good(WithThread(s, i, s.threads[i].(pc := pc)), c)
  {
    var s' := WithThread(s, i, s.threads[i].(pc := pc));
    PendingUpdate(s.threads, i, s.threads[i].(pc := pc));
    assert HeldSets(s'.threads) == HeldSets(s.threads);
    PcsKept(s, s', i);
  }

  lemma FinishCount(s: State, i: nat, free: nat)
    requires Enabled(s, i, Finish) && s.count == (free + Pending(s.threads)) % WORD32
    ensures Apply(s, i, Finish).count == (free + Pending(Apply(s, i, Finish).threads)) % WORD32
  {
    PendingUpdate(s.threads, i, s.threads[i].(pc := Idle));
    CountModulo(free + Pending(s.threads), if s.threads[i].pc.AllocTaken? then -1 else 1);
  }

  lemma FinishStep(s: State, i: nat, c: seq<nat>)
    requires Good(s, c) && Enabled(s, i, Finish)
    ensures Good(Apply(s, i, Finish), c)
  {
    var s' := Apply(s, i, Finish);
    FinishCount(s, i, |c|);
    assert HeldSets(s'.threads) == HeldSets(s.threads);
    PcsKept(s, s', i);
  }

  lemma CountModulo(x: int, d: int)
    requires d == 1 || d == -1
    ensures (x % WORD32 + (if d == 1 then 1 else WORD32 - 1)) % WORD32 == (x + d) % WORD32
  {
    var q := x / WORD32;
    assert x == q * WORD32 + x % WORD32;
    var y := x % WORD32 + d;
    if y < 0 {
      assert x + d == (q - 1) * WORD32 + (y + WORD32);
    } else if y == WORD32 {
      assert x + d == (q + 1) * WORD32;
    }
  }

  /** Writing the link of a held slot leaves the chain and every current snapshot as they were. */
  lemma LinkStep(s: State, i: nat, c: seq<nat>)
    requires Good(s, c) && Enabled(s, i, Link)
    ensures Good(Apply(s, i, Link), c)
  {
    var s' := Apply(s, i, Link);
    var slot := s.threads[i].pc.slot;
    assert PcOk(s, s.threads[i]);
    PendingUpdate(s.threads, i, s'.threads[i]);
    assert HeldSets(s'.threads) == HeldSets(s.threads);
    HeldByOne(s, i, c, slot);
    ChainIgnores(s.next, s.head, c, slot, s'.next[slot]);
    PcsAfterLink(s, i, c);
  }

  /** A held slot is not free, and no other thread holds it. */
  lemma HeldByOne(s: State, i: nat, c: seq<nat>, slot: nat)
    requires Good(s, c) && i < |s.threads| && slot in s.threads[i].held
    ensures slot < |s.next| && slot !in c && forall j :: 0 <= j < |s.threads| && j != i ==> slot !in s.threads[j].held
  {
    var h := HeldSets(s.threads);
    assert slot in h[i] && OwnsOnly(|s.next|, h[i], c);
    forall j | 0 <= j < |s.threads| && j != i ensures slot !in s.threads[j].held {
      assert h[j] == s.threads[j].held;
    }
  }

  lemma PcsAfterLink(s: State, i: nat, c: seq<nat>)
    requires Good(s, c) && Enabled(s, i, Link)
    ensures var s' := Apply(s, i, Link); forall j :: 0 <= j < |s'.threads| ==> PcOk(s', s'.threads[j])
  {
    hide Partition, Pending;
    var s' := Apply(s, i, Link);
    var slot := s.threads[i].pc.slot;
    assert PcOk(s, s.threads[i]);
    HeldByOne(s, i, c, slot);
    forall j | 0 <= j < |s'.threads| ensures PcOk(s', s'.threads[j]) {
      assert PcOk(s, s.threads[j]);
      if s.threads[j].pc.AllocRead? && s.threads[j].pc.swaps == s.swaps {
        HeadOnChain(s, c);
      }
    }
  }

  /** A head that names a slot is the first slot of the chain. */
  lemma HeadOnChain(s: State, c: seq<nat>)
    requires Good(s, c) && s.head < |s.next|
    ensures c != [] && c[0] == s.head && s.next[s.head] == LinkAt(c, 0)
  {
    assert c != [];
    assert LinkOk(s.next, c, 0);
  }

  lemma TagEquality(a: nat, b: nat)
    requires a <= b < a + WORD32 && a % WORD32 == b % WORD32
    ensures a == b
  {
  }

  lemma TakeHeld(n: nat, h: seq<set<nat>>, c: seq<nat>, i: nat)
    requires Partition(n, h, c) && Distinct(c) && c != [] && c[0] < n && i < |h|
    ensures Partition(n, h[i := h[i] + {c[0]}], c[1..])
  {
    var h' := h[i := h[i] + {c[0]}];
    forall j | 0 <= j < |h'| ensures OwnsOnly(n, h'[j], c[1..]) {
      assert OwnsOnly(n, h[j], c);
    }
    forall x: nat | x < n ensures Placed(h', c[1..], x) {
      assert Placed(h, c, x);
      if x == c[0] {
        assert x in h'[i];
      } else if x !in c {
        var j :| 0 <= j < |h| && x in h[j];
        assert x in h'[j];
      }
    }
    forall j, k | 0 <= j < k < |h'| ensures h'[j] !! h'[k] {
      assert OwnsOnly(n, h[j], c) && OwnsOnly(n, h[k], c);
    }
  }

  lemma PublishHeld(n: nat, h: seq<set<nat>>, c: seq<nat>, i: nat, slot: nat)
    requires Partition(n, h, c) && i < |h| && slot in h[i]
    ensures slot < n && slot !in c
    ensures Partition(n, h[i := h[i] - {slot}], [slot] + c)
  {
    var h' := h[i := h[i] - {slot}];
    assert OwnsOnly(n, h[i], c);
    forall j | 0 <= j < |h'| ensures OwnsOnly(n, h'[j], [slot] + c) {
      assert OwnsOnly(n, h[j], c);
      assert j != i ==> slot !in h[j];
    }
    forall x: nat | x < n ensures Placed(h', [slot] + c, x) {
      assert Placed(h, c, x);
      if x != slot && x !in c {
        var j :| 0 <= j < |h| && x in h[j];
        assert x in h'[j];
      }
    }
  }

  lemma GiveHeld(n: nat, h: seq<set<nat>>, c: seq<nat>, i: nat, j: nat, slot: nat)
    requires Partition(n, h, c) && i < |h| && j < |h| && i != j && slot in h[i]
    ensures Partition(n, h[i := h[i] - {slot}][j := h[j] + {slot}], c)
  {
    var h' := h[i := h[i] - {slot}][j := h[j] + {slot}];
    assert OwnsOnly(n, h[i], c);
    forall k | 0 <= k < |h'| ensures OwnsOnly(n, h'[k], c) {
      assert OwnsOnly(n, h[k], c);
    }
    forall k, l | 0 <= k < l < |h'| ensures h'[k] !! h'[l] {
      assert k != i ==> slot !in h[k];
      assert l != i ==> slot !in h[l];
    }
    forall x: nat | x < n ensures Placed(h', c, x) {
      assert Placed(h, c, x);
      if x !in c {
        var k :| 0 <= k < |h| && x in h[k];
        assert x in h'[if x == slot then j else k];
      }
    }
  }

  /** A taking swap that installs the present link pops the chain, however old its snapshot is. */
  lemma TakeStep(s: State, i: nat, c: seq<nat>)
    requires Good(s, c) && Enabled(s, i, Swap) && s.threads[i].pc.AllocRead? && InstallsPresentLink(s, i, Swap)
    ensures c != [] && s.threads[i].pc.index == c[0] && s.threads[i].pc.link == LinkAt(c, 0)
    ensures Good(Apply(s, i, Swap), c[1..])
  {
    var t := s.threads[i];
    var s' := Apply(s, i, Swap);
    assert PcOk(s, t);
    HeadOnChain(s, c);
    PopChain(s.next, s.head, c);
    SwapCount(s, i, |c|);
    var h := HeldSets(s.threads);
    TakeHeld(|s.next|, h, c, i);
    assert HeldSets(s'.threads) == h[i := h[i] + {c[0]}];
    PcsAfterSwap(s, s', i);
  }

  /** A publishing swap needs no tag: the slot's link is the head it compares with. */
  lemma PublishStep(s: State, i: nat, c: seq<nat>)
    requires Good(s, c) && Enabled(s, i, Swap) && s.threads[i].pc.FreeLinked?
    ensures Good(Apply(s, i, Swap), [s.threads[i].pc.slot] + c)
  {
    var t := s.threads[i];
    var slot := t.pc.slot;
    var s' := Apply(s, i, Swap);
    assert PcOk(s, t);
    var h := HeldSets(s.threads);
    PublishHeld(|s.next|, h, c, i, slot);
    PushChain(s.next, s.head, c, slot);
    SwapCount(s, i, |c|);
    assert HeldSets(s'.threads) == h[i := h[i] - {slot}];
    PcsAfterSwap(s, s', i);
  }

  /** A swap leaves the counter behind by one. */
  lemma SwapCount(s: State, i: nat, free: nat)
    requires Enabled(s, i, Swap) && s.count == (free + Pending(s.threads)) % WORD32
    ensures var d := if s.threads[i].pc.AllocRead? then -1 else 1;
      Apply(s, i, Swap).count == (free + d + Pending(Apply(s, i, Swap).threads)) % WORD32
  {
    PendingUpdate(s.threads, i, Apply(s, i, Swap).threads[i]);
  }

  lemma GiveStep(s: State, i: nat, j: nat, x: nat, c: seq<nat>)
    requires Good(s, c) && Enabled(s, i, Give(j, x))
    ensures Good(Apply(s, i, Give(j, x)), c)
  {
    hide Chain, OwnsOnly, Placed, Pending;
    var s' := Apply(s, i, Give(j, x));
    PendingSame(s.threads, s'.threads);
    var h := HeldSets(s.threads);
    GiveHeld(|s.next|, h, c, i, j, x);
    HeldSetsAfterGive(s, i, j, x);
    hide Partition;
    PcsAfterGive(s, s', i, j, c);
  }

  lemma HeldSetsAfterGive(s: State, i: nat, j: nat, x: nat)
    requires Enabled(s, i, Give(j, x))
    ensures var h := HeldSets(s.threads);
      HeldSets(Apply(s, i, Give(j, x)).threads) == h[i := h[i] - {x}][j := h[j] + {x}]
  {
  }

  lemma PcsAfterGive(s: State, s': State, i: nat, j: nat, c: seq<nat>)
    requires Good(s, c) && |s.threads| == |s'.threads| && i < |s.threads| && j < |s.threads| && i != j
    requires s'.next == s.next && s'.head == s.head && s'.swaps == s.swaps
    requires forall k :: 0 <= k < |s.threads| ==> s'.threads[k].pc == s.threads[k].pc
    requires forall k :: 0 <= k < |s.threads| && k != i ==> s.threads[k].held <= s'.threads[k].held
    requires s'.threads[i].pc.Idle?
    ensures forall k :: 0 <= k < |s'.threads| ==> PcOk(s', s'.threads[k])
  {
    forall k | 0 <= k < |s'.threads| ensures PcOk(s', s'.threads[k]) {
      assert PcOk(s, s.threads[k]);
    }
  }

  /** One step of any thread keeps the invariant and acts on the chain as a stack operation. */
  lemma StepKeepsGood(s: State, i: nat, a: Action, c: seq<nat>)
    requires Good(s, c) && Enabled(s, i, a) && InstallsPresentLink(s, i, a)
    ensures Good(Apply(s, i, a), ChainAfter(s, i, a, c))
  {
    assert PcOk(s, s.threads[i]);
    match a
    case Load =>
      if c != [] { assert LinkOk(s.next, c, 0); }
      PcStep(s, i, Apply(s, i, a).threads[i].pc, c);
    case ReadNext => PcStep(s, i, Apply(s, i, a).threads[i].pc, c);
    case GiveUp => PcStep(s, i, Idle, c);
    case Swap =>
      if s.threads[i].pc.AllocRead? { TakeStep(s, i, c); } else { PublishStep(s, i, c); }
    case FailSwap =>
      if c != [] { assert LinkOk(s.next, c, 0); }
      PcStep(s, i, Apply(s, i, a).threads[i].pc, c);
    case Finish => FinishStep(s, i, c);
    case BeginFree(x) => PcStep(s, i, FreeReset(x), c);
    case Link => LinkStep(s, i, c);
    case Give(j, x) => GiveStep(s, i, j, x, c);
  }
}
