/** The nonce pool of src/crypto/Signer.cpp: a power-of-two ring filled and drained by any number of threads. */
module NonceRing {
  import opened Basics
  import Words
  import Residues

  // ── indices ─────────────────────────────────────────────────────────────────

  /** Masking with a power of two less one is the remainder. */
  lemma {:induction false} MaskIsRemainder(x: nat, k: nat)
    ensures Words.And(x, Words.Pow2(k) - 1) == x % Words.Pow2(k)
  {
    if k == 0 {
      assert Words.And(x, 0) == 0 && x % 1 == 0;
    } else if x == 0 {
      assert Words.And(0, Words.Pow2(k) - 1) == 0;
    } else {
      MaskIsRemainder(x / 2, k - 1);
      OneMoreBit(x, Words.Pow2(k - 1));
    }
  }

  lemma OneMoreBit(x: nat, m: int)
    requires x > 0 && m > 0 && Words.And(x / 2, m - 1) == (x / 2) % m
    ensures Words.And(x, 2 * m - 1) == x % (2 * m)
  {
    HalfRemainder(x, m);
    AndStep(x, m);
  }

  lemma AndStep(x: nat, m: int)
    requires x > 0 && m > 0
    ensures Words.And(x, 2 * m - 1) == 2 * Words.And(x / 2, m - 1) + x % 2
  {
    assert (2 * m - 1) / 2 == m - 1 && (2 * m - 1) % 2 == 1;
  }

  lemma HalfRemainder(x: nat, m: int)
    requires m > 0
    ensures x % (2 * m) == 2 * ((x / 2) % m) + x % 2
  {
    var q, r := (x / 2) / m, (x / 2) % m;
    assert x / 2 == m * q + r;
    assert x == q * (2 * m) + (2 * r + x % 2);
    Residues.DivModUnique(x, q, 2 * r + x % 2, 2 * m);
  }

  /** Within a window no longer than the ring, different positions have different slots. */
  lemma SlotsDiffer(i: nat, j: nat, cap: nat)
    requires cap > 0 && i < j < i + cap
    ensures i % cap != j % cap
  {
    var q, r, d := i / cap, i % cap, j - i;
    assert j == q * cap + (r + d);
    if r + d < cap {
      Residues.DivModUnique(j, q, r + d, cap);
    } else {
      assert j == (q + 1) * cap + (r + d - cap);
      Residues.DivModUnique(j, q + 1, r + d - cap, cap);
    }
  }

  // ── threads ─────────────────────────────────────────────────────────────────

  /** Where a thread stands inside `push` or `pop`. */
  datatype Pc<E> =
    | Idle
    | PushWait(e: E)    // spinning on the lock
    | PushHeld(e: E)    // inside, before the check
    | PushWrote(e: E)   // slot written
    | PushCounted       // tail moved, size not stored yet
    | PushStored        // size stored, lock still held
    | PopCheck          // before the unlocked look at size
    | PopWait
    | PopHeld
    | PopRead(e: E)     // entry copied out
    | PopWiped(e: E)    // slot wiped
    | PopCounted(e: E)  // head moved, size not stored yet
    | PopStored(e: E)

  /** `pushed` and `popped` record the entries in the order in which tail and head moved; `handed` what callers got. */
  datatype Pool<E> = Pool(ring: seq<E>, head: nat, tail: nat, size: nat, lock: Option<nat>, pcs: seq<Pc<E>>,
                          pushed: seq<E>, popped: seq<E>, handed: seq<E>)
  datatype Action<E> = BeginPush(e: E) | BeginPop | Advance

  predicate Holds<E>(pc: Pc<E>) {
    !pc.Idle? && !pc.PushWait? && !pc.PopCheck? && !pc.PopWait?
  }

  function At<E>(s: Pool<E>, t: nat, pc: Pc<E>): Pool<E>
    requires t < |s.pcs|
  {
    s.(pcs := s.pcs[t := pc])
  }

  function Acquire<E>(s: Pool<E>, t: nat, pc: Pc<E>): Pool<E>
    requires t < |s.pcs|
  {
    if s.lock.Some? then s else At(s.(lock := Some(t)), t, pc)
  }

  function Release<E>(s: Pool<E>, t: nat): Pool<E>
    requires t < |s.pcs|
  {
    At(s.(lock := None), t, Idle)
  }

  /** One atomic step of thread `t`. `zero` is what a wiped slot holds. */
  function Step<E>(s: Pool<E>, zero: E, t: nat, a: Action<E>): Pool<E>
    requires t < |s.pcs| && |s.ring| > 0
  {
    var cap := |s.ring|;
    match s.pcs[t]
    case Idle => (match a
      case BeginPush(e) => At(s, t, PushWait(e))
      case BeginPop => At(s, t, PopCheck)
      case Advance => s)
    case PushWait(e) => Acquire(s, t, PushHeld(e))
    case PushHeld(e) =>
      if s.tail - s.head >= cap then Release(s, t) else At(s.(ring := s.ring[s.tail % cap := e]), t, PushWrote(e))
    case PushWrote(e) => At(s.(tail := s.tail + 1, pushed := s.pushed + [e]), t, PushCounted)
    case PushCounted => At(s.(size := if s.tail < s.head then 0 else s.tail - s.head), t, PushStored)
    case PushStored => Release(s, t)
    case PopCheck => At(s, t, if s.size == 0 then Idle else PopWait)
    case PopWait => Acquire(s, t, PopHeld)
    case PopHeld => if s.head == s.tail then Release(s, t) else At(s, t, PopRead(s.ring[s.head % cap]))
    case PopRead(e) => At(s.(ring := s.ring[s.head % cap := zero]), t, PopWiped(e))
    case PopWiped(e) => At(s.(head := s.head + 1, popped := s.popped + [e]), t, PopCounted(e))
    case PopCounted(e) => At(s.(size := if s.tail < s.head then 0 else s.tail - s.head), t, PopStored(e))
    case PopStored(e) => Release(s.(handed := s.handed + [e]), t)
  }

  // ── what every step keeps ───────────────────────────────────────────────────

  /** Exactly the holder of the lock is inside. */
  ghost predicate Exclusive<E>(s: Pool<E>) {
    && (s.lock.Some? ==> s.lock.value < |s.pcs| && Holds(s.pcs[s.lock.value]))
    && (forall t :: 0 <= t < |s.pcs| && Holds(s.pcs[t]) ==> s.lock == Some(t))
  }

  /** The head slot is wiped but head has not moved. */
  ghost predicate Wiped<E>(s: Pool<E>) {
    s.lock.Some? && s.lock.value < |s.pcs| && s.pcs[s.lock.value].PopWiped?
  }

  ghost predicate Slotted<E>(s: Pool<E>, i: nat)
    requires |s.ring| > 0 && i < |s.pushed|
  {
    s.ring[i % |s.ring|] == s.pushed[i]
  }

  ghost predicate Filled<E>(s: Pool<E>) {
    && |s.ring| > 0 && s.head <= s.tail <= s.head + |s.ring|
    && |s.pushed| == s.tail && |s.popped| == s.head && s.popped == s.pushed[..s.head]
    && forall i {:trigger Slotted(s, i)} :: s.head <= i < s.tail && !(i == s.head && Wiped(s)) ==> Slotted(s, i)
  }

  /** What the holder of the lock knows at each point. */
  ghost predicate Local<E>(s: Pool<E>, pc: Pc<E>)
    requires |s.ring| > 0
  {
    match pc
    case PushWrote(e) => s.tail < s.head + |s.ring| && s.ring[s.tail % |s.ring|] == e
    case PopRead(e) => s.head < |s.pushed| && s.head < s.tail && e == s.pushed[s.head]
    case PopWiped(e) => s.head < |s.pushed| && s.head < s.tail && e == s.pushed[s.head]
    case _ => true
  }

  ghost predicate Pending<E>(pc: Pc<E>) { pc.PushCounted? || pc.PopCounted? }

  ghost predicate Inv<E>(s: Pool<E>) {
    && Exclusive(s) && Filled(s)
    && (s.lock.Some? ==> Local(s, s.pcs[s.lock.value]))
    && (!(s.lock.Some? && Pending(s.pcs[s.lock.value])) ==> s.size == s.tail - s.head)
    && s.popped == s.handed + InHand(s)
  }

  /** The entry a thread has taken but not yet returned with. */
  ghost function InHand<E>(s: Pool<E>): seq<E> {
    if s.lock.Some? && s.lock.value < |s.pcs| then
      match s.pcs[s.lock.value]
      case PopCounted(e) => [e]
      case PopStored(e) => [e]
      case _ => []
    else []
  }

  lemma ExclusiveStep<E>(s: Pool<E>, zero: E, t: nat, a: Action<E>)
    requires Inv(s) && t < |s.pcs|
    ensures Exclusive(Step(s, zero, t, a))
  {}

  /** Steps outside the lock touch nothing but the thread's own place. */
  lemma OutsideStep<E>(s: Pool<E>, zero: E, t: nat, a: Action<E>)
    requires Inv(s) && t < |s.pcs| && !Holds(s.pcs[t])
    ensures Inv(Step(s, zero, t, a))
  {
    ExclusiveStep(s, zero, t, a);
    var n := Step(s, zero, t, a);
    forall i | n.head <= i < n.tail && !(i == n.head && Wiped(n)) ensures Slotted(n, i) { assert Slotted(s, i); }
  }

  lemma WriteStep<E>(s: Pool<E>, zero: E, t: nat, a: Action<E>)
    requires Inv(s) && t < |s.pcs| && s.pcs[t].PushHeld?
    ensures Inv(Step(s, zero, t, a))
  {
    ExclusiveStep(s, zero, t, a);
    var n := Step(s, zero, t, a);
    forall i | n.head <= i < n.tail && !(i == n.head && Wiped(n)) ensures Slotted(n, i) {
      assert Slotted(s, i);
      if s.tail - s.head < |s.ring| { SlotsDiffer(i, s.tail, |s.ring|); }
    }
  }

  lemma CountPushStep<E>(s: Pool<E>, zero: E, t: nat, a: Action<E>)
    requires Inv(s) && t < |s.pcs| && s.pcs[t].PushWrote?
    ensures Inv(Step(s, zero, t, a))
  {
    ExclusiveStep(s, zero, t, a);
    var n := Step(s, zero, t, a);
    assert n.pushed[..n.head] == s.pushed[..s.head];
    forall i | n.head <= i < n.tail && !(i == n.head && Wiped(n)) ensures Slotted(n, i) {
      if i < s.tail { assert Slotted(s, i); }
    }
  }

  lemma WipeStep<E>(s: Pool<E>, zero: E, t: nat, a: Action<E>)
    requires Inv(s) && t < |s.pcs| && s.pcs[t].PopRead?
    ensures Inv(Step(s, zero, t, a))
  {
    ExclusiveStep(s, zero, t, a);
    var n := Step(s, zero, t, a);
    forall i | n.head <= i < n.tail && !(i == n.head && Wiped(n)) ensures Slotted(n, i) {
      assert Slotted(s, i);
      SlotsDiffer(s.head, i, |s.ring|);
    }
  }

  lemma CountPopStep<E>(s: Pool<E>, zero: E, t: nat, a: Action<E>)
    requires Inv(s) && t < |s.pcs| && s.pcs[t].PopWiped?
    ensures Inv(Step(s, zero, t, a))
  {
    ExclusiveStep(s, zero, t, a);
    var n := Step(s, zero, t, a);
    assert s.pushed[..s.head + 1] == s.pushed[..s.head] + [s.pushed[s.head]];
    forall i | n.head <= i < n.tail && !(i == n.head && Wiped(n)) ensures Slotted(n, i) { assert Slotted(s, i); }
  }

  lemma PlainStep<E>(s: Pool<E>, zero: E, t: nat, a: Action<E>)
    requires Inv(s) && t < |s.pcs|
    requires var pc := s.pcs[t]; pc.PushCounted? || pc.PushStored? || pc.PopHeld? || pc.PopCounted? || pc.PopStored?
    ensures Inv(Step(s, zero, t, a))
  {
    ExclusiveStep(s, zero, t, a);
    var n := Step(s, zero, t, a);
    forall i | n.head <= i < n.tail && !(i == n.head && Wiped(n)) ensures Slotted(n, i) { assert Slotted(s, i); }
    if s.pcs[t].PopHeld? && s.head < s.tail { assert Slotted(s, s.head); }
  }

  lemma StepKeepsInv<E>(s: Pool<E>, zero: E, t: nat, a: Action<E>)
    requires Inv(s) && t < |s.pcs|
    ensures Inv(Step(s, zero, t, a))
  {
    var pc := s.pcs[t];
    if !Holds(pc) { OutsideStep(s, zero, t, a); }
    else if pc.PushHeld? { WriteStep(s, zero, t, a); }
    else if pc.PushWrote? { CountPushStep(s, zero, t, a); }
    else if pc.PopRead? { WipeStep(s, zero, t, a); }
    else if pc.PopWiped? { CountPopStep(s, zero, t, a); }
    else { PlainStep(s, zero, t, a); }
  }

  // ── runs ────────────────────────────────────────────────────────────────────

  datatype Move<E> = Move(thread: nat, action: Action<E>)

  ghost predicate Moves<E>(moves: seq<Move<E>>, threads: nat) {
    forall i :: 0 <= i < |moves| ==> moves[i].thread < threads
  }

  function Run<E>(s: Pool<E>, zero: E, moves: seq<Move<E>>): (r: Pool<E>)
    requires Moves(moves, |s.pcs|) && |s.ring| > 0
    ensures |r.pcs| == |s.pcs| && |r.ring| == |s.ring|
  {
    if |moves| == 0 then s
    else
      var before := Run(s, zero, moves[..|moves| - 1]);
      Step(before, zero, moves[|moves| - 1].thread, moves[|moves| - 1].action)
  }

  lemma {:induction false} RunKeepsInv<E>(s: Pool<E>, zero: E, moves: seq<Move<E>>)
    requires Inv(s) && Moves(moves, |s.pcs|)
    ensures Inv(Run(s, zero, moves))
  {
    if |moves| != 0 {
      var m := moves[|moves| - 1];
      RunKeepsInv(s, zero, moves[..|moves| - 1]);
      StepKeepsInv(Run(s, zero, moves[..|moves| - 1]), zero, m.thread, m.action);
    }
  }

  ghost predicate Empty<E>(s: Pool<E>) {
    && |s.ring| > 0 && s.head == s.tail == s.size == 0 && s.lock.None? && s.pushed == [] && s.popped == []
      && s.handed == []
    && forall t :: 0 <= t < |s.pcs| ==> s.pcs[t].Idle?
  }

  /**
    * Under every interleaving the pool is a bounded first-in first-out queue: what callers have been handed is, in
    * order, a prefix of what was pushed, so no entry is handed out twice, and never more than the ring holds is
    * waiting.
    */
  lemma RingIsFifo<E>(s: Pool<E>, zero: E, moves: seq<Move<E>>)
    requires Empty(s) && Moves(moves, |s.pcs|)
    ensures var r := Run(s, zero, moves);
            && r.handed <= r.popped <= r.pushed && |r.popped| - |r.handed| <= 1
            && |r.pushed| - |r.popped| <= |s.ring|
  {
    assert s.handed + InHand(s) == [];
    RunKeepsInv(s, zero, moves);
  }

  /** A `pop` told under the lock that there is nothing is told the truth; so is a refused `push` about a full ring. */
  lemma RefusalsAreTrue<E>(s: Pool<E>, zero: E, t: nat)
    requires Inv(s) && t < |s.pcs| && Step(s, zero, t, Advance).pcs[t].Idle?
    ensures s.pcs[t].PopHeld? ==> |s.pushed| == |s.popped|
    ensures s.pcs[t].PushHeld? ==> |s.pushed| - |s.popped| == |s.ring|
    ensures s.pcs[t].PopCheck? ==> |s.pushed| == |s.popped| || s.lock.Some?
  {}

  // ── the calls as whole operations ───────────────────────────────────────────

  /** The ring as `push` and `pop` change it while they hold the lock. */
  class NoncePool<E> {
    const ring: array<E>
    const bits: nat
    const zero: E
    var head: nat
    var tail: nat
    var size: nat
    ghost var queue: seq<E>

    ghost predicate Valid()
      reads this, ring
    {
      && ring.Length == Words.Pow2(bits) && head <= tail <= head + ring.Length && size == tail - head && |queue| == size
      && forall i {:trigger Held(i)} :: 0 <= i < size ==> Held(i)
    }

    /** The i-th entry waiting is in its slot. */
    ghost predicate Held(i: nat)
      reads this, ring
      requires ring.Length > 0 && i < |queue|
    {
      ring[(head + i) % ring.Length] == queue[i]
    }

    constructor (capacityBits: nat, zero: E)
      ensures Valid() && queue == [] && ring.Length == Words.Pow2(capacityBits) && fresh(ring)
    {
      bits := capacityBits;
      this.zero := zero;
      ring := new E[Words.Pow2(capacityBits)](_ => zero);
      head, tail, size, queue := 0, 0, 0, [];
    }

    method Push(e: E) returns (ok: bool)
      requires Valid()
      modifies this, ring
      ensures Valid() && ok == (|old(queue)| < ring.Length)
      ensures queue == if ok then old(queue) + [e] else old(queue)
    {
      var mask := ring.Length - 1;
      if tail - head > mask { return false; }
      MaskIsRemainder(tail, bits);
      var slot := Words.And(tail, mask);
      forall i | 0 <= i < size ensures (head + i) % ring.Length != slot && ring[(head + i) % ring.Length] == queue[i] {
        SlotsDiffer(head + i, tail, ring.Length);
        assert Held(i);
      }
      ring[slot] := e;
      queue := queue + [e];
      tail := tail + 1;
      size := tail - head;
      return true;
    }

    method Pop() returns (out: Option<E>)
      requires Valid()
      modifies this, ring
      ensures Valid() && (out.Some? <==> old(queue) != [])
      ensures out.Some? ==> out.value == old(queue)[0] && queue == old(queue)[1..]
      ensures out.None? ==> queue == old(queue)
    {
      if size == 0 { return None; }
      if head == tail { return None; }
      var mask := ring.Length - 1;
      MaskIsRemainder(head, bits);
      var slot := Words.And(head, mask);
      assert Held(0);
      out := Some(ring[slot]);
      forall i | 1 <= i < size ensures (head + i) % ring.Length != slot && ring[(head + i) % ring.Length] == queue[i] {
        SlotsDiffer(head, head + i, ring.Length);
        assert Held(i);
      }
      ring[slot] := zero;
      queue := queue[1..];
      head := head + 1;
      size := tail - head;
    }
  }
}
