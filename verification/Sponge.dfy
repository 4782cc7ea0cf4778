/** The buffered, incremental sponge of src/crypto/Keccak.cpp over any block-absorbing step. */
module Sponge {
  import opened Basics

  const RATE: nat := 136

  /** The step that mixes one full block into the state. */
  datatype Core<!S> = Core(absorb: (S, seq<Octet>) -> S)

  // ── one-shot definition, sections 4 and 5.1 of FIPS 202 ─────────────────────

  function Absorb<S>(c: Core<S>, s: S, m: seq<Octet>): S
    requires |m| % RATE == 0
    decreases |m|
  {
    if |m| == 0 then s else Absorb(c, c.absorb(s, m[..RATE]), m[RATE..])
  }

  function Zeros(n: nat): (z: seq<Octet>)
    ensures |z| == n && forall i :: 0 <= i < n ==> z[i] == 0
  {
    if n == 0 then [] else Zeros(n - 1) + [0]
  }

  /** pad10*1 on whole bytes: one to 136 bytes that start with bit 1, end with bit 1 and are zero between. */
  function Pad(length: nat): (p: seq<Octet>)
    ensures (length + |p|) % RATE == 0
  {
    var n := RATE - length % RATE;
    if n == 1 then [0x81] else [0x01] + Zeros(n - 2) + [0x80]
  }

  lemma {:induction false} AbsorbSnoc<S>(c: Core<S>, s: S, m: seq<Octet>, block: seq<Octet>)
    requires |m| % RATE == 0 && |block| == RATE
    ensures (|m| + RATE) % RATE == 0
    ensures Absorb(c, s, m + block) == c.absorb(Absorb(c, s, m), block)
    decreases |m|
  {
    if |m| == 0 {
      assert m + block == block && block[..RATE] == block && block[RATE..] == [];
      assert Absorb(c, c.absorb(s, block), []) == c.absorb(s, block);
    } else {
      assert (m + block)[..RATE] == m[..RATE] && (m + block)[RATE..] == m[RATE..] + block;
      AbsorbSnoc(c, c.absorb(s, m[..RATE]), m[RATE..], block);
    }
  }

  /** What every block step keeps, absorbing keeps. */
  lemma {:induction false} AbsorbKeeps<S(!new)>(c: Core<S>, s: S, m: seq<Octet>, p: S -> bool)
    requires |m| % RATE == 0 && p(s) && forall t, b :: p(t) ==> p(c.absorb(t, b))
    ensures p(Absorb(c, s, m))
    decreases |m|
  {
    if |m| != 0 { AbsorbKeeps(c, c.absorb(s, m[..RATE]), m[RATE..], p); }
  }

  /** `message` has been absorbed up to a block boundary, leaving `tail`. */
  ghost predicate Absorbed<S>(c: Core<S>, start: S, message: seq<Octet>, state: S, tail: seq<Octet>) {
    && |tail| <= |message| && message[|message| - |tail|..] == tail
    && (|message| - |tail|) % RATE == 0
    && state == Absorb(c, start, message[..|message| - |tail|])
  }

  lemma AbsorbNext<S>(c: Core<S>, start: S, message: seq<Octet>, state: S, tail: seq<Octet>)
    requires Absorbed(c, start, message, state, tail) && |tail| >= RATE
    ensures Absorbed(c, start, message, c.absorb(state, tail[..RATE]), tail[RATE..])
  {
    var k := |message| - |tail|;
    AbsorbSnoc(c, start, message[..k], tail[..RATE]);
    assert message[..k + RATE] == message[..k] + tail[..RATE];
    assert message[k + RATE..] == tail[RATE..];
  }

  lemma Feed<S>(c: Core<S>, start: S, message: seq<Octet>, state: S, tail: seq<Octet>, data: seq<Octet>)
    requires Absorbed(c, start, message, state, tail)
    ensures Absorbed(c, start, message + data, state, tail + data)
  {
    var k := |message| - |tail|;
    assert (message + data)[..k] == message[..k] && (message + data)[k..] == message[k..] + data;
  }

  // ── the incremental object ──────────────────────────────────────────────────

  class Hasher<S> {
    const core: Core<S>
    var state: S
    const buffer: array<Octet>
    var buffered: nat
    ghost const start: S
    ghost var message: seq<Octet>

    ghost predicate Valid()
      reads this, buffer
    {
      buffer.Length == RATE && buffered < RATE && Absorbed(core, start, message, state, buffer[..buffered])
    }

    constructor (core: Core<S>, zero: S)
      ensures Valid() && fresh(buffer) && message == [] && this.core == core && start == zero
    {
      this.core := core;
      state := zero;
      buffer := new Octet[RATE];
      buffered := 0;
      start := zero;
      message := [];
    }

    /** memcpy of `data` into the buffer at `at`. */
    method Store(at: nat, data: seq<Octet>)
      requires at + |data| <= buffer.Length
      modifies buffer
      ensures buffer[..at + |data|] == old(buffer[..at]) + data
    {
      forall i | 0 <= i < |data| { buffer[at + i] := data[i]; }
    }

    /** Completes a partly filled buffer from `data` and absorbs it once it is full. */
    method TopUp(data: seq<Octet>) returns (rest: seq<Octet>)
      requires buffer.Length == RATE && 0 < buffered < RATE
      requires Absorbed(core, start, message, state, buffer[..buffered] + data)
      modifies this`state, this`buffered, buffer
      ensures buffered == 0 || (rest == [] && buffered < RATE)
      ensures Absorbed(core, start, message, state, buffer[..buffered] + rest)
    {
      ghost var tail := buffer[..buffered] + data;
      var take := if |data| < RATE - buffered then |data| else RATE - buffered;
      Store(buffered, data[..take]);
      buffered := buffered + take;
      rest := data[take..];
      assert buffer[..buffered] + rest == tail;
      if buffered == RATE {
        assert tail[..RATE] == buffer[..] && tail[RATE..] == rest;
        AbsorbNext(core, start, message, state, tail);
        state := core.absorb(state, buffer[..]);
        buffered := 0;
        assert buffer[..0] + rest == rest;
      }
    }

    /** Absorbs every whole block straight from the input. */
    method AbsorbBlocks(data: seq<Octet>) returns (rest: seq<Octet>)
      requires Absorbed(core, start, message, state, data)
      modifies this`state
      ensures Absorbed(core, start, message, state, rest) && |rest| < RATE
    {
      rest := data;
      while |rest| >= RATE
        invariant Absorbed(core, start, message, state, rest)
      {
        AbsorbNext(core, start, message, state, rest);
        state := core.absorb(state, rest[..RATE]);
        rest := rest[RATE..];
      }
    }

    /** Absorbs the whole blocks and buffers what is left over. */
    method TakeFrom(data: seq<Octet>)
      requires buffer.Length == RATE && buffered == 0 && Absorbed(core, start, message, state, data)
      modifies this`state, this`buffered, buffer
      ensures Valid()
    {
      var rest := AbsorbBlocks(data);
      Store(0, rest);
      buffered := |rest|;
      assert buffer[..buffered] == rest;
    }

    method Update(data: seq<Octet>)
      requires Valid()
      modifies this, buffer
      ensures Valid() && message == old(message) + data
    {
      Feed(core, start, message, state, buffer[..buffered], data);
      message := message + data;
      var rest := data;
      if buffered != 0 { rest := TopUp(data); }
      if buffered != 0 {
        assert buffer[..buffered] + rest == buffer[..buffered];
        return;
      }
      assert buffer[..0] + rest == rest;
      TakeFrom(rest);
    }

    /** pad10*1 after what is buffered. */
    method PadBuffer()
      requires Valid()
      modifies buffer
      ensures buffer[..] == old(buffer[..buffered]) + Pad(|message|)
    {
      PadLength(|message|, buffered);
      forall i | buffered <= i < RATE { buffer[i] := 0; }
      buffer[buffered] := buffer[buffered] ^ 0x01;
      buffer[RATE - 1] := buffer[RATE - 1] ^ 0x80;
    }

    /** Pads, absorbs the last block and hands out the state the digest is read from. */
    method Finalize() returns (out: S)
      requires Valid()
      modifies this, buffer
      ensures out == Absorb(core, start, old(message) + Pad(|old(message)|))
    {
      Feed(core, start, message, state, buffer[..buffered], Pad(|message|));
      PadBuffer();
      LastBlock(core, start, message + Pad(|message|), state, buffer[..]);
      state := core.absorb(state, buffer[..]);
      out := state;
    }
  }

  lemma LastBlock<S>(c: Core<S>, start: S, all: seq<Octet>, state: S, block: seq<Octet>)
    requires Absorbed(c, start, all, state, block) && |block| == RATE
    ensures c.absorb(state, block) == Absorb(c, start, all)
  {
    AbsorbNext(c, start, all, state, block);
    assert block[..RATE] == block && all[..|all|] == all;
  }

  /** However the input is cut into `update` calls, the final state is the one of the concatenation. */
  method HashChunks<S>(core: Core<S>, zero: S, chunks: seq<seq<Octet>>) returns (out: S)
    ensures out == Absorb(core, zero, Joined(chunks) + Pad(|Joined(chunks)|))
  {
    var h := new Hasher<S>(core, zero);
    for i := 0 to |chunks|
      invariant fresh(h) && fresh(h.buffer) && h.Valid() && h.core == core && h.start == zero
      invariant h.message == Joined(chunks[..i])
    {
      h.Update(chunks[i]);
      assert chunks[..i + 1] == chunks[..i] + [chunks[i]];
      JoinedAppend(chunks[..i], chunks[i]);
    }
    assert chunks[..|chunks|] == chunks;
    out := h.Finalize();
  }

  lemma PadLength(length: nat, buffered: nat)
    requires buffered < RATE && buffered <= length && (length - buffered) % RATE == 0
    ensures length % RATE == buffered && |Pad(length)| == RATE - buffered
  {}
}
