/** Keccak-256: the permutation on 64-bit lanes inside the sponge. */
module Keccak {
  import opened Basics
  import opened KeccakF
  import opened Sponge

  const ROUND_CONSTANTS: seq<bv64> := EARLY + MIDDLE + LATE

  const EARLY: seq<bv64> := [
    0x0000000000000001, 0x0000000000008082, 0x800000000000808a, 0x8000000080008000,
    0x000000000000808b, 0x0000000080000001, 0x8000000080008081, 0x8000000000008009]

  const MIDDLE: seq<bv64> := [
    0x000000000000008a, 0x0000000000000088, 0x0000000080008009, 0x000000008000000a,
    0x000000008000808b, 0x800000000000008b, 0x8000000000008089, 0x8000000000008003]

  const LATE: seq<bv64> := [
    0x8000000000008002, 0x8000000000000080, 0x000000000000800a, 0x800000008000000a,
    0x8000000080008081, 0x8000000000008080, 0x0000000080000001, 0x8000000080008008]

  const LANES: Ops<bv64> := Ops(
    (a: bv64, b: bv64) => a ^ b,
    (a: bv64, b: bv64) => a & b,
    (a: bv64) => !a,
    (a: bv64, n: nat) => Repeat(Rotl1, a, n % 64))

  /** One place to the left, the top bit coming in at the bottom. */
  function Rotl1(w: bv64): bv64 { (w << 1) | (w >> 63) }

  function Repeat<W>(step: W -> W, w: W, n: nat): W { if n == 0 then w else step(Repeat(step, w, n - 1)) }

  type State = s: seq<bv64> | |s| == 25
    witness [0, 0, 0, 0, 0, 0, 0, 0, 0, 0, 0, 0, 0, 0, 0, 0, 0, 0, 0, 0, 0, 0, 0, 0, 0]

  /** Little-endian lane `i` of a block. */
  function LoadLane(block: seq<Octet>, i: nat): bv64
    requires 8 * i + 8 <= |block|
  {
    var at := 8 * i;
    (block[at] as bv64) | ((block[at + 1] as bv64) << 8) | ((block[at + 2] as bv64) << 16)
    | ((block[at + 3] as bv64) << 24) | ((block[at + 4] as bv64) << 32) | ((block[at + 5] as bv64) << 40)
    | ((block[at + 6] as bv64) << 48) | ((block[at + 7] as bv64) << 56)
  }

  /** The lanes of a block. */
  function BlockLanes(block: seq<Octet>): (lanes: seq<bv64>)
    requires |block| == RATE
    ensures |lanes| == RATE / 8
  {
    seq(RATE / 8, i requires 0 <= i < RATE / 8 => LoadLane(block, i))
  }

  /** Each given lane mixed into the lane of the state in its place. */
  function MixIn<W>(xor: (W, W) -> W, s: seq<W>, lanes: seq<W>): (r: seq<W>)
    ensures |r| == |s|
  {
    seq(|s|, i requires 0 <= i < |s| => if i < |lanes| then xor(s[i], lanes[i]) else s[i])
  }

  function AbsorbBlock(s: State, block: seq<Octet>): State
    requires |block| == RATE
  {
    Rounds(LANES, MixIn(LANES.xor, s, BlockLanes(block)), ROUND_CONSTANTS)
  }

  /** The loop that mixes lanes in, one by one. */
  method MixInPlace<W>(xor: (W, W) -> W, s: array<W>, lanes: seq<W>)
    requires |lanes| <= s.Length
    modifies s
    ensures s[..] == MixIn(xor, old(s[..]), lanes)
  {
    for i := 0 to |lanes|
      invariant forall j :: 0 <= j < i ==> s[j] == xor(old(s[j]), lanes[j])
      invariant forall j :: i <= j < s.Length ==> s[j] == old(s[j])
    {
      s[i] := xor(s[i], lanes[i]);
    }
  }

  /** `absorbBlock` on the state array. */
  method AbsorbInPlace(s: array<bv64>, block: seq<Octet>)
    requires s.Length == 25 && |block| == RATE
    modifies s
    ensures s[..] == AbsorbBlock(old(s[..]), block)
  {
    MixInPlace(LANES.xor, s, BlockLanes(block));
    Permute(LANES, s, ROUND_CONSTANTS);
  }

  function BlockStep(s: seq<bv64>, block: seq<Octet>): (r: seq<bv64>)
    ensures |s| == 25 ==> |r| == 25
  {
    if |s| == 25 && |block| == RATE then AbsorbBlock(s, block) else s
  }

  const CORE: Core<seq<bv64>> := Core(BlockStep)

  lemma AbsorbKeepsSize(m: seq<Octet>)
    requires |m| % RATE == 0
    ensures |Absorb(CORE, ZERO, m)| == 25
  {
    AbsorbKeeps(CORE, ZERO, m, (s: seq<bv64>) => |s| == 25);
  }

  const ZERO: State := [0, 0, 0, 0, 0, 0, 0, 0, 0, 0, 0, 0, 0, 0, 0, 0, 0, 0, 0, 0, 0, 0, 0, 0, 0]

  function LowByte(w: bv64): Octet { (w & 0xFF) as bv8 }

  function StoreLane(w: bv64): seq<Octet> {
    [LowByte(w), LowByte(w >> 8), LowByte(w >> 16), LowByte(w >> 24),
     LowByte(w >> 32), LowByte(w >> 40), LowByte(w >> 48), LowByte(w >> 56)]
  }

  /** The first 32 bytes of the state. */
  function Squeeze(s: State): (digest: seq<Octet>)
    ensures |digest| == 32
  {
    StoreLane(s[0]) + StoreLane(s[1]) + StoreLane(s[2]) + StoreLane(s[3])
  }

  /** Keccak-256 of a message: pad10*1, absorb at rate 136, squeeze 32 bytes. */
  function Keccak256(m: seq<Octet>): seq<Octet> {
    AbsorbKeepsSize(m + Pad(|m|));
    Squeeze(Absorb(CORE, ZERO, m + Pad(|m|)))
  }

  /** However the input is cut into `update` calls, the digest is the one of the concatenation. */
  method HashAll(chunks: seq<seq<Octet>>) returns (digest: seq<Octet>)
    ensures digest == Keccak256(Joined(chunks))
  {
    AbsorbKeepsSize(Joined(chunks) + Pad(|Joined(chunks)|));
    var state := HashChunks(CORE, ZERO, chunks);
    digest := Squeeze(state);
  }
}
