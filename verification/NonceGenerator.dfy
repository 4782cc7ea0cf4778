/** The lock-free nonce source of src/om/Actions.cpp, as the steps of any number of callers. */
module NonceGenerator {

  /** Where a caller stands: before its load, or with a value loaded and a compare-and-swap ahead. */
  datatype Caller = Resting | Called(now: nat) | Loaded(now: nat, prev: nat)

  /** A successful swap: the caller's clock reading and the nonce it got. */
  datatype Grant = Grant(now: nat, nonce: nat)

  datatype State = State(last: nat, callers: seq<Caller>, grants: seq<Grant>)

  datatype Action = Call(now: nat) | Load | Swap(spurious: bool)

  function Candidate(now: nat, prev: nat): nat { if now > prev then now else prev + 1 }

  /** One atomic step of caller `t`; a step that is not its turn changes nothing. */
  function Step(s: State, t: nat, a: Action): State
    requires t < |s.callers|
  {
    match (s.callers[t], a)
    case (Resting, Call(now)) => s.(callers := s.callers[t := Called(now)])
    case (Called(now), Load) => s.(callers := s.callers[t := Loaded(now, s.last)])
    case (Loaded(now, prev), Swap(spurious)) =>
      if prev == s.last && !spurious then
        var nonce := Candidate(now, prev);
        State(nonce, s.callers[t := Resting], s.grants + [Grant(now, nonce)])
      else s.(callers := s.callers[t := Loaded(now, s.last)])
    case _ => s
  }

  datatype Move = Move(caller: nat, action: Action)

  function Run(s: State, moves: seq<Move>): (r: State)
    requires forall i :: 0 <= i < |moves| ==> moves[i].caller < |s.callers|
    ensures |r.callers| == |s.callers|
  {
    if moves == [] then s
    else Step(Run(s, moves[..|moves| - 1]), moves[|moves| - 1].caller, moves[|moves| - 1].action)
  }

  /** The nonce granted before the i-th, or the starting value. */
  function Before(start: nat, grants: seq<Grant>, i: nat): nat
    requires i <= |grants|
  {
    if i == 0 then start else grants[i - 1].nonce
  }

  /** Each nonce is the later of the caller's clock and one more than the nonce before it. */
  ghost predicate Linked(start: nat, grants: seq<Grant>, i: nat)
    requires i < |grants|
  {
    grants[i].nonce == Candidate(grants[i].now, Before(start, grants, i))
  }

  ghost predicate Chained(start: nat, grants: seq<Grant>) {
    forall i {:trigger Linked(start, grants, i)} :: 0 <= i < |grants| ==> Linked(start, grants, i)
  }

  ghost predicate Inv(start: nat, s: State) {
    && Chained(start, s.grants) && s.last == Before(start, s.grants, |s.grants|)
    && forall t :: 0 <= t < |s.callers| && s.callers[t].Loaded? ==> s.callers[t].prev <= s.last
  }

  lemma StepKeepsInv(start: nat, s: State, t: nat, a: Action)
    requires Inv(start, s) && t < |s.callers|
    ensures Inv(start, Step(s, t, a))
  {
    var n := Step(s, t, a);
    if n.grants != s.grants {
      forall i | 0 <= i < |n.grants| ensures Linked(start, n.grants, i) {
        if i < |s.grants| { assert Linked(start, s.grants, i); }
      }
    }
  }

  lemma {:induction false} RunKeepsInv(start: nat, s: State, moves: seq<Move>)
    requires Inv(start, s) && forall i :: 0 <= i < |moves| ==> moves[i].caller < |s.callers|
    ensures Inv(start, Run(s, moves))
  {
    if moves != [] {
      var m := moves[|moves| - 1];
      RunKeepsInv(start, s, moves[..|moves| - 1]);
      StepKeepsInv(start, Run(s, moves[..|moves| - 1]), m.caller, m.action);
    }
  }

  lemma {:induction false} ChainIncreases(start: nat, grants: seq<Grant>, i: nat, j: nat)
    requires Chained(start, grants) && i < j < |grants|
    ensures grants[i].nonce < grants[j].nonce
  {
    if i < j - 1 { ChainIncreases(start, grants, i, j - 1); }
    assert Linked(start, grants, j);
  }

  /**
    * Under every interleaving and every spurious failure, nonces strictly increase in the order of the swaps, each is
    * at least its caller's clock reading, and none is larger than that reading or the previous nonce makes necessary.
    */
  lemma NoncesIncrease(callers: seq<Caller>, moves: seq<Move>)
    requires forall t :: 0 <= t < |callers| ==> callers[t].Resting?
    requires forall i :: 0 <= i < |moves| ==> moves[i].caller < |callers|
    ensures var g := Run(State(0, callers, []), moves).grants;
            && (forall i, j :: 0 <= i < j < |g| ==> g[i].nonce < g[j].nonce)
            && (forall i :: 0 <= i < |g| ==> g[i].nonce >= g[i].now)
            && (forall i :: 0 <= i < |g| ==> g[i].nonce == g[i].now || g[i].nonce == Before(0, g, i) + 1)
  {
    RunKeepsInv(0, State(0, callers, []), moves);
    var g := Run(State(0, callers, []), moves).grants;
    forall i, j | 0 <= i < j < |g| ensures g[i].nonce < g[j].nonce { ChainIncreases(0, g, i, j); }
    forall i | 0 <= i < |g|
      ensures g[i].nonce >= g[i].now && (g[i].nonce == g[i].now || g[i].nonce == Before(0, g, i) + 1)
    {
      assert Linked(0, g, i);
    }
  }
}
