/** Memory of transactions that overflowed the block zk gas budget, keyed by a digest of the
    execution state each overflowed at (crates/block/src/tx_selection/overflow.rs). */
module OverflowMemory {
  import opened Words
  import opened BlockExecution

  type Digest = nat

  class ZkOverflowMemory {
    var states: map<nat, Digest>

    constructor ()
      ensures states == map[]
    {
      states := map[];
    }

    method Record(tx: nat, state: Digest)
      modifies this
      ensures states == old(states)[tx := state]
    {
      states := states[tx := state];
    }

    method State(tx: nat) returns (state: Option<Digest>)
      ensures state == if tx in states then Some(states[tx]) else None
    {
      state := if tx in states then Some(states[tx]) else None;
    }

    method Forget(tx: nat)
      modifies this
      ensures states == old(states) - {tx}
    {
      states := states - {tx};
    }

    method Retain(keep: set<nat>)
      modifies this
      ensures states.Keys == old(states).Keys * keep
      ensures forall tx :: tx in states ==> states[tx] == old(states)[tx]
    {
      states := map tx | tx in states && tx in keep :: states[tx];
    }
  }

  // ----- What a digest stands for -----

  /** An environment and the block being executed in it. */
  datatype Situation = Situation(env: Env, exec: Exec)

  /** The digests in `reached` stand for situations: the advanced digest stands for the situation
      that trying the transaction leads to. `txOf` is the transaction a hash belongs to. */
  ghost predicate Faithful(
    advance: (Digest, nat) -> Digest, sem: Digest -> Situation, txOf: nat -> Tx, reached: iset<Digest>)
  {
    forall d: Digest, hash: nat :: Follows(advance, sem, txOf, reached, d, hash)
  }

  ghost predicate Follows(advance: (Digest, nat) -> Digest, sem: Digest -> Situation, txOf: nat -> Tx,
                          reached: iset<Digest>, d: Digest, hash: nat)
  {
    d in reached ==>
      && advance(d, hash) in reached
      && sem(d).env.Sane()
      && sem(advance(d, hash)) == Situation(sem(d).env, Try(sem(d).env, sem(d).exec, txOf(hash)))
  }

  ghost predicate Overflows(s: Situation, tx: Tx) {
    s.env.Sane() && Judge(s.env, s.exec, tx) == Refused(ZkGasLimitExceeded)
  }

  /** Every remembered transaction overflows at the situation it is remembered at. */
  ghost predicate Sound(states: map<nat, Digest>, sem: Digest -> Situation, txOf: nat -> Tx) {
    forall hash :: hash in states ==> Overflows(sem(states[hash]), txOf(hash))
  }

  // ----- Collision-free digests stand for situations -----

  /** The digest after committing `hashes`, in order, on top of `seed`. */
  function AdvanceAll(advance: (Digest, nat) -> Digest, seed: Digest, hashes: seq<nat>): Digest {
    if hashes == [] then seed
    else advance(AdvanceAll(advance, seed, hashes[..|hashes| - 1]), hashes[|hashes| - 1])
  }

  /** No two inputs of `advance` share a digest, and no seed is the digest of an advance. */
  ghost predicate CollisionFree(advance: (Digest, nat) -> Digest, seeds: iset<Digest>) {
    && (forall d, h, d', h' :: advance(d, h) == advance(d', h') ==> d == d' && h == h')
    && (forall d, h :: advance(d, h) !in seeds)
  }

  lemma {:induction false} AdvanceAllInjective(
    advance: (Digest, nat) -> Digest, seeds: iset<Digest>, s: Digest, a: seq<nat>, t: Digest, b: seq<nat>)
    requires CollisionFree(advance, seeds) && s in seeds && t in seeds
    requires AdvanceAll(advance, s, a) == AdvanceAll(advance, t, b)
    ensures s == t && a == b
    decreases |a|
  {
    if a != [] && b != [] {
      var a', b' := a[..|a| - 1], b[..|b| - 1];
      AdvanceAllInjective(advance, seeds, s, a', t, b');
      assert a == a' + [a[|a| - 1]] && b == b' + [b[|b| - 1]];
    }
  }

  /** The block reached by committing the transactions of `hashes`, or where that first fails. */
  ghost function Replay(txOf: nat -> Tx, at: Situation, hashes: seq<nat>): Exec
    requires at.env.Sane()
  {
    if hashes == [] then at.exec
    else Try(at.env, Replay(txOf, at, hashes[..|hashes| - 1]), txOf(hashes[|hashes| - 1]))
  }

  ghost predicate Decodes(advance: (Digest, nat) -> Digest, seeds: iset<Digest>, d: Digest, p: (Digest, seq<nat>)) {
    p.0 in seeds && AdvanceAll(advance, p.0, p.1) == d
  }

  /** The situation a digest stands for: decode it to a seed and committed hashes, and replay. */
  ghost function Meaning(advance: (Digest, nat) -> Digest, seeds: iset<Digest>, start: Digest -> Situation,
                         txOf: nat -> Tx, d: Digest): Situation
    requires forall s :: s in seeds ==> start(s).env.Sane()
  {
    if exists p :: Decodes(advance, seeds, d, p) then
      var p :| Decodes(advance, seeds, d, p);
      Situation(start(p.0).env, Replay(txOf, start(p.0), p.1))
    else start(d)
  }

  lemma MeaningOfReachable(advance: (Digest, nat) -> Digest, seeds: iset<Digest>, start: Digest -> Situation,
                           txOf: nat -> Tx, seed: Digest, hashes: seq<nat>)
    requires CollisionFree(advance, seeds) && seed in seeds
    requires forall s :: s in seeds ==> start(s).env.Sane()
    ensures Meaning(advance, seeds, start, txOf, AdvanceAll(advance, seed, hashes))
            == Situation(start(seed).env, Replay(txOf, start(seed), hashes))
  {
    var d := AdvanceAll(advance, seed, hashes);
    assert Decodes(advance, seeds, d, (seed, hashes));
    forall p | Decodes(advance, seeds, d, p)
      ensures p == (seed, hashes)
    {
      AdvanceAllInjective(advance, seeds, p.0, p.1, seed, hashes);
    }
  }

  ghost predicate IsReachable(advance: (Digest, nat) -> Digest, seeds: iset<Digest>, d: Digest) {
    exists p :: Decodes(advance, seeds, d, p)
  }

  lemma MeaningFollows(advance: (Digest, nat) -> Digest, seeds: iset<Digest>, start: Digest -> Situation,
                       txOf: nat -> Tx, d: Digest, hash: nat)
    requires CollisionFree(advance, seeds) && IsReachable(advance, seeds, d)
    requires forall s :: s in seeds ==> start(s).env.Sane()
    ensures IsReachable(advance, seeds, advance(d, hash))
    ensures var at := Meaning(advance, seeds, start, txOf, d);
      && at.env.Sane()
      && Meaning(advance, seeds, start, txOf, advance(d, hash)) ==
           Situation(at.env, Try(at.env, at.exec, txOf(hash)))
  {
    var p :| Decodes(advance, seeds, d, p);
    var (seed, hashes) := p;
    assert (hashes + [hash])[..|hashes|] == hashes;
    assert Decodes(advance, seeds, advance(d, hash), (seed, hashes + [hash]));
    MeaningOfReachable(advance, seeds, start, txOf, seed, hashes);
    MeaningOfReachable(advance, seeds, start, txOf, seed, hashes + [hash]);
  }

  /** With collision-free digests the hypothesis of the memory's soundness holds: every digest
      reachable from a seed stands for the block reached by the commits it encodes. */
  lemma CollisionFreeIsFaithful(advance: (Digest, nat) -> Digest, seeds: iset<Digest>, start: Digest -> Situation,
                                txOf: nat -> Tx, sem: Digest -> Situation)
    requires CollisionFree(advance, seeds)
    requires forall s :: s in seeds ==> start(s).env.Sane()
    requires forall d :: sem(d) == Meaning(advance, seeds, start, txOf, d)
    ensures Faithful(advance, sem, txOf, iset d: Digest | IsReachable(advance, seeds, d))
  {
    var reached := iset d: Digest | IsReachable(advance, seeds, d);
    forall d, hash
      ensures Follows(advance, sem, txOf, reached, d, hash)
    {
      if d in reached {
        MeaningFollows(advance, seeds, start, txOf, d, hash);
      }
    }
  }
}
