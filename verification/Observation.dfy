/** Which checkpoint a checkpoint-sync node takes as observed for an epoch, while L1 extends,
    reorganizes and re-observes. */
module Observation {
  import opened Chain
  import opened Seqs

  type L1Id = nat

  /** The recorded references and the per-epoch index of commitments that have one. */
  datatype ObsDb = ObsDb(refs: map<EpochCommitment, L1Ref>, index: map<nat, seq<EpochCommitment>>)

  function RowAt(db: ObsDb, epoch: nat): seq<EpochCommitment> {
    if epoch in db.index then db.index[epoch] else []
  }

  /** Records an observation, replacing an earlier one of the same commitment. */
  function Put(db: ObsDb, c: EpochCommitment, ref: L1Ref): ObsDb {
    var row := RowAt(db, c.epoch);
    ObsDb(db.refs[c := ref], if c in row then db.index else db.index[c.epoch := row + [c]])
  }

  /** Deleting a payload drops the reference and leaves the index. */
  function DropRef(db: ObsDb, c: EpochCommitment): ObsDb {
    db.(refs := db.refs - {c})
  }

  /** L1 as ASM sees it: each block's parent, and the checkpoints accepted in it. */
  datatype L1 = L1(parent: L1Id -> L1Id, accepted: L1Id -> set<EpochCommitment>)

  /** The canonical L1 chain from height `base` up, and the recorded observations. */
  datatype Node = Node(base: nat, chain: seq<L1Id>, db: ObsDb)

  function CanonicalAt(n: Node, height: nat): Option<L1Id> {
    if n.base <= height < n.base + |n.chain| then Some(n.chain[height - n.base]) else None
  }

  predicate OnChain(n: Node, ref: L1Ref) {
    CanonicalAt(n, ref.height) == Some(ref.blkid)
  }

  predicate Survives(n: Node, c: EpochCommitment) {
    c in n.db.refs && OnChain(n, n.db.refs[c])
  }

  /** The candidates whose reference is canonical. */
  function Survivors(n: Node, cs: seq<EpochCommitment>): seq<EpochCommitment> {
    if cs == [] then [] else (if Survives(n, cs[0]) then [cs[0]] else []) + Survivors(n, cs[1..])
  }

  datatype LookupError = AmbiguousObservation(epoch: nat)

  function Choose(survivors: seq<EpochCommitment>, epoch: nat): Result<Option<EpochCommitment>, LookupError> {
    if |survivors| == 0 then Ok(None) else if |survivors| == 1 then Ok(Some(survivors[0]))
    else Err(AmbiguousObservation(epoch))
  }

  /** The candidates for an epoch: its row, or for an epoch without one the recorded commitments
      of that epoch, in some order. */
  ghost predicate IsCandidates(db: ObsDb, epoch: nat, cs: seq<EpochCommitment>) {
    if epoch in db.index then cs == db.index[epoch]
    else
      && (forall i, j :: 0 <= i < j < |cs| ==> cs[i] != cs[j])
      && forall c :: c in cs <==> c in db.refs && c.epoch == epoch
  }

  class CheckpointSync {
    var node: Node

    constructor (node: Node)
      ensures this.node == node
    {
      this.node := node;
    }

    /** Reads an epoch's row, first building and storing it when there is none. */
    method ObservedCommitments(epoch: nat) returns (cs: seq<EpochCommitment>)
      modifies this
      ensures IsCandidates(old(node).db, epoch, cs)
      ensures node == old(node).(db := old(node).db.(index := old(node).db.index[epoch := cs]))
    {
      if epoch in node.db.index {
        cs := node.db.index[epoch];
        assert node.db.index[epoch := cs] == node.db.index;
        return;
      }
      cs := [];
      var todo := node.db.refs.Keys;
      while todo != {}
        invariant todo <= node.db.refs.Keys && node == old(node)
        invariant forall i, j :: 0 <= i < j < |cs| ==> cs[i] != cs[j]
        invariant forall c :: c in cs <==> c in node.db.refs && c !in todo && c.epoch == epoch
        decreases todo
      {
        var c :| c in todo;
        if c.epoch == epoch {
          cs := cs + [c];
        }
        todo := todo - {c};
      }
      node := node.(db := node.db.(index := node.db.index[epoch := cs]));
    }

    method GetObservedCheckpointForEpoch(
      epoch: nat) returns (r: Result<Option<EpochCommitment>, LookupError>, ghost cs: seq<EpochCommitment>)
      modifies this
      ensures IsCandidates(old(node).db, epoch, cs)
      ensures r == Choose(Survivors(old(node), cs), epoch)
      ensures node == old(node).(db := old(node).db.(index := old(node).db.index[epoch := cs]))
    {
      var candidates := ObservedCommitments(epoch);
      cs := candidates;
      var canonical: Option<EpochCommitment> := None;
      var i := 0;
      assert cs[0..] == cs;
      while i < |candidates|
        invariant 0 <= i <= |cs|
        invariant Survivors(old(node), cs)
               == (if canonical.Some? then [canonical.value] else []) + Survivors(old(node), cs[i..])
      {
        var c := candidates[i];
        assert cs[i..][1..] == cs[i + 1..];
        i := i + 1;
        if c !in node.db.refs {
          continue;
        }
        var ref := node.db.refs[c];
        if CanonicalAt(node, ref.height) != Some(ref.blkid) {
          continue;
        }
        if canonical.Some? {
          return Err(AmbiguousObservation(epoch)), cs;
        }
        canonical := Some(c);
      }
      r := Ok(canonical);
    }
  }

  /** The reference recorded for `c` is to the block that the chain has at that height. */
  ghost predicate SeenOnChain(n: Node, c: EpochCommitment) {
    && c in n.db.refs
    && n.base <= n.db.refs[c].height < n.base + |n.chain|
    && n.chain[n.db.refs[c].height - n.base] == n.db.refs[c].blkid
  }

  lemma {:induction false} SurvivorsAt(n: Node, cs: seq<EpochCommitment>) returns (ps: seq<nat>)
    ensures Increasing(ps) && forall i: nat :: i in ps <==> i < |cs| && SeenOnChain(n, cs[i])
    ensures |Survivors(n, cs)| == |ps|
    ensures forall k :: 0 <= k < |ps| ==> ps[k] < |cs| && Survivors(n, cs)[k] == cs[ps[k]]
    decreases |cs|
  {
    ps := [];
    if cs != [] {
      var first := SeenOnChain(n, cs[0]);
      assert first <==> Survives(n, cs[0]);
      var qs := SurvivorsAt(n, cs[1..]);
      ps := Positions(first, qs);
      PositionsAre(first, qs);
      assert forall i :: 0 < i < |cs| ==> cs[i] == cs[1..][i - 1];
      SurvivorsNext(n, cs, qs, ps);
    }
  }

  lemma {:induction false} SurvivorsNext(n: Node, cs: seq<EpochCommitment>, qs: seq<nat>, ps: seq<nat>)
    requires cs != [] && |Survivors(n, cs[1..])| == |qs| && ps == Positions(Survives(n, cs[0]), qs)
    requires forall k :: 0 <= k < |qs| ==> qs[k] < |cs| - 1 && Survivors(n, cs[1..])[k] == cs[qs[k] + 1]
    ensures |Survivors(n, cs)| == |ps|
    ensures forall k :: 0 <= k < |ps| ==> ps[k] < |cs| && Survivors(n, cs)[k] == cs[ps[k]]
  {
  }

  /** What a lookup answers, on any node: nothing when no candidate's reference is canonical, the
      candidate when exactly one's is, and an error when two are. */
  lemma {:induction false} AnswerCounts(n: Node, cs: seq<EpochCommitment>, epoch: nat)
    ensures
      var r := Choose(Survivors(n, cs), epoch);
      && (r == Ok(None) <==> forall i :: 0 <= i < |cs| ==> !SeenOnChain(n, cs[i]))
      && (r == Err(AmbiguousObservation(epoch)) <==>
          exists i, j :: 0 <= i < j < |cs| && SeenOnChain(n, cs[i]) && SeenOnChain(n, cs[j]))
      && (forall c :: r == Ok(Some(c)) <==> exists i :: OnlySeen(n, cs, i) && cs[i] == c)
  {
    var ps := SurvivorsAt(n, cs);
    if |ps| == 0 {
      assert forall i: nat :: i !in ps;
    } else if |ps| == 1 {
      assert ps[0] in ps && forall i: nat :: i in ps ==> i == ps[0];
      assert OnlySeen(n, cs, ps[0]);
    } else {
      assert ps[0] in ps && ps[1] in ps && ps[0] < ps[1];
    }
  }

  /** Candidate `i` is the only one whose reference is canonical. */
  ghost predicate OnlySeen(n: Node, cs: seq<EpochCommitment>, i: int) {
    && 0 <= i < |cs| && SeenOnChain(n, cs[i])
    && forall j :: 0 <= j < |cs| && j != i ==> !SeenOnChain(n, cs[j])
  }

  // ---------------------------------------------------------------- every run

  predicate Linked(l1: L1, chain: seq<L1Id>) {
    forall i :: 0 < i < |chain| ==> ChildAt(l1, chain, i)
  }

  predicate ChildAt(l1: L1, chain: seq<L1Id>, i: nat)
    requires 0 < i < |chain|
  {
    l1.parent(chain[i]) == chain[i - 1]
  }

  /** At most one checkpoint per epoch is accepted along the chain. */
  ghost predicate OnePerEpoch(l1: L1, chain: seq<L1Id>) {
    forall i, j, c, d ::
      0 <= i < |chain| && 0 <= j < |chain| && c in l1.accepted(chain[i]) && d in l1.accepted(chain[j])
      && c.epoch == d.epoch
      ==> c == d
  }

  /** ASM accepts at most one checkpoint per epoch on any single L1 chain. */
  ghost predicate AsmSound(l1: L1) {
    forall chain :: Linked(l1, chain) ==> OnePerEpoch(l1, chain)
  }

  /** L1 grows by a block, falls back to a length, ASM's acceptance of `c` in some block, whether
      still canonical or not, is recorded; a payload is deleted; an epoch is looked up. */
  datatype Step =
    | Extend(b: L1Id)
    | Reorg(len: nat)
    | Observe(c: EpochCommitment, ref: L1Ref)
    | DeletePayload(c: EpochCommitment)
    | Lookup(epoch: nat, cs: seq<EpochCommitment>)

  ghost predicate Enabled(l1: L1, n: Node, s: Step) {
    match s
    case Extend(b) => n.chain != [] ==> l1.parent(b) == n.chain[|n.chain| - 1]
    case Reorg(len) => len <= |n.chain|
    case Observe(c, ref) => c in l1.accepted(ref.blkid)
    case DeletePayload(c) => true
    case Lookup(epoch, cs) => IsCandidates(n.db, epoch, cs)
  }

  function Next(n: Node, s: Step): Node {
    match s
    case Extend(b) => n.(chain := n.chain + [b])
    case Reorg(len) => if len <= |n.chain| then n.(chain := n.chain[..len]) else n
    case Observe(c, ref) => n.(db := Put(n.db, c, ref))
    case DeletePayload(c) => n.(db := DropRef(n.db, c))
    case Lookup(epoch, cs) => n.(db := n.db.(index := n.db.index[epoch := cs]))
  }

  ghost predicate Runnable(l1: L1, n: Node, steps: seq<Step>)
    decreases |steps|
  {
    steps == [] || (Enabled(l1, n, steps[0]) && Runnable(l1, Next(n, steps[0]), steps[1..]))
  }

  function After(n: Node, steps: seq<Step>): Node
    decreases |steps|
  {
    if steps == [] then n else After(Next(n, steps[0]), steps[1..])
  }

  /** The chain is linked; every reference names a block that accepted the commitment; a row
      lists, once each, commitments of its epoch, among them all that have a reference. */
  ghost predicate Inv(l1: L1, n: Node) {
    && Linked(l1, n.chain)
    && (forall c :: c in n.db.refs ==> c in l1.accepted(n.db.refs[c].blkid))
    && (forall c :: c in n.db.refs ==> c in RowAt(n.db, c.epoch))
    && forall e :: RowOk(n.db, e)
  }

  ghost predicate RowOk(db: ObsDb, epoch: nat) {
    var row := RowAt(db, epoch);
    && (forall i, j :: 0 <= i < j < |row| ==> row[i] != row[j])
    && forall c :: c in row ==> c.epoch == epoch
  }

  lemma {:induction false} PutKeeps(l1: L1, n: Node, c: EpochCommitment, ref: L1Ref)
    requires Inv(l1, n) && c in l1.accepted(ref.blkid)
    ensures Inv(l1, n.(db := Put(n.db, c, ref)))
  {
    var db := Put(n.db, c, ref);
    assert RowOk(n.db, c.epoch);
    forall e ensures RowOk(db, e) {
      assert RowOk(n.db, e);
    }
  }

  lemma {:induction false} StepKeeps(l1: L1, n: Node, s: Step)
    requires Inv(l1, n) && Enabled(l1, n, s)
    ensures Inv(l1, Next(n, s))
  {
    match s
    case Observe(c, ref) => PutKeeps(l1, n, c, ref);
    case Lookup(epoch, cs) =>
      var db := Next(n, s).db;
      assert RowOk(n.db, epoch);
      forall e ensures RowOk(db, e) {
        assert RowOk(n.db, e);
      }
    case _ =>
      var chain := Next(n, s).chain;
      forall i | 0 < i < |chain| ensures ChildAt(l1, chain, i) {
        assert i < |n.chain| ==> ChildAt(l1, n.chain, i);
      }
      assert forall e :: RowOk(n.db, e) ==> RowOk(Next(n, s).db, e);
  }

  lemma {:induction false} RunKeeps(l1: L1, n: Node, steps: seq<Step>)
    requires Inv(l1, n) && Runnable(l1, n, steps)
    ensures Inv(l1, After(n, steps))
    decreases |steps|
  {
    if steps != [] {
      StepKeeps(l1, n, steps[0]);
      RunKeeps(l1, Next(n, steps[0]), steps[1..]);
    }
  }

  lemma {:induction false} SurvivorsAre(n: Node, cs: seq<EpochCommitment>, c: EpochCommitment)
    ensures c in Survivors(n, cs) <==> c in cs && Survives(n, c)
  {
    if cs != [] {
      SurvivorsAre(n, cs[1..], c);
      assert cs == [cs[0]] + cs[1..];
    }
  }

  lemma {:induction false} SurvivorsDistinct(n: Node, cs: seq<EpochCommitment>)
    requires forall i, j :: 0 <= i < j < |cs| ==> cs[i] != cs[j]
    ensures var s := Survivors(n, cs); forall i, j :: 0 <= i < j < |s| ==> s[i] != s[j]
  {
    if cs != [] {
      SurvivorsDistinct(n, cs[1..]);
      SurvivorsAre(n, cs[1..], cs[0]);
    }
  }

  /** Both on the canonical chain, so the same. */
  lemma {:induction false} OneSurvivor(l1: L1, n: Node, c: EpochCommitment, d: EpochCommitment)
    requires AsmSound(l1) && Inv(l1, n)
    requires Survives(n, c) && Survives(n, d) && c.epoch == d.epoch
    ensures c == d
  {
    var i, j := n.db.refs[c].height - n.base, n.db.refs[d].height - n.base;
    assert OnePerEpoch(l1, n.chain);
    assert c in l1.accepted(n.chain[i]) && d in l1.accepted(n.chain[j]);
  }

  /** The step records or drops an observation of `c`. */
  predicate Touches(s: Step, c: EpochCommitment) {
    (s.Observe? && s.c == c) || (s.DeletePayload? && s.c == c)
  }

  /** Step `k` observes `c`, and nothing about `c` happens afterwards. */
  ghost predicate ObservedLast(steps: seq<Step>, k: nat, c: EpochCommitment) {
    k < |steps| && steps[k].Observe? && steps[k].c == c && forall j :: k < j < |steps| ==> !Touches(steps[j], c)
  }

  /** A commitment's reference is that of its last observation, unless its payload was deleted since. */
  lemma {:induction false} RefIsLastObservation(n: Node, steps: seq<Step>, c: EpochCommitment)
    ensures
      var refs := After(n, steps).db.refs;
      if exists k: nat :: ObservedLast(steps, k, c)
      then c in refs && forall k: nat :: ObservedLast(steps, k, c) ==> refs[c] == steps[k].ref
      else if forall j :: 0 <= j < |steps| ==> !Touches(steps[j], c)
        then (c in refs <==> c in n.db.refs) && (c in refs ==> refs[c] == n.db.refs[c])
        else c !in refs
    ensures After(n, steps).base == n.base
    decreases |steps|
  {
    if steps != [] {
      var rest := steps[1..];
      RefIsLastObservation(Next(n, steps[0]), rest, c);
      assert forall j :: 0 < j < |steps| ==> steps[j] == rest[j - 1];
      forall k: nat ensures ObservedLast(rest, k, c) <==> ObservedLast(steps, k + 1, c) {
        LaterObservation(steps, k, c);
      }
      forall k: nat | ObservedLast(steps, k, c) && k > 0 ensures ObservedLast(rest, k - 1, c) {
        LaterObservation(steps, k - 1, c);
      }
      if ObservedLast(steps, 0, c) {
        assert forall k: nat :: ObservedLast(steps, k, c) ==> k == 0;
        assert forall j :: 0 <= j < |rest| ==> !Touches(rest[j], c);
      }
    }
  }

  lemma {:induction false} LaterObservation(steps: seq<Step>, k: nat, c: EpochCommitment)
    requires steps != []
    ensures ObservedLast(steps[1..], k, c) <==> ObservedLast(steps, k + 1, c)
  {
    var rest := steps[1..];
    assert forall j :: 0 < j < |steps| ==> steps[j] == rest[j - 1];
    assert forall j :: 0 <= j < |rest| ==> rest[j] == steps[j + 1];
  }

  /** After every run, a lookup never reports ambiguity, an answer was accepted in a block of the
      current canonical chain, and a commitment is the answer exactly when the block it was last
      observed in is canonical and its payload was not deleted since. */
  lemma {:induction false} LookupIsSound(l1: L1, base: nat, steps: seq<Step>, epoch: nat, cs: seq<EpochCommitment>)
    requires AsmSound(l1) && Runnable(l1, Node(base, [], ObsDb(map[], map[])), steps)
    requires IsCandidates(After(Node(base, [], ObsDb(map[], map[])), steps).db, epoch, cs)
    ensures
      var n := After(Node(base, [], ObsDb(map[], map[])), steps);
      var r := Choose(Survivors(n, cs), epoch);
      && r.Ok?
      && (r.value.Some? ==> r.value.value.epoch == epoch && exists b :: b in n.chain && r.value.value in l1.accepted(b))
      && forall c :: r.value == Some(c) <==> c.epoch == epoch && LastSeenOnChain(steps, base, n.chain, c)
  {
    var start := Node(base, [], ObsDb(map[], map[]));
    var n := After(start, steps);
    RunKeeps(l1, start, steps);
    LookupFromInv(l1, n, epoch, cs);
    forall c ensures Survives(n, c) <==> LastSeenOnChain(steps, base, n.chain, c) {
      SurvivesWhenSeen(base, steps, c);
    }
  }

  lemma {:induction false} SurvivesWhenSeen(base: nat, steps: seq<Step>, c: EpochCommitment)
    ensures
      var n := After(Node(base, [], ObsDb(map[], map[])), steps);
      Survives(n, c) <==> LastSeenOnChain(steps, base, n.chain, c)
  {
    RefIsLastObservation(Node(base, [], ObsDb(map[], map[])), steps, c);
  }

  /** The last observation of `c` was in the block that the chain has at that height. */
  ghost predicate LastSeenOnChain(steps: seq<Step>, base: nat, chain: seq<L1Id>, c: EpochCommitment) {
    exists k: nat ::
      && ObservedLast(steps, k, c)
      && base <= steps[k].ref.height < base + |chain|
      && chain[steps[k].ref.height - base] == steps[k].ref.blkid
  }

  lemma {:induction false} LookupFromInv(l1: L1, n: Node, epoch: nat, cs: seq<EpochCommitment>)
    requires AsmSound(l1) && Inv(l1, n) && IsCandidates(n.db, epoch, cs)
    ensures
      var r := Choose(Survivors(n, cs), epoch);
      && r.Ok?
      && (r.value.Some? ==> r.value.value.epoch == epoch && exists b :: b in n.chain && r.value.value in l1.accepted(b))
      && forall c :: r.value == Some(c) <==> c.epoch == epoch && Survives(n, c)
  {
    assert RowOk(n.db, epoch);
    var s := Survivors(n, cs);
    SurvivorsDistinct(n, cs);
    forall c ensures c in s <==> c.epoch == epoch && Survives(n, c) {
      SurvivorsAre(n, cs, c);
    }
    if |s| > 1 {
      assert s[0] in s && s[1] in s;
      OneSurvivor(l1, n, s[0], s[1]);
    }
    if |s| == 1 {
      assert s[0] in s;
      var ref := n.db.refs[s[0]];
      assert n.chain[ref.height - n.base] == ref.blkid;
    }
  }

  lemma {:induction false} RunCons(l1: L1, n: Node, s: Step, rest: seq<Step>)
    ensures Runnable(l1, n, [s] + rest) <==> Enabled(l1, n, s) && Runnable(l1, Next(n, s), rest)
    ensures After(n, [s] + rest) == After(Next(n, s), rest)
  {
    assert ([s] + rest)[1..] == rest;
  }

  /** `b` becomes the tip, `c` is observed in it, and `b` is dropped again. */
  function Visit(c: EpochCommitment, base: nat, b: L1Id, rest: seq<Step>): seq<Step> {
    [Extend(b)] + ([Observe(c, L1Ref(base + 1, b))] + ([Reorg(1)] + rest))
  }

  /** So an accepted checkpoint can go unanswered for a while: observed in one block, then in a block
      of another fork, it stays recorded for that fork when L1 returns to the first block, until
      that block is processed again. */
  lemma {:induction false} MissedAfterReorgBack(
    l1: L1, c: EpochCommitment, base: nat, genesis: L1Id, b: L1Id, fork: L1Id)
    requires l1.parent(b) == l1.parent(fork) == genesis && b != fork
    requires c in l1.accepted(b) && c in l1.accepted(fork)
    ensures
      var start := Node(base, [genesis], ObsDb(map[], map[]));
      var steps := Visit(c, base, b, Visit(c, base, fork, [Extend(b)] + []));
      && Runnable(l1, start, steps)
      && After(start, steps).chain == [genesis, b] && !Survives(After(start, steps), c)
  {
    var n0 := Node(base, [genesis], ObsDb(map[], map[]));
    var s7 := [];
    var s6 := [Extend(b)] + s7;
    var s5 := [Reorg(1)] + s6;
    var s4 := [Observe(c, L1Ref(base + 1, fork))] + s5;
    var s3 := [Extend(fork)] + s4;
    var s2 := [Reorg(1)] + s3;
    var s1 := [Observe(c, L1Ref(base + 1, b))] + s2;
    var n1 := Next(n0, Extend(b));
    RunCons(l1, n0, Extend(b), s1);
    var n2 := Next(n1, Observe(c, L1Ref(base + 1, b)));
    RunCons(l1, n1, Observe(c, L1Ref(base + 1, b)), s2);
    var n3 := Next(n2, Reorg(1));
    RunCons(l1, n2, Reorg(1), s3);
    var n4 := Next(n3, Extend(fork));
    RunCons(l1, n3, Extend(fork), s4);
    var n5 := Next(n4, Observe(c, L1Ref(base + 1, fork)));
    RunCons(l1, n4, Observe(c, L1Ref(base + 1, fork)), s5);
    var n6 := Next(n5, Reorg(1));
    RunCons(l1, n5, Reorg(1), s6);
    RunCons(l1, n6, Extend(b), s7);
    assert n3.chain == [genesis] && n6.chain == [genesis];
  }

  // ---------------------------------------------------------------- processing every block in turn

  /** The checkpoint worker: the node, and how many blocks of the canonical chain it has processed. */
  datatype Csm = Csm(node: Node, done: nat)

  /** L1 grows, or falls back to a length; the worker then goes on from there, recording whatever the
      next canonical block accepted, listed as `cs`; an epoch is looked up. */
  datatype CsmStep = Grow(b: L1Id) | Fall(len: nat) | Process(cs: seq<EpochCommitment>)
                   | LookUp(epoch: nat, cs: seq<EpochCommitment>)

  ghost predicate CsmEnabled(l1: L1, m: Csm, s: CsmStep) {
    match s
    case Grow(b) => Enabled(l1, m.node, Extend(b))
    case Fall(len) => Enabled(l1, m.node, Reorg(len))
    case Process(cs) => m.done < |m.node.chain| && (set c | c in cs) == l1.accepted(m.node.chain[m.done])
    case LookUp(epoch, cs) => Enabled(l1, m.node, Lookup(epoch, cs))
  }

  function PutAll(db: ObsDb, cs: seq<EpochCommitment>, ref: L1Ref): ObsDb
    decreases |cs|
  {
    if cs == [] then db else PutAll(Put(db, cs[0], ref), cs[1..], ref)
  }

  function CsmNext(m: Csm, s: CsmStep): Csm {
    match s
    case Grow(b) => m.(node := Next(m.node, Extend(b)))
    case Fall(len) => Csm(Next(m.node, Reorg(len)), Min(m.done, len))
    case Process(cs) =>
      if m.done < |m.node.chain| then
        var ref := L1Ref(m.node.base + m.done, m.node.chain[m.done]);
        Csm(m.node.(db := PutAll(m.node.db, cs, ref)), m.done + 1)
      else m
    case LookUp(epoch, cs) => m.(node := Next(m.node, Lookup(epoch, cs)))
  }

  ghost predicate CsmRunnable(l1: L1, m: Csm, steps: seq<CsmStep>)
    decreases |steps|
  {
    steps == [] || (CsmEnabled(l1, m, steps[0]) && CsmRunnable(l1, CsmNext(m, steps[0]), steps[1..]))
  }

  function CsmAfter(m: Csm, steps: seq<CsmStep>): Csm
    decreases |steps|
  {
    if steps == [] then m else CsmAfter(CsmNext(m, steps[0]), steps[1..])
  }

  /** ASM accepts a checkpoint of each epoch at most once along any single L1 chain. */
  ghost predicate AcceptedOnce(l1: L1) {
    forall chain :: Linked(l1, chain) ==> OncePerEpoch(l1, chain)
  }

  ghost predicate OncePerEpoch(l1: L1, chain: seq<L1Id>) {
    forall i, j, c, d ::
      0 <= i < |chain| && 0 <= j < |chain| && c in l1.accepted(chain[i]) && d in l1.accepted(chain[j])
      && c.epoch == d.epoch
      ==> i == j && c == d
  }

  /** Whatever a processed canonical block accepted is recorded for that block. */
  ghost predicate UpToDate(l1: L1, m: Csm) {
    && m.done <= |m.node.chain|
    && forall i, c :: 0 <= i < m.done && c in l1.accepted(m.node.chain[i]) ==> RecordedAt(m.node, i, c)
  }

  ghost predicate RecordedAt(n: Node, i: nat, c: EpochCommitment)
    requires i < |n.chain|
  {
    c in n.db.refs && n.db.refs[c] == L1Ref(n.base + i, n.chain[i])
  }

  lemma {:induction false} NotAgain(l1: L1, chain: seq<L1Id>, i: nat, k: nat, c: EpochCommitment)
    requires AcceptedOnce(l1) && Linked(l1, chain) && i < k < |chain| && c in l1.accepted(chain[i])
    ensures c !in l1.accepted(chain[k])
  {
    assert OncePerEpoch(l1, chain);
  }

  lemma {:induction false} PutAllRef(db: ObsDb, cs: seq<EpochCommitment>, ref: L1Ref, c: EpochCommitment)
    ensures c in PutAll(db, cs, ref).refs <==> c in db.refs || c in cs
    ensures c in cs ==> PutAll(db, cs, ref).refs[c] == ref
    ensures c in db.refs && c !in cs ==> PutAll(db, cs, ref).refs[c] == db.refs[c]
    decreases |cs|
  {
    if cs != [] {
      PutAllRef(Put(db, cs[0], ref), cs[1..], ref, c);
      assert c in cs <==> c == cs[0] || c in cs[1..];
    }
  }

  lemma {:induction false} PutAllKeeps(l1: L1, n: Node, cs: seq<EpochCommitment>, ref: L1Ref)
    requires Inv(l1, n) && forall c :: c in cs ==> c in l1.accepted(ref.blkid)
    ensures Inv(l1, n.(db := PutAll(n.db, cs, ref)))
    decreases |cs|
  {
    if cs != [] {
      PutKeeps(l1, n, cs[0], ref);
      PutAllKeeps(l1, n.(db := Put(n.db, cs[0], ref)), cs[1..], ref);
    }
  }

  lemma {:induction false} ProcessRecords(l1: L1, m: Csm, cs: seq<EpochCommitment>, i: nat, c: EpochCommitment)
    requires AcceptedOnce(l1) && Linked(l1, m.node.chain) && UpToDate(l1, m) && m.done < |m.node.chain|
    requires forall c :: c in cs <==> c in l1.accepted(m.node.chain[m.done])
    requires i <= m.done && c in l1.accepted(m.node.chain[i])
    ensures RecordedAt(CsmNext(m, Process(cs)).node, i, c)
  {
    var n, k := m.node, m.done;
    PutAllRef(n.db, cs, L1Ref(n.base + k, n.chain[k]), c);
    if i < k {
      NotAgain(l1, n.chain, i, k, c);
      assert RecordedAt(n, i, c);
    }
  }

  lemma {:induction false} ProcessKeeps(l1: L1, m: Csm, cs: seq<EpochCommitment>)
    requires AcceptedOnce(l1) && Inv(l1, m.node) && UpToDate(l1, m) && CsmEnabled(l1, m, Process(cs))
    ensures Inv(l1, CsmNext(m, Process(cs)).node) && UpToDate(l1, CsmNext(m, Process(cs)))
  {
    var listed := set c | c in cs;
    assert forall c :: c in cs <==> c in listed;
    PutAllKeeps(l1, m.node, cs, L1Ref(m.node.base + m.done, m.node.chain[m.done]));
    forall i, c | 0 <= i < m.done + 1 && c in l1.accepted(m.node.chain[i])
      ensures RecordedAt(CsmNext(m, Process(cs)).node, i, c) {
      ProcessRecords(l1, m, cs, i, c);
    }
  }

  /** A step that keeps the processed blocks and the references keeps them recorded. */
  lemma {:induction false} StillUpToDate(l1: L1, m: Csm, t: Csm)
    requires UpToDate(l1, m) && t.done <= m.done && t.done <= |t.node.chain|
    requires t.node.base == m.node.base && t.node.db.refs == m.node.db.refs
    requires m.node.chain[..t.done] == t.node.chain[..t.done]
    ensures UpToDate(l1, t)
  {
    forall i, c | 0 <= i < t.done && c in l1.accepted(t.node.chain[i]) ensures RecordedAt(t.node, i, c) {
      assert m.node.chain[..t.done][i] == t.node.chain[..t.done][i];
      assert RecordedAt(m.node, i, c);
    }
  }

  lemma {:induction false} CsmStepKeeps(l1: L1, m: Csm, s: CsmStep)
    requires AcceptedOnce(l1) && Inv(l1, m.node) && UpToDate(l1, m) && CsmEnabled(l1, m, s)
    ensures Inv(l1, CsmNext(m, s).node) && UpToDate(l1, CsmNext(m, s))
  {
    match s {
      case Grow(b) => StepKeeps(l1, m.node, Extend(b));
      case Fall(len) => StepKeeps(l1, m.node, Reorg(len));
      case Process(cs) => ProcessKeeps(l1, m, cs);
      case LookUp(epoch, cs) => StepKeeps(l1, m.node, Lookup(epoch, cs));
    }
    if !s.Process? {
      StillUpToDate(l1, m, CsmNext(m, s));
    }
  }

  lemma {:induction false} CsmKeeps(l1: L1, m: Csm, steps: seq<CsmStep>)
    requires AcceptedOnce(l1) && Inv(l1, m.node) && UpToDate(l1, m) && CsmRunnable(l1, m, steps)
    ensures Inv(l1, CsmAfter(m, steps).node) && UpToDate(l1, CsmAfter(m, steps))
    decreases |steps|
  {
    if steps != [] {
      CsmStepKeeps(l1, m, steps[0]);
      CsmKeeps(l1, CsmNext(m, steps[0]), steps[1..]);
    }
  }

  lemma {:induction false} OnceIsSound(l1: L1)
    requires AcceptedOnce(l1)
    ensures AsmSound(l1)
  {
    forall chain | Linked(l1, chain) ensures OnePerEpoch(l1, chain) {
      assert OncePerEpoch(l1, chain);
    }
  }

  lemma {:induction false} RecordedSurvives(l1: L1, m: Csm, i: nat, c: EpochCommitment)
    requires UpToDate(l1, m) && i < m.done && c in l1.accepted(m.node.chain[i])
    ensures Survives(m.node, c)
  {
    assert RecordedAt(m.node, i, c);
  }

  lemma {:induction false} UpToDateLookup(l1: L1, m: Csm, epoch: nat, cs: seq<EpochCommitment>)
    requires AcceptedOnce(l1) && Inv(l1, m.node) && UpToDate(l1, m) && IsCandidates(m.node.db, epoch, cs)
    ensures
      var r := Choose(Survivors(m.node, cs), epoch);
      && r.Ok?
      && (forall i, c :: 0 <= i < m.done && c in l1.accepted(m.node.chain[i]) && c.epoch == epoch
                         ==> r.value == Some(c))
      && (m.done == |m.node.chain| ==>
            forall c :: r.value == Some(c)
                        <==> c.epoch == epoch && exists b :: b in m.node.chain && c in l1.accepted(b))
  {
    OnceIsSound(l1);
    LookupFromInv(l1, m.node, epoch, cs);
    var r := Choose(Survivors(m.node, cs), epoch);
    forall i, c | 0 <= i < m.done && c in l1.accepted(m.node.chain[i]) && c.epoch == epoch ensures r.value == Some(c) {
      RecordedSurvives(l1, m, i, c);
    }
  }

  /** Once the worker has processed the canonical chain to its tip, whatever reorgs came before, the
      lookup answers exactly the checkpoint of the epoch that was accepted on that chain. Until
      then it answers at least those of the blocks processed. */
  lemma {:induction false} ProcessedLookupIsExact(
    l1: L1, base: nat, steps: seq<CsmStep>, epoch: nat, cs: seq<EpochCommitment>)
    requires AcceptedOnce(l1) && CsmRunnable(l1, Csm(Node(base, [], ObsDb(map[], map[])), 0), steps)
    requires IsCandidates(CsmAfter(Csm(Node(base, [], ObsDb(map[], map[])), 0), steps).node.db, epoch, cs)
    ensures
      var m := CsmAfter(Csm(Node(base, [], ObsDb(map[], map[])), 0), steps);
      var r := Choose(Survivors(m.node, cs), epoch);
      && r.Ok?
      && (forall i, c :: 0 <= i < m.done && i < |m.node.chain| && c in l1.accepted(m.node.chain[i]) && c.epoch == epoch
                         ==> r.value == Some(c))
      && (m.done == |m.node.chain| ==>
            forall c :: r.value == Some(c)
                        <==> c.epoch == epoch && exists b :: b in m.node.chain && c in l1.accepted(b))
  {
    var start := Csm(Node(base, [], ObsDb(map[], map[])), 0);
    CsmKeeps(l1, start, steps);
    UpToDateLookup(l1, CsmAfter(start, steps), epoch, cs);
  }
}
