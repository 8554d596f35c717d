/** Startup removal of local checkpoint artifacts past the checkpoint tip that ASM accepted, and
    what crashes do to it. */
module Reconcile {
  import opened Chain
  import opened Seqs

  /** Local checkpoint artifacts. `signing` and `unsigned` are the payload table's companions;
      prover tasks are keyed by an injective encoding of the commitment. */
  datatype Artifacts = Artifacts(
    payloads: set<EpochCommitment>,
    signing: set<EpochCommitment>,
    unsigned: set<nat>,
    proofs: set<EpochCommitment>,
    tasks: set<EpochCommitment>)

  /** The summarized commitments, by epoch. */
  type Summarized = map<nat, seq<EpochCommitment>>

  ghost predicate Filed(sums: Summarized) {
    forall e, i :: e in sums && 0 <= i < |sums[e]| ==> sums[e][i].epoch == e
  }

  ghost predicate SummarizedFrom(sums: Summarized, first: nat, c: EpochCommitment) {
    exists e :: e in sums && e >= first && c in sums[e]
  }

  function LocalFrom(payloads: set<EpochCommitment>, first: nat): set<EpochCommitment> {
    set c | c in payloads && c.epoch >= first
  }

  /** One durable deletion. */
  datatype Deletion = Payloads(first: nat) | Proof(c: EpochCommitment) | Task(c: EpochCommitment)

  /** The epochs of payloads from `first` on that have no signing entry. */
  function UnsignedFrom(a: Artifacts, first: nat): set<nat> {
    set c | c in LocalFrom(a.payloads, first) && c !in a.signing :: c.epoch
  }

  function Exec(d: Deletion, a: Artifacts): Artifacts {
    match d
    case Payloads(first) =>
      var gone := LocalFrom(a.payloads, first);
      a.(payloads := a.payloads - gone, signing := a.signing - gone, unsigned := a.unsigned - UnsignedFrom(a, first))
    case Proof(c) => a.(proofs := a.proofs - {c})
    case Task(c) => a.(tasks := a.tasks - {c})
  }

  function Run(ds: seq<Deletion>, a: Artifacts): Artifacts
    decreases |ds|
  {
    if ds == [] then a else Run(ds[1..], Exec(ds[0], a))
  }

  function Pairs(cs: seq<EpochCommitment>): seq<Deletion> {
    if cs == [] then [] else [Proof(cs[0]), Task(cs[0])] + Pairs(cs[1..])
  }

  /** A run over the cleanup list `cs`. */
  function Program(first: nat, cs: seq<EpochCommitment>): seq<Deletion> {
    [Payloads(first)] + Pairs(cs)
  }

  /** `cs` lists, each once, the commitments summarized or held locally from `first` on. */
  ghost predicate CleanupList(sums: Summarized, payloads: set<EpochCommitment>, first: nat, cs: seq<EpochCommitment>) {
    && Distinct(cs)
    && forall c :: c in cs <==> SummarizedFrom(sums, first, c) || c in LocalFrom(payloads, first)
  }

  // ---------------------------------------------------------------- the procedure

  ghost predicate Distinct(items: seq<EpochCommitment>) {
    forall i, j :: 0 <= i < j < |items| ==> items[i] != items[j]
  }

  /** The candidates that are not there yet, each at its first occurrence. */
  function Missing(items: seq<EpochCommitment>, candidates: seq<EpochCommitment>): seq<EpochCommitment>
    decreases |candidates|
  {
    if candidates == [] then []
    else if candidates[0] in items then Missing(items, candidates[1..])
    else [candidates[0]] + Missing(items + [candidates[0]], candidates[1..])
  }

  /** Appends the candidates that are not there yet. */
  method ExtendMissing(items: seq<EpochCommitment>, candidates: seq<EpochCommitment>)
    returns (out: seq<EpochCommitment>)
    ensures out == items + Missing(items, candidates)
    ensures Distinct(items) ==> Distinct(out)
    ensures forall c :: c in out <==> c in items || c in candidates
  {
    out := items;
    var k := 0;
    assert candidates[0..] == candidates;
    while k < |candidates|
      invariant 0 <= k <= |candidates|
      invariant items + Missing(items, candidates) == out + Missing(out, candidates[k..])
      invariant Distinct(items) ==> Distinct(out)
      invariant forall c :: c in out <==> c in items || c in candidates[..k]
    {
      SuffixCons(candidates, k);
      assert candidates[..k + 1] == candidates[..k] + [candidates[k]];
      if candidates[k] !in out {
        AppendAssoc(out, [candidates[k]], Missing(out + [candidates[k]], candidates[k + 1..]));
        out := out + [candidates[k]];
      }
      k := k + 1;
    }
    AppendEmpty(out);
    assert candidates[..k] == candidates;
  }

  method LastSummarizedEpoch(sums: Summarized) returns (r: Option<nat>)
    ensures r.None? <==> sums == map[]
    ensures r.Some? ==> r.value in sums && forall e :: e in sums ==> e <= r.value
  {
    var todo := sums.Keys;
    r := None;
    while todo != {}
      invariant todo <= sums.Keys
      invariant r.None? ==> todo == sums.Keys
      invariant r.Some? ==> r.value in sums && forall e :: e in sums && e !in todo ==> e <= r.value
      decreases todo
    {
      var e :| e in todo;
      if r.None? || r.value < e {
        r := Some(e);
      }
      todo := todo - {e};
    }
  }

  method CheckpointCommitmentsFromEpoch(sums: Summarized, first: nat) returns (cs: seq<EpochCommitment>)
    ensures Distinct(cs)
    ensures forall c :: c in cs <==> SummarizedFrom(sums, first, c)
  {
    cs := [];
    var last := LastSummarizedEpoch(sums);
    if last.None? || first > last.value {
      return;
    }
    var epoch := first;
    while epoch <= last.value
      invariant first <= epoch <= last.value + 1
      invariant Distinct(cs)
      invariant forall c :: c in cs <==> exists e :: e in sums && first <= e < epoch && c in sums[e]
    {
      cs := ExtendMissing(cs, if epoch in sums then sums[epoch] else []);
      epoch := epoch + 1;
    }
  }

  datatype Asm = Unavailable | Undecodable | Verified(epoch: nat)

  class Reconciler {
    const summaries: Summarized
    var held: Artifacts

    constructor (summaries: Summarized, held: Artifacts)
      ensures this.summaries == summaries && this.held == held
    {
      this.summaries, this.held := summaries, held;
    }

    /** Deletes the payloads in one transaction and reports them. */
    method DeleteLocalPayloads(first: nat) returns (deleted: seq<EpochCommitment>)
      modifies this
      ensures held == Exec(Payloads(first), old(held)) && PayloadsDeleted(old(held), held, first)
      ensures held.proofs == old(held).proofs && held.tasks == old(held).tasks
      ensures Distinct(deleted)
      ensures forall c :: c in deleted <==> c in old(held).payloads && c.epoch >= first
    {
      var todo := LocalFrom(held.payloads, first);
      deleted := [];
      while todo != {}
        invariant todo <= LocalFrom(held.payloads, first)
        invariant Distinct(deleted)
        invariant forall c :: c in deleted <==> c in LocalFrom(held.payloads, first) && c !in todo
        decreases todo
      {
        var c :| c in todo;
        deleted := deleted + [c];
        todo := todo - {c};
      }
      held := Exec(Payloads(first), held);
    }

    /** Removes every artifact past the accepted tip. `cs` is the order it went through. */
    method ReconcileUnaccepted(
      hasProver: bool, asm: Asm) returns (ok: bool, proofs: nat, tasks: nat, ghost cs: seq<EpochCommitment>)
      modifies this
      ensures ok <==> !hasProver || !asm.Undecodable?
      ensures
        if hasProver && asm.Verified? && asm.epoch != U32_MAX then
          && CleanupList(summaries, old(held).payloads, asm.epoch + 1, cs)
          && held == Run(Program(asm.epoch + 1, cs), old(held))
          && proofs == |old(held).proofs| - |held.proofs| && tasks == |old(held).tasks| - |held.tasks|
        else held == old(held)
    {
      ok, proofs, tasks, cs := true, 0, 0, [];
      if !hasProver || asm.Unavailable? {
        return;
      }
      if asm.Undecodable? {
        ok := false;
        return;
      }
      if asm.epoch == U32_MAX {
        return;
      }
      var first := asm.epoch + 1;
      var cleanup := CheckpointCommitmentsFromEpoch(summaries, first);
      var deleted := DeleteLocalPayloads(first);
      cleanup := ExtendMissing(cleanup, deleted);
      cs := cleanup;
      assert Program(first, cs)[1..] == Pairs(cs);
      var i := 0;
      assert cs[0..] == cs;
      while i < |cleanup|
        invariant 0 <= i <= |cleanup|
        invariant Run(Pairs(cs), Exec(Payloads(first), old(held))) == Run(Pairs(cs[i..]), held)
        invariant proofs == |old(held).proofs| - |held.proofs| && tasks == |old(held).tasks| - |held.tasks|
      {
        var c := cleanup[i];
        RunPair(c, cs[i + 1..], held);
        assert cs[i..] == [c] + cs[i + 1..];
        if c in held.proofs {
          held := held.(proofs := held.proofs - {c});
          proofs := proofs + 1;
        }
        if c in held.tasks {
          held := held.(tasks := held.tasks - {c});
          tasks := tasks + 1;
        }
        i := i + 1;
      }
    }
  }

  lemma {:induction false} RunPair(c: EpochCommitment, rest: seq<EpochCommitment>, a: Artifacts)
    ensures Run(Pairs([c] + rest), a) == Run(Pairs(rest), a.(proofs := a.proofs - {c}, tasks := a.tasks - {c}))
    ensures c !in a.proofs ==> a.proofs - {c} == a.proofs
    ensures c !in a.tasks ==> a.tasks - {c} == a.tasks
  {
    assert ([c] + rest)[1..] == rest;
    var ds := Pairs([c] + rest);
    assert ds[1..] == [Task(c)] + Pairs(rest) && ds[1..][1..] == Pairs(rest);
    assert Run(ds, a) == Run(ds[1..], Exec(Proof(c), a)) == Run(ds[1..][1..], Exec(Task(c), Exec(Proof(c), a)));
  }

  // ---------------------------------------------------------------- what a run leaves

  ghost function DeletedProofs(ds: seq<Deletion>): set<EpochCommitment> {
    set d | d in ds && d.Proof? :: d.c
  }

  ghost function DeletedTasks(ds: seq<Deletion>): set<EpochCommitment> {
    set d | d in ds && d.Task? :: d.c
  }

  ghost predicate AtFirst(ds: seq<Deletion>, first: nat) {
    forall d :: d in ds && d.Payloads? ==> d.first == first
  }

  /** A sequence of deletions, in closed form. */
  lemma {:induction false} RunRemoves(ds: seq<Deletion>, first: nat, a: Artifacts)
    requires AtFirst(ds, first)
    ensures
      var after := Run(ds, a);
      && after.proofs == a.proofs - DeletedProofs(ds)
      && after.tasks == a.tasks - DeletedTasks(ds)
      && after.payloads == (if Payloads(first) in ds then a.payloads - LocalFrom(a.payloads, first) else a.payloads)
      && after.signing == (if Payloads(first) in ds then a.signing - LocalFrom(a.payloads, first) else a.signing)
      && after.unsigned == (if Payloads(first) in ds then a.unsigned - UnsignedFrom(a, first) else a.unsigned)
    decreases |ds|
  {
    if ds != [] {
      RunRemoves(ds[1..], first, Exec(ds[0], a));
      assert forall d :: d in ds <==> d == ds[0] || d in ds[1..];
      assert DeletedProofs(ds) == DeletedProofs(ds[1..]) + if ds[0].Proof? then {ds[0].c} else {};
      assert DeletedTasks(ds) == DeletedTasks(ds[1..]) + if ds[0].Task? then {ds[0].c} else {};
    }
  }

  lemma {:induction false} PairsHold(cs: seq<EpochCommitment>, d: Deletion)
    ensures d in Pairs(cs) <==> !d.Payloads? && d.c in cs
  {
    if cs != [] {
      PairsHold(cs[1..], d);
      assert cs == [cs[0]] + cs[1..];
    }
  }

  lemma {:induction false} ProgramHolds(first: nat, cs: seq<EpochCommitment>)
    ensures forall d :: d in Program(first, cs) <==> d == Payloads(first) || (!d.Payloads? && d.c in cs)
    ensures DeletedProofs(Program(first, cs)) == DeletedTasks(Program(first, cs)) == set c | c in cs
  {
    forall d ensures d in Program(first, cs) <==> d == Payloads(first) || (!d.Payloads? && d.c in cs) {
      PairsHold(cs, d);
    }
    var ds := Program(first, cs);
    forall c ensures c in cs <==> c in DeletedProofs(ds) {
      assert c in cs <==> Proof(c) in ds;
    }
    forall c ensures c in cs <==> c in DeletedTasks(ds) {
      assert c in cs <==> Task(c) in ds;
    }
  }

  /** Nothing at an accepted epoch differs. */
  ghost predicate AcceptedUntouched(a: Artifacts, b: Artifacts, first: nat) {
    && (forall c: EpochCommitment :: c.epoch < first ==>
                                       && (c in a.payloads <==> c in b.payloads) && (c in a.signing <==> c in b.signing)
                                       && (c in a.proofs <==> c in b.proofs) && (c in a.tasks <==> c in b.tasks))
    && forall e :: e < first ==> (e in a.unsigned <==> e in b.unsigned)
  }

  /** What a payload deletion leaves: the payloads and signing entries of earlier epochs, signing
      entries without a payload, and the unsigned entry of each epoch that had no payload to delete
      without a signing entry. */
  ghost predicate PayloadsDeleted(a: Artifacts, after: Artifacts, first: nat) {
    && (forall c :: c in after.payloads <==> c in a.payloads && c.epoch < first)
    && (forall c :: c in after.signing <==> c in a.signing && (c !in a.payloads || c.epoch < first))
    && (forall e :: e in after.unsigned <==>
                    && e in a.unsigned
                    && !exists c :: c in a.payloads && c.epoch >= first && c !in a.signing && c.epoch == e)
  }

  /** The commitment is past the accepted tip and known: summarized, or held as a payload. */
  ghost predicate Unaccepted(sums: Summarized, a: Artifacts, first: nat, c: EpochCommitment) {
    (exists e :: e in sums && e >= first && c in sums[e]) || (c in a.payloads && c.epoch >= first)
  }

  /** A completed run, from any state, leaves no payload at an unaccepted epoch and no proof or
      task of a commitment that was summarized or held there; it removes nothing else. */
  lemma {:induction false} CompletedRunCleans(sums: Summarized, first: nat, cs: seq<EpochCommitment>, a: Artifacts)
    requires Filed(sums) && CleanupList(sums, a.payloads, first, cs)
    ensures
      var after := Run(Program(first, cs), a);
      && PayloadsDeleted(a, after, first)
      && (forall c :: c in after.proofs <==> c in a.proofs && !Unaccepted(sums, a, first, c))
      && (forall c :: c in after.tasks <==> c in a.tasks && !Unaccepted(sums, a, first, c))
      && AcceptedUntouched(a, after, first)
  {
    ProgramHolds(first, cs);
    RunRemoves(Program(first, cs), first, a);
    forall c ensures c in cs <==> Unaccepted(sums, a, first, c) {
      assert c in cs <==> SummarizedFrom(sums, first, c) || c in LocalFrom(a.payloads, first);
    }
  }

  /** A run cut off after `k` deletions: accepted epochs are untouched there too. */
  lemma {:induction false} CutRunKeepsAccepted(
    sums: Summarized, first: nat, cs: seq<EpochCommitment>, a: Artifacts, k: nat)
    requires Filed(sums) && CleanupList(sums, a.payloads, first, cs)
    requires k <= |Program(first, cs)|
    ensures AcceptedUntouched(a, Run(Program(first, cs)[..k], a), first)
  {
    ProgramHolds(first, cs);
    var cut := Program(first, cs)[..k];
    assert forall d :: d in cut ==> d in Program(first, cs);
    RunRemoves(cut, first, a);
  }

  /** Attempts cut off at any points, each from the state the one before left and with the list
      it computed there. */
  ghost predicate Attempts(sums: Summarized, first: nat, states: seq<Artifacts>) {
    && states != []
    && forall i :: 0 < i < |states| ==> AttemptAt(sums, first, states, i)
  }

  ghost predicate AttemptAt(sums: Summarized, first: nat, states: seq<Artifacts>, i: nat)
    requires 0 < i < |states|
  {
    Attempt(sums, first, states[i - 1], states[i])
  }

  ghost predicate Attempt(sums: Summarized, first: nat, a: Artifacts, b: Artifacts) {
    exists cs, k: nat :: CleanupList(sums, a.payloads, first, cs) && k <= |Program(first, cs)|
                         && b == Run(Program(first, cs)[..k], a)
  }

  /** After crashes at any points, one completed rerun leaves no unaccepted payload and no proof or
      task of a summarized commitment, and accepted epochs as they were at the start. */
  lemma {:induction false} RerunRestores(sums: Summarized, first: nat, states: seq<Artifacts>, cs: seq<EpochCommitment>)
    requires Filed(sums) && Attempts(sums, first, states)
    requires CleanupList(sums, states[|states| - 1].payloads, first, cs)
    ensures
      var after := Run(Program(first, cs), states[|states| - 1]);
      && (forall c :: c in after.payloads ==> c.epoch < first)
      && (forall e, c :: e in sums && e >= first && c in sums[e] ==> c !in after.proofs && c !in after.tasks)
      && AcceptedUntouched(states[0], after, first)
  {
    CompletedRunCleans(sums, first, cs, states[|states| - 1]);
    CrashesKeepAccepted(sums, first, states);
    forall e, c | e in sums && e >= first && c in sums[e]
      ensures Unaccepted(sums, states[|states| - 1], first, c)
    {
    }
  }

  lemma {:induction false} CrashesKeepAccepted(sums: Summarized, first: nat, states: seq<Artifacts>)
    requires Filed(sums) && Attempts(sums, first, states)
    ensures AcceptedUntouched(states[0], states[|states| - 1], first)
    decreases |states|
  {
    var n := |states| - 1;
    if n > 0 {
      forall i | 0 < i < n ensures AttemptAt(sums, first, states[..n], i) {
        assert AttemptAt(sums, first, states, i);
      }
      CrashesKeepAccepted(sums, first, states[..n]);
      assert AttemptAt(sums, first, states, n);
      var cs, k: nat :| CleanupList(sums, states[n - 1].payloads, first, cs) && k <= |Program(first, cs)|
                        && states[n] == Run(Program(first, cs)[..k], states[n - 1]);
      CutRunKeepsAccepted(sums, first, cs, states[n - 1], k);
    }
  }

  /** What a crash can cost, exactly: after a run cut off past the payload deletion and a completed
      rerun, a commitment held locally but never summarized keeps its proof if and only if the cut
      came before that proof was deleted. A cut before the payload deletion costs nothing. */
  lemma {:induction false} OrphanedProofs(
    sums: Summarized, first: nat, cs: seq<EpochCommitment>, cs': seq<EpochCommitment>, a: Artifacts, k: nat,
    c: EpochCommitment)
    requires Filed(sums) && CleanupList(sums, a.payloads, first, cs) && k <= |Program(first, cs)|
    requires CleanupList(sums, Run(Program(first, cs)[..k], a).payloads, first, cs')
    requires c in LocalFrom(a.payloads, first) && !SummarizedFrom(sums, first, c) && c in a.proofs
    ensures c in Run(Program(first, cs'), Run(Program(first, cs)[..k], a)).proofs
       <==> k > 0 && Proof(c) !in Program(first, cs)[..k]
  {
    ProgramHolds(first, cs);
    var cut := Program(first, cs)[..k];
    assert forall d :: d in cut ==> d in Program(first, cs);
    assert k > 0 ==> cut[0] == Payloads(first);
    RunRemoves(cut, first, a);
    CompletedRunCleans(sums, first, cs', Run(cut, a));
  }

  /** Such a crash exists. */
  lemma {:induction false} OrphanedProofExample()
    ensures
      var c := EpochCommitment(5, 50, 9);
      var a := Artifacts({c}, {}, {}, {c}, {c});
      && CleanupList(map[], a.payloads, 5, [c])
      && CleanupList(map[], Run(Program(5, [c])[..1], a).payloads, 5, [])
      && c in Run(Program(5, []), Run(Program(5, [c])[..1], a)).proofs
  {
    var c := EpochCommitment(5, 50, 9);
    var a := Artifacts({c}, {}, {}, {c}, {c});
    var cut := Program(5, [c])[..1];
    assert cut == [Payloads(5)];
    RunRemoves(cut, 5, a);
    assert forall x :: x in LocalFrom(a.payloads, 5) <==> x == c;
    assert CleanupList(map[], a.payloads, 5, [c]);
    assert LocalFrom(Run(cut, a).payloads, 5) == {};
    assert CleanupList(map[], Run(cut, a).payloads, 5, []);
    OrphanedProofs(map[], 5, [c], [], a, 1, c);
  }
}
