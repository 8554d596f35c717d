/** Merging an epoch's write batches into the state at its terminal block
    (`merge_epoch_data` of the chain worker), over any state type, batch type and batch
    application. */
module EpochMerge {
  import opened Chain
  import opened Seqs

  datatype MergeError =
    | MissingBlock(blkid: BlockId)
    | MissingPreState(commitment: BlockCommitment)
    | MissingWriteBatch(commitment: BlockCommitment)
    | ApplyFailed(commitment: BlockCommitment)

  /** A stored parent always has a smaller slot, as header verification demands. */
  ghost predicate ParentsPrecede(headers: map<BlockId, Header>) {
    forall id :: id in headers && headers[id].parent in headers && headers[id].parent != NULL_ID ==>
                   headers[headers[id].parent].slot < headers[id].slot
  }

  function ParentOf(c: BlockCommitment, parent: BlockId): BlockCommitment {
    BlockCommitment(if c.slot == 0 then 0 else c.slot - 1, parent)
  }

  function Rank(headers: map<BlockId, Header>, c: BlockCommitment): nat {
    if c.blkid in headers then headers[c.blkid].slot + 1 else 0
  }

  /** The blocks met walking from `current` down to `prev`, oldest first, `prev` excluded. */
  function Walk(headers: map<BlockId, Header>, prev: BlockCommitment, current: BlockCommitment)
    : Result<seq<BlockCommitment>, MergeError>
    requires ParentsPrecede(headers)
    decreases Rank(headers, current)
  {
    if current == prev || current == NULL_COMMITMENT then Ok([])
    else if current.blkid !in headers then Err(MissingBlock(current.blkid))
    else
      var parent := headers[current.blkid].parent;
      if parent == NULL_ID then Ok([current])
      else
        match Walk(headers, prev, ParentOf(current, parent))
        case Ok(chain) => Ok(chain + [current])
        case Err(e) => Err(e)
  }

  function ApplyAll<S, W>(
    apply: (S, W) -> Option<S>, batches: map<BlockCommitment, W>, s: S, chain: seq<BlockCommitment>)
    : Result<S, MergeError>
    decreases |chain|
  {
    if chain == [] then Ok(s)
    else if chain[0] !in batches then Err(MissingWriteBatch(chain[0]))
    else
      match apply(s, batches[chain[0]])
      case None => Err(ApplyFailed(chain[0]))
      case Some(next) => ApplyAll(apply, batches, next, chain[1..])
  }

  /** What is read from storage by a merge. */
  datatype Db<S, W> = Db(headers: map<BlockId, Header>, batches: map<BlockCommitment, W>,
                         states: map<BlockCommitment, S>)

  function Merge<S, W>(apply: (S, W) -> Option<S>, db: Db<S, W>, prev: BlockCommitment, terminal: BlockCommitment)
    : Result<S, MergeError>
    requires ParentsPrecede(db.headers)
  {
    match Walk(db.headers, prev, terminal)
    case Err(e) => Err(e)
    case Ok(chain) =>
      if prev !in db.states then Err(MissingPreState(prev))
      else ApplyAll(apply, db.batches, db.states[prev], chain)
  }

  // ---------------------------------------------------------------- the worker

  lemma {:induction false} ApplyAllAppend<S, W>(apply: (S, W) -> Option<S>, batches: map<BlockCommitment, W>, s: S,
                                                a: seq<BlockCommitment>, b: seq<BlockCommitment>)
    ensures ApplyAll(apply, batches, s, a + b) ==
            match ApplyAll(apply, batches, s, a)
            case Err(e) => Err(e)
            case Ok(mid) => ApplyAll(apply, batches, mid, b)
    decreases |a|
  {
    if a == [] {
      assert a + b == b;
    } else {
      assert (a + b)[1..] == a[1..] + b;
      if a[0] in batches && apply(s, batches[a[0]]).Some? {
        ApplyAllAppend(apply, batches, apply(s, batches[a[0]]).value, a[1..], b);
      }
    }
  }

  class ChainWorker<S(!new), W(!new)> {
    const apply: (S, W) -> Option<S>
    var blocks: map<BlockId, Header>
    var terminalHeaders: map<BlockId, Header>
    var batches: map<BlockCommitment, W>
    var states: map<BlockCommitment, S>

    constructor (apply: (S, W) -> Option<S>)
      ensures this.apply == apply && View() == Db(map[], map[], map[])
    {
      this.apply := apply;
      blocks, terminalHeaders, batches, states := map[], map[], map[], map[];
    }

    /** Full blocks shadow header-only records of the same id. */
    ghost function View(): Db<S, W>
      reads this
    {
      Db(terminalHeaders + blocks, batches, states)
    }

    method FetchHeader(blkid: BlockId) returns (header: Option<Header>)
      ensures header == if blkid in View().headers then Some(View().headers[blkid]) else None
    {
      if blkid in blocks {
        header := Some(blocks[blkid]);
      } else if blkid in terminalHeaders {
        header := Some(terminalHeaders[blkid]);
      } else {
        header := None;
      }
    }

    /** The backward walk from child to parent, newest block first. */
    method CollectChain(prevTerminal: BlockCommitment, terminal: BlockCommitment)
      returns (r: Result<seq<BlockCommitment>, MergeError>)
      requires ParentsPrecede(View().headers)
      ensures
        match Walk(View().headers, prevTerminal, terminal)
        case Ok(path) => r.Ok? && path == Reverse(r.value)
        case Err(e) => r == Err(e)
    {
      ghost var headers := View().headers;
      ghost var full := Walk(headers, prevTerminal, terminal);
      var chain: seq<BlockCommitment> := [];
      var current := terminal;
      assert forall rest: seq<BlockCommitment> :: rest + [] == rest;
      while current != prevTerminal && current != NULL_COMMITMENT
        invariant match Walk(headers, prevTerminal, current)
                  case Ok(rest) => full == Ok(rest + Reverse(chain))
                  case Err(e) => full == Err(e)
        decreases Rank(headers, current)
      {
        ReverseSnoc(chain, current);
        ghost var done := Reverse(chain);
        assert forall rest: seq<BlockCommitment> :: rest + [current] + done == rest + ([current] + done);
        chain := chain + [current];
        var header := FetchHeader(current.blkid);
        if header.None? {
          return Err(MissingBlock(current.blkid));
        }
        var parent := header.value.parent;
        if parent == NULL_ID {
          return Ok(chain);
        }
        current := ParentOf(current, parent);
      }
      assert [] + Reverse(chain) == Reverse(chain);
      return Ok(chain);
    }

    method ApplyBatches(start: S, chain: seq<BlockCommitment>) returns (r: Result<S, MergeError>)
      ensures r == ApplyAll(apply, batches, start, chain)
    {
      var state := start;
      var i := 0;
      while i < |chain|
        invariant 0 <= i <= |chain|
        invariant ApplyAll(apply, batches, start, chain) == ApplyAll(apply, batches, state, chain[i..])
      {
        assert chain[i..][1..] == chain[i + 1..];
        if chain[i] !in batches {
          return Err(MissingWriteBatch(chain[i]));
        }
        var next := apply(state, batches[chain[i]]);
        if next.None? {
          return Err(ApplyFailed(chain[i]));
        }
        state := next.value;
        i := i + 1;
      }
      return Ok(state);
    }

    method MergeEpochData(prevTerminal: BlockCommitment, terminal: BlockCommitment) returns (r: Result<(), MergeError>)
      requires ParentsPrecede(View().headers)
      modifies this`states
      ensures
        match Merge(apply, old(View()), prevTerminal, terminal)
        case Ok(s) => r == Ok(()) && states == old(states)[terminal := s]
        case Err(e) => r == Err(e) && states == old(states)
    {
      var chain := CollectChain(prevTerminal, terminal);
      if chain.Err? {
        return Err(chain.error);
      }
      if prevTerminal !in states {
        return Err(MissingPreState(prevTerminal));
      }
      var merged := ApplyBatches(states[prevTerminal], Reverse(chain.value));
      if merged.Err? {
        return Err(merged.error);
      }
      states := states[terminal := merged.value];
      return Ok(());
    }
  }

  // ---------------------------------------------------------------- what a merge means

  /** The block before position `i` of a path that starts after `prev`. */
  function Before(prev: BlockCommitment, path: seq<BlockCommitment>, i: nat): BlockCommitment
    requires i <= |path|
  {
    if i == 0 then prev else path[i - 1]
  }

  ghost predicate Linked(headers: map<BlockId, Header>, prev: BlockCommitment, path: seq<BlockCommitment>, i: nat)
    requires i < |path|
  {
    && path[i].slot == prev.slot + 1 + i && path[i].blkid != NULL_ID && path[i].blkid in headers
    && headers[path[i].blkid].parent == Before(prev, path, i).blkid
  }

  /** `path` is the chain of blocks after `prev` up to and including `terminal`, one per slot,
      each the parent of the next. */
  ghost predicate Lineage(
    headers: map<BlockId, Header>, prev: BlockCommitment, path: seq<BlockCommitment>, terminal: BlockCommitment)
  {
    && terminal == Before(prev, path, |path|)
    && forall i: nat :: i < |path| ==> Linked(headers, prev, path, i)
  }

  /** The walk from a descendant of `prev` returns exactly the blocks in between. */
  lemma {:induction false} WalkFollowsLineage(
    headers: map<BlockId, Header>, prev: BlockCommitment, path: seq<BlockCommitment>, terminal: BlockCommitment)
    requires ParentsPrecede(headers) && Lineage(headers, prev, path, terminal)
    ensures Walk(headers, prev, terminal) == Ok(path)
    decreases |path|
  {
    if path != [] {
      var before := path[..|path| - 1];
      var last := Before(prev, before, |before|);
      assert path == before + [terminal];
      assert Linked(headers, prev, path, |path| - 1);
      assert before != [] ==> Linked(headers, prev, path, |path| - 2);
      forall i: nat | i < |before| ensures Linked(headers, prev, before, i) {
        assert Linked(headers, prev, path, i);
      }
      WalkFollowsLineage(headers, prev, before, last);
      assert ParentOf(terminal, last.blkid) == last;
    }
  }

  /** A header store of a chain with a block at every slot: a stored parent is one slot below its
      child, and a block at slot 0 has no parent. */
  ghost predicate SlotContiguous(headers: map<BlockId, Header>) {
    && ParentsPrecede(headers) && NULL_ID !in headers
    && (forall id :: id in headers && headers[id].slot == 0 ==> headers[id].parent == NULL_ID)
    && forall id :: id in headers && headers[id].parent in headers && headers[id].parent != NULL_ID ==>
                      headers[headers[id].parent].slot + 1 == headers[id].slot
  }

  /** The walk ran past the oldest block instead of meeting `prev`. */
  ghost predicate RanOff(headers: map<BlockId, Header>, path: seq<BlockCommitment>) {
    path == [] || (path[0].blkid in headers && headers[path[0].blkid].parent == NULL_ID)
  }

  /** Conversely, when every stored header sits at the slot it is committed to, a walk that
      succeeds either found `prev` or ran past the oldest block. */
  lemma {:induction false} WalkIsLineageOrRanOff(
    headers: map<BlockId, Header>, prev: BlockCommitment, path: seq<BlockCommitment>, terminal: BlockCommitment)
    requires SlotContiguous(headers)
    requires terminal.blkid in headers ==> headers[terminal.blkid].slot == terminal.slot
    requires Walk(headers, prev, terminal) == Ok(path)
    ensures Lineage(headers, prev, path, terminal) || RanOff(headers, path)
    decreases Rank(headers, terminal)
  {
    if terminal != prev && terminal != NULL_COMMITMENT {
      var parent := headers[terminal.blkid].parent;
      if parent != NULL_ID {
        var up := ParentOf(terminal, parent);
        var before := Walk(headers, prev, up).value;
        assert path == before + [terminal];
        WalkIsLineageOrRanOff(headers, prev, before, up);
        if Lineage(headers, prev, before, up) {
          forall i: nat | i < |path| ensures Linked(headers, prev, path, i) {
            if i < |before| {
              assert Linked(headers, prev, before, i);
            } else {
              assert before != [] ==> Linked(headers, prev, before, i - 1);
            }
          }
        }
      }
    }
  }

  lemma {:induction false} ApplyAllDependsOnChain<S, W>(
    apply: (S, W) -> Option<S>, a: map<BlockCommitment, W>, b: map<BlockCommitment, W>, s: S,
    chain: seq<BlockCommitment>)
    requires forall c :: c in chain ==> (c in a <==> c in b) && (c in a ==> a[c] == b[c])
    ensures ApplyAll(apply, a, s, chain) == ApplyAll(apply, b, s, chain)
    decreases |chain|
  {
    if chain != [] && chain[0] in a && apply(s, a[chain[0]]).Some? {
      ApplyAllDependsOnChain(apply, a, b, apply(s, a[chain[0]]).value, chain[1..]);
    }
  }

  /** Two stores that agree along the canonical path merge to the same state, whatever fork
      blocks and fork batches either of them holds besides. */
  lemma {:induction false} ForksDoNotMatter<S, W>(apply: (S, W) -> Option<S>, a: Db<S, W>, b: Db<S, W>,
                                                  prev: BlockCommitment, path: seq<BlockCommitment>,
                                                  terminal: BlockCommitment)
    requires ParentsPrecede(a.headers) && Lineage(a.headers, prev, path, terminal)
    requires ParentsPrecede(b.headers) && Lineage(b.headers, prev, path, terminal)
    requires forall c :: c in path
                         ==> (c in a.batches <==> c in b.batches) && (c in a.batches ==> a.batches[c] == b.batches[c])
    requires (prev in a.states <==> prev in b.states) && (prev in a.states ==> a.states[prev] == b.states[prev])
    ensures Merge(apply, a, prev, terminal) == Merge(apply, b, prev, terminal)
  {
    WalkFollowsLineage(a.headers, prev, path, terminal);
    WalkFollowsLineage(b.headers, prev, path, terminal);
    if prev in a.states {
      ApplyAllDependsOnChain(apply, a.batches, b.batches, a.states[prev], path);
    }
  }

  /** Merging one epoch and then the next gives the state of a single merge over both. */
  lemma {:induction false} AdjacentMergesCompose<S, W>(apply: (S, W) -> Option<S>, db: Db<S, W>, prev: BlockCommitment,
                                                       first: seq<BlockCommitment>, mid: BlockCommitment,
                                                       second: seq<BlockCommitment>, terminal: BlockCommitment)
    requires ParentsPrecede(db.headers)
    requires Lineage(db.headers, prev, first, mid) && Lineage(db.headers, mid, second, terminal)
    ensures Lineage(db.headers, prev, first + second, terminal)
    ensures
      match Merge(apply, db, prev, mid)
      case Err(e) => Merge(apply, db, prev, terminal) == Err(e)
      case Ok(s) => Merge(apply, db.(states := db.states[mid := s]), mid, terminal) == Merge(apply, db, prev, terminal)
  {
    var both := first + second;
    assert first != [] ==> Linked(db.headers, prev, first, |first| - 1);
    forall i: nat | i < |both| ensures Linked(db.headers, prev, both, i) {
      if i < |first| {
        assert Linked(db.headers, prev, first, i);
      } else {
        assert Linked(db.headers, mid, second, i - |first|);
      }
    }
    WalkFollowsLineage(db.headers, prev, first, mid);
    WalkFollowsLineage(db.headers, mid, second, terminal);
    WalkFollowsLineage(db.headers, prev, both, terminal);
    if prev in db.states {
      ApplyAllAppend(apply, db.batches, db.states[prev], first, second);
    }
  }

  ghost predicate Executed<S, W>(
    apply: (S, W) -> Option<S>, db: Db<S, W>, prev: BlockCommitment, path: seq<BlockCommitment>, i: nat)
    requires i < |path|
  {
    var before := Before(prev, path, i);
    && before in db.states && path[i] in db.states && path[i] in db.batches
    && apply(db.states[before], db.batches[path[i]]) == Some(db.states[path[i]])
  }

  /** Every block on the path was executed on its parent's stored state and the result stored. */
  ghost predicate ExecutedAlong<S, W>(
    apply: (S, W) -> Option<S>, db: Db<S, W>, prev: BlockCommitment, path: seq<BlockCommitment>)
  {
    prev in db.states && forall i: nat :: i < |path| ==> Executed(apply, db, prev, path, i)
  }

  lemma {:induction false} ApplyAllExecutes<S, W>(
    apply: (S, W) -> Option<S>, db: Db<S, W>, prev: BlockCommitment, path: seq<BlockCommitment>)
    requires ExecutedAlong(apply, db, prev, path)
    ensures Before(prev, path, |path|) in db.states
    ensures ApplyAll(apply, db.batches, db.states[prev], path) == Ok(db.states[Before(prev, path, |path|)])
    decreases |path|
  {
    if path != [] {
      var rest := path[1..];
      assert Executed(apply, db, prev, path, 0);
      forall i: nat | i < |rest| ensures Executed(apply, db, path[0], rest, i) {
        assert Executed(apply, db, prev, path, i + 1);
      }
      ApplyAllExecutes(apply, db, path[0], rest);
    }
  }

  /** A merge recomputes what block-by-block execution stored: it leaves every state as it was. */
  lemma {:induction false} MergeRefinesExecution<S, W>(apply: (S, W) -> Option<S>, db: Db<S, W>, prev: BlockCommitment,
                                                       path: seq<BlockCommitment>, terminal: BlockCommitment)
    requires ParentsPrecede(db.headers) && Lineage(db.headers, prev, path, terminal)
    requires ExecutedAlong(apply, db, prev, path)
    ensures terminal in db.states
    ensures Merge(apply, db, prev, terminal) == Ok(db.states[terminal])
    ensures db.states[terminal := db.states[terminal]] == db.states
  {
    WalkFollowsLineage(db.headers, prev, path, terminal);
    ApplyAllExecutes(apply, db, prev, path);
  }

  function Log(s: seq<int>, w: int): Option<seq<int>> {
    Some(s + [w])
  }

  const FORK_HEADERS := map[1 := Header(0, 0, NULL_ID, 0, true, 0), 3 := Header(1, 1, 1, 0, true, 0)]

  /** A merge whose `prev` is not an ancestor of the terminal block can still succeed, with the
      batches of the whole chain applied to an unrelated state: here block 3 at slot 1 descends
      from block 1 (genesis), not from `prev`. */
  lemma {:induction false} MergeOffLineageCanSucceed(
    genesis: BlockCommitment, prev: BlockCommitment, terminal: BlockCommitment)
    requires genesis == BlockCommitment(0, 1) && prev == BlockCommitment(1, 2) && terminal == BlockCommitment(1, 3)
    ensures ParentsPrecede(FORK_HEADERS)
    ensures forall path :: !Lineage(FORK_HEADERS, prev, path, terminal)
    ensures Merge(Log, Db(FORK_HEADERS, map[genesis := 10, terminal := 30], map[prev := [7]]), prev, terminal)
         == Ok([7, 10, 30])
  {
    var batches := map[genesis := 10, terminal := 30];
    forall path: seq<BlockCommitment> ensures !Lineage(FORK_HEADERS, prev, path, terminal) {
      if path != [] {
        assert path[|path| - 1] == terminal ==> !Linked(FORK_HEADERS, prev, path, |path| - 1);
      }
    }
    assert ParentOf(terminal, 1) == genesis;
    assert Walk(FORK_HEADERS, prev, genesis) == Ok([genesis]);
    assert Walk(FORK_HEADERS, prev, terminal) == Ok([genesis, terminal]) by {
      assert [genesis] + [terminal] == [genesis, terminal];
    }
    assert ApplyAll(Log, batches, [7, 10], [terminal]) == Ok([7, 10, 30]) by {
      assert [7, 10] + [30] == [7, 10, 30];
      assert [terminal][1..] == [];
    }
    assert ApplyAll(Log, batches, [7], [genesis, terminal]) == Ok([7, 10, 30]) by {
      assert [7] + [10] == [7, 10];
      assert [genesis, terminal][1..] == [terminal];
    }
  }

  lemma {:induction false} ApplyAllNeedsBatches<S, W>(
    apply: (S, W) -> Option<S>, batches: map<BlockCommitment, W>, s: S, chain: seq<BlockCommitment>)
    requires ApplyAll(apply, batches, s, chain).Ok?
    ensures forall c :: c in chain ==> c in batches
    decreases |chain|
  {
    if chain != [] {
      ApplyAllNeedsBatches(apply, batches, apply(s, batches[chain[0]]).value, chain[1..]);
    }
  }

  /** When the blocks without a parent have no stored batch (genesis is never executed), a
      successful merge of a new terminal block is always along the lineage from `prev`. */
  lemma {:induction false} MergeIsOnLineage<S, W>(
    apply: (S, W) -> Option<S>, db: Db<S, W>, prev: BlockCommitment, terminal: BlockCommitment)
    returns (path: seq<BlockCommitment>)
    requires SlotContiguous(db.headers)
    requires terminal.blkid in db.headers && db.headers[terminal.blkid].slot == terminal.slot
    requires forall c :: c in db.batches && c.blkid in db.headers ==> db.headers[c.blkid].parent != NULL_ID
    requires Merge(apply, db, prev, terminal).Ok?
    ensures Lineage(db.headers, prev, path, terminal)
    ensures ApplyAll(apply, db.batches, db.states[prev], path) == Merge(apply, db, prev, terminal)
  {
    path := Walk(db.headers, prev, terminal).value;
    WalkIsLineageOrRanOff(db.headers, prev, path, terminal);
    ApplyAllNeedsBatches(apply, db.batches, db.states[prev], path);
    if path != [] {
      assert path[0] in db.batches;
    }
  }

  /** Exactly when a successful merge is along the lineage: when its walk did not end at a block
      without a parent, that is, when it did not take in genesis. */
  lemma {:induction false} OffLineageMeansGenesis<S, W>(
    apply: (S, W) -> Option<S>, db: Db<S, W>, prev: BlockCommitment, terminal: BlockCommitment)
    requires SlotContiguous(db.headers) && prev.blkid != NULL_ID
    requires terminal.blkid in db.headers && db.headers[terminal.blkid].slot == terminal.slot
    requires Merge(apply, db, prev, terminal).Ok?
    ensures Walk(db.headers, prev, terminal).Ok?
    ensures
      var path := Walk(db.headers, prev, terminal).value;
      Lineage(db.headers, prev, path, terminal) <==>
      path == [] || (path[0].blkid in db.headers && db.headers[path[0].blkid].parent != NULL_ID)
  {
    var path := Walk(db.headers, prev, terminal).value;
    WalkIsLineageOrRanOff(db.headers, prev, path, terminal);
    if Lineage(db.headers, prev, path, terminal) && path != [] {
      assert Linked(db.headers, prev, path, 0);
    }
  }

  /** A walk never takes in `prev`, and its first block is named at its own slot. */
  lemma {:induction false} WalkStart(headers: map<BlockId, Header>, prev: BlockCommitment, terminal: BlockCommitment)
    requires SlotContiguous(headers)
    requires terminal.blkid in headers ==> headers[terminal.blkid].slot == terminal.slot
    requires Walk(headers, prev, terminal).Ok? && Walk(headers, prev, terminal).value != []
    ensures
      var first := Walk(headers, prev, terminal).value[0];
      first != prev && (first.blkid in headers ==> headers[first.blkid].slot == first.slot)
    decreases Rank(headers, terminal)
  {
    var parent := headers[terminal.blkid].parent;
    if parent != NULL_ID {
      var up := ParentOf(terminal, parent);
      if Walk(headers, prev, up).value != [] {
        WalkStart(headers, prev, up);
      }
    }
  }

  /** A batch is stored for a block `g` without a parent and applies to the state at `prev`. The
      worker never writes one: it executes no block without a parent. */
  ghost predicate GenesisBatchApplies<S, W>(
    apply: (S, W) -> Option<S>, db: Db<S, W>, prev: BlockCommitment, g: BlockCommitment)
  {
    && prev.blkid != NULL_ID && prev in db.states && prev != g
    && g.blkid in db.headers && db.headers[g.blkid].slot == g.slot && db.headers[g.blkid].parent == NULL_ID
    && g in db.batches && apply(db.states[prev], db.batches[g]).Some?
  }

  /** The merge onto `terminal` from `prev`, if it succeeds, is along the lineage. */
  ghost predicate OnLineage<S, W>(
    apply: (S, W) -> Option<S>, db: Db<S, W>, prev: BlockCommitment, terminal: BlockCommitment)
    requires ParentsPrecede(db.headers)
  {
    prev.blkid != NULL_ID && terminal.blkid in db.headers && db.headers[terminal.blkid].slot == terminal.slot
    && Merge(apply, db, prev, terminal).Ok? ==>
      Lineage(db.headers, prev, Walk(db.headers, prev, terminal).value, terminal)
  }

  /** In a given storage, every successful merge is along the lineage if and only if no batch of a
      block without a parent applies to the state of another block. */
  lemma {:induction false} MergesStayOnLineage<S(!new), W(!new)>(apply: (S, W) -> Option<S>, db: Db<S, W>)
    requires SlotContiguous(db.headers)
    ensures (forall prev, terminal :: OnLineage(apply, db, prev, terminal)) <==>
            (forall prev, g :: !GenesisBatchApplies(apply, db, prev, g))
  {
    forall prev, g | GenesisBatchApplies(apply, db, prev, g) ensures !OnLineage(apply, db, prev, g) {
      assert Walk(db.headers, prev, g) == Ok([g]);
      var next := apply(db.states[prev], db.batches[g]).value;
      assert [g][1..] == [] && ApplyAll(apply, db.batches, next, []) == Ok(next);
      assert ApplyAll(apply, db.batches, db.states[prev], [g]) == Ok(next);
      assert Merge(apply, db, prev, g).Ok?;
      assert !Linked(db.headers, prev, [g], 0);
    }
    forall prev, terminal | !OnLineage(apply, db, prev, terminal)
      ensures exists g :: GenesisBatchApplies(apply, db, prev, g)
    {
      var path := Walk(db.headers, prev, terminal).value;
      OffLineageMeansGenesis(apply, db, prev, terminal);
      WalkIsLineageOrRanOff(db.headers, prev, path, terminal);
      WalkStart(db.headers, prev, terminal);
      assert GenesisBatchApplies(apply, db, prev, path[0]);
    }
  }
}
