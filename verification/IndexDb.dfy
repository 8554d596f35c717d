/** The indexing tables, their two write paths (one transaction per block, one per epoch), and
    why both leave the same tables. */
module IndexDb {
  import opened Chain
  import opened Indexing
  import opened Reconstruct
  import opened Seqs

  /** The row common to an epoch: the stamped commitment, the created accounts with the block
      that created them, and the block applied last. */
  datatype EpochRow = EpochRow(stamp: Option<EpochCommitment>, created: seq<(AccountId, Option<BlockCommitment>)>,
                               lastApplied: Option<BlockCommitment>)

  datatype Tables = Tables(
    epochs: map<nat, EpochRow>,
    updates: Rows<UpdateRecord>,
    inbox: Rows<InboxRecord>,
    creation: map<AccountId, nat>)

  datatype IndexDbError = Conflict(attempted: BlockCommitment, lastApplied: BlockCommitment) | NoEpochRow(epoch: nat)

  function Row(t: Tables, epoch: nat): EpochRow {
    if epoch in t.epochs then t.epochs[epoch] else EpochRow(None, [], None)
  }

  function Attribute(
    accounts: seq<AccountId>, block: Option<BlockCommitment>): seq<(AccountId, Option<BlockCommitment>)>
  {
    seq(|accounts|, i requires 0 <= i < |accounts| => (accounts[i], block))
  }

  function CreatedIn(accounts: seq<AccountId>, epoch: nat): map<AccountId, nat> {
    map a | a in accounts :: epoch
  }

  type Rows<V> = map<(nat, AccountId), seq<V>>

  function RowsAt<V>(rows: Rows<V>, epoch: nat, a: AccountId): seq<V> {
    if (epoch, a) in rows then rows[(epoch, a)] else []
  }

  function KeysFor<V>(epoch: nat, m: map<AccountId, seq<V>>): (keys: set<(nat, AccountId)>)
    ensures forall key :: key in keys <==> key.0 == epoch && key.1 in m
  {
    var keys := set a | a in m :: (epoch, a);
    assert forall key: (nat, AccountId) :: key.0 == epoch && key.1 in m ==> key == (epoch, key.1);
    keys
  }

  /** Appends each account's records to its row; an account without records keeps its row. */
  function Extend<V>(rows: Rows<V>, epoch: nat, m: map<AccountId, seq<V>>): Rows<V> {
    var touched := KeysFor(epoch, map a | a in m && m[a] != [] :: m[a]);
    map key | key in rows.Keys + touched :: if key in touched then RowsAt(rows, epoch, key.1) + m[key.1] else rows[key]
  }

  /** Puts each account's records in place of its row. */
  function Insert<V>(rows: Rows<V>, epoch: nat, m: map<AccountId, seq<V>>): Rows<V> {
    map key | key in rows.Keys + KeysFor(epoch, m) :: if key in KeysFor(epoch, m) then m[key.1] else rows[key]
  }

  function ApplyBlock(t: Tables, epoch: nat, block: BlockCommitment, w: Writes): Result<Tables, IndexDbError> {
    var row := Row(t, epoch);
    if row.lastApplied.Some? && block.slot <= row.lastApplied.value.slot then
      Err(Conflict(block, row.lastApplied.value))
    else
      Ok(Tables(
           t.epochs[epoch := EpochRow(row.stamp, row.created + Attribute(w.created, Some(block)), Some(block))],
           Extend(t.updates, epoch, w.updates),
           Extend(t.inbox, epoch, w.inbox),
           t.creation + CreatedIn(w.created, epoch)))
  }

  function ApplyEpoch(t: Tables, commitment: EpochCommitment, w: Writes): Tables {
    Tables(
      t.epochs[commitment.epoch := EpochRow(Some(commitment), Attribute(w.created, None), None)],
      Insert(t.updates, commitment.epoch, w.updates),
      Insert(t.inbox, commitment.epoch, w.inbox),
      t.creation + CreatedIn(w.created, commitment.epoch))
  }

  function Stamp(t: Tables, commitment: EpochCommitment): Result<Tables, IndexDbError> {
    if commitment.epoch !in t.epochs then Err(NoEpochRow(commitment.epoch))
    else Ok(t.(epochs := t.epochs[commitment.epoch := t.epochs[commitment.epoch].(stamp := Some(commitment))]))
  }

  // ---------------------------------------------------------------- block by block

  datatype Block = Block(commitment: BlockCommitment, output: Output)

  function ApplyBlocks(t: Tables, epoch: nat, blocks: seq<(BlockCommitment, Writes)>): Result<Tables, IndexDbError>
    decreases |blocks|
  {
    if blocks == [] then Ok(t)
    else
      var n := |blocks| - 1;
      match ApplyBlocks(t, epoch, blocks[..n])
      case Err(e) => Err(e)
      case Ok(mid) => ApplyBlock(mid, epoch, blocks[n].0, blocks[n].1)
  }

  ghost predicate Indexable(blocks: seq<Block>) {
    && (forall i :: 0 <= i < |blocks| ==> Build(Some(blocks[i].commitment), blocks[i].output).Ok?)
    && forall i, j :: 0 <= i < j < |blocks| ==> blocks[i].commitment.slot < blocks[j].commitment.slot
  }

  ghost function BlockWrites(blocks: seq<Block>): seq<(BlockCommitment, Writes)>
    requires Indexable(blocks)
  {
    seq(|blocks|, i requires 0 <= i < |blocks| =>
      (blocks[i].commitment, Build(Some(blocks[i].commitment), blocks[i].output).value))
  }

  const EMPTY_OUTPUT := Output([], [], [], [])

  /** The outputs of consecutive blocks as the output of one epoch. */
  function Whole(blocks: seq<Block>): Output {
    if blocks == [] then EMPTY_OUTPUT
    else Concat(Whole(blocks[..|blocks| - 1]), blocks[|blocks| - 1].output)
  }

  const NO_WRITES := Writes([], map[], map[])

  /** All the blocks' records, each account's in block order. */
  ghost function Accumulated(blocks: seq<Block>): Writes
    requires Indexable(blocks)
    decreases |blocks|
  {
    if blocks == [] then NO_WRITES
    else
      var n := |blocks| - 1;
      AppendWrites(Accumulated(blocks[..n]), BlockWrites(blocks)[n].1)
  }

  ghost function Creators(blocks: seq<Block>): seq<(AccountId, Option<BlockCommitment>)> {
    if blocks == [] then []
    else
      var b := blocks[|blocks| - 1];
      Creators(blocks[..|blocks| - 1]) + Attribute(b.output.created, Some(b.commitment))
  }

  ghost predicate NoRows(t: Tables, epoch: nat) {
    && epoch !in t.epochs
    && (forall a :: (epoch, a) !in t.updates)
    && (forall a :: (epoch, a) !in t.inbox)
  }

  ghost predicate NonEmptyRows(w: Writes) {
    && (forall a :: a in w.updates ==> w.updates[a] != [])
    && (forall a :: a in w.inbox ==> w.inbox[a] != [])
  }

  lemma {:induction false} BuiltRowsNonEmpty(block: Option<BlockCommitment>, o: Output)
    requires Build(block, o).Ok?
    ensures NonEmptyRows(Build(block, o).value)
  {
    var w := Build(block, o).value;
    forall a | a in w.updates ensures w.updates[a] != [] {
      GroupAt(Records(block, o.updates, SnarkLogs(o.logs)).value, a);
    }
    forall a | a in w.inbox ensures w.inbox[a] != [] {
      GroupAt(InboxRows(block, o.inbox), a);
    }
  }

  lemma {:induction false} ExtendAt<V>(rows: Rows<V>, epoch: nat, m: map<AccountId, seq<V>>, key: (nat, AccountId))
    requires forall k :: k in m ==> m[k] != []
    ensures key in Extend(rows, epoch, m) <==> key in rows || (key.0 == epoch && key.1 in m)
    ensures key in Extend(rows, epoch, m) ==>
              Extend(rows, epoch, m)[key] == RowsAt(rows, key.0, key.1) + (if key.0 == epoch then At(m, key.1) else [])
  {
    var none: seq<V> := [];
    assert forall s: seq<V> :: s + none == s;
    assert (map k | k in m && m[k] != [] :: m[k]) == m;
    assert key == (key.0, key.1);
  }

  lemma {:induction false} InsertAt<V>(rows: Rows<V>, epoch: nat, m: map<AccountId, seq<V>>, key: (nat, AccountId))
    ensures key in Insert(rows, epoch, m) <==> key in rows || (key.0 == epoch && key.1 in m)
    ensures key in Insert(rows, epoch, m) ==>
              Insert(rows, epoch, m)[key] == if key.0 == epoch && key.1 in m then m[key.1] else rows[key]
  {
  }

  lemma {:induction false} ExtendTwiceAt<V>(
    rows: Rows<V>, epoch: nat, a: map<AccountId, seq<V>>, b: map<AccountId, seq<V>>, key: (nat, AccountId))
    requires forall k :: (epoch, k) !in rows
    requires forall k :: k in b ==> b[k] != []
    ensures
      var left, right := Extend(Insert(rows, epoch, a), epoch, b), Insert(rows, epoch, Append(a, b));
      (key in left <==> key in right) && (key in left ==> left[key] == right[key])
  {
    var mid := Insert(rows, epoch, a);
    InsertAt(rows, epoch, a, key);
    InsertAt(rows, epoch, Append(a, b), key);
    ExtendAt(mid, epoch, b, key);
    assert key == (key.0, key.1);
    var none: seq<V> := [];
    assert forall s: seq<V> :: s + none == s;
  }

  lemma {:induction false} ExtendTwice<V>(
    rows: Rows<V>, epoch: nat, a: map<AccountId, seq<V>>, b: map<AccountId, seq<V>>)
    requires forall k :: (epoch, k) !in rows
    requires forall k :: k in b ==> b[k] != []
    ensures Extend(Insert(rows, epoch, a), epoch, b) == Insert(rows, epoch, Append(a, b))
  {
    var left, right := Extend(Insert(rows, epoch, a), epoch, b), Insert(rows, epoch, Append(a, b));
    forall key: (nat, AccountId)
      ensures (key in left <==> key in right) && (key in left ==> left[key] == right[key])
    {
      ExtendTwiceAt(rows, epoch, a, b, key);
    }
  }

  /** The tables `t` with these records under the epoch. */
  function WithEpoch(
    t: Tables, epoch: nat, w: Writes, creators: seq<(AccountId, Option<BlockCommitment>)>,
    last: Option<BlockCommitment>): Tables
  {
    Tables(
      if last.None? then t.epochs else t.epochs[epoch := EpochRow(None, creators, last)],
      Insert(t.updates, epoch, w.updates),
      Insert(t.inbox, epoch, w.inbox),
      t.creation + CreatedIn(w.created, epoch))
  }

  function Last(blocks: seq<Block>): Option<BlockCommitment> {
    if blocks == [] then None else Some(blocks[|blocks| - 1].commitment)
  }

  /** The tables after the blocks: the accumulated records under the epoch, nothing else
      changed. */
  ghost function AfterBlocks(t: Tables, epoch: nat, blocks: seq<Block>): Tables
    requires Indexable(blocks)
  {
    WithEpoch(t, epoch, Accumulated(blocks), Creators(blocks), Last(blocks))
  }

  lemma {:induction false} IndexablePrefix(blocks: seq<Block>)
    requires Indexable(blocks) && blocks != []
    ensures Indexable(blocks[..|blocks| - 1])
    ensures BlockWrites(blocks)[..|blocks| - 1] == BlockWrites(blocks[..|blocks| - 1])
  {
  }

  lemma {:induction false} NoWritesNoRows<V>(rows: Rows<V>, epoch: nat)
    ensures Insert(rows, epoch, map[]) == rows
  {
  }

  lemma {:induction false} AfterNoBlocks(t: Tables, epoch: nat)
    ensures AfterBlocks(t, epoch, []) == t
  {
    NoWritesNoRows(t.updates, epoch);
    NoWritesNoRows(t.inbox, epoch);
    assert t.creation + CreatedIn([], epoch) == t.creation;
  }

  lemma {:induction false} ApplyBlocksStep(t: Tables, epoch: nat, ws: seq<(BlockCommitment, Writes)>, mid: Tables)
    requires ws != [] && ApplyBlocks(t, epoch, ws[..|ws| - 1]) == Ok(mid)
    ensures ApplyBlocks(t, epoch, ws) == ApplyBlock(mid, epoch, ws[|ws| - 1].0, ws[|ws| - 1].1)
  {
  }

  /** Block-by-block indexing succeeds on blocks of increasing slots and leaves exactly the
      accumulated records. */
  lemma {:induction false} BlocksAccumulate(t: Tables, epoch: nat, blocks: seq<Block>)
    requires NoRows(t, epoch) && Indexable(blocks)
    ensures ApplyBlocks(t, epoch, BlockWrites(blocks)) == Ok(AfterBlocks(t, epoch, blocks))
    decreases |blocks|
  {
    if blocks == [] {
      AfterNoBlocks(t, epoch);
    } else {
      IndexablePrefix(blocks);
      BlocksAccumulate(t, epoch, blocks[..|blocks| - 1]);
      AccumulateNext(t, epoch, blocks);
    }
  }

  lemma {:induction false} AccumulateNext(t: Tables, epoch: nat, blocks: seq<Block>)
    requires NoRows(t, epoch) && Indexable(blocks) && blocks != [] && Indexable(blocks[..|blocks| - 1])
    requires
      var before := blocks[..|blocks| - 1];
      ApplyBlocks(t, epoch, BlockWrites(before)) == Ok(AfterBlocks(t, epoch, before))
    ensures ApplyBlocks(t, epoch, BlockWrites(blocks)) == Ok(AfterBlocks(t, epoch, blocks))
  {
    IndexablePrefix(blocks);
    ApplyBlocksStep(t, epoch, BlockWrites(blocks), AfterBlocks(t, epoch, blocks[..|blocks| - 1]));
    NextBlock(t, epoch, blocks);
  }

  /** The epoch's row after one more block. */
  lemma {:induction false} NextRow(
    epochs: map<nat, EpochRow>, epoch: nat, creators: seq<(AccountId, Option<BlockCommitment>)>,
    last: Option<BlockCommitment>, block: BlockCommitment, created: seq<AccountId>)
    requires epoch !in epochs && (last.None? ==> creators == [])
    ensures
      var mid := if last.None? then epochs else epochs[epoch := EpochRow(None, creators, last)];
      var row := if epoch in mid then mid[epoch] else EpochRow(None, [], None);
      var next := EpochRow(None, creators + Attribute(created, Some(block)), Some(block));
      && row == EpochRow(None, creators, last)
      && mid[epoch := next] == epochs[epoch := next]
  {
  }

  /** One more block, field by field. */
  lemma {:induction false} NextTables(
    t: Tables, epoch: nat, acc: Writes, creators: seq<(AccountId, Option<BlockCommitment>)>,
    last: Option<BlockCommitment>, block: BlockCommitment, w: Writes)
    requires NoRows(t, epoch) && NonEmptyRows(w)
    requires last.Some? ==> last.value.slot < block.slot
    requires last.None? ==> creators == []
    ensures
      ApplyBlock(WithEpoch(t, epoch, acc, creators, last), epoch, block, w)
      == Ok(WithEpoch(t, epoch, AppendWrites(acc, w), creators + Attribute(w.created, Some(block)), Some(block)))
  {
    NextRow(t.epochs, epoch, creators, last, block, w.created);
    ExtendTwice(t.updates, epoch, acc.updates, w.updates);
    ExtendTwice(t.inbox, epoch, acc.inbox, w.inbox);
    NextCreations(t.creation, epoch, acc.created, w.created);
    var mid := WithEpoch(t, epoch, acc, creators, last);
    var next := EpochRow(None, creators + Attribute(w.created, Some(block)), Some(block));
    assert Row(mid, epoch) == EpochRow(None, creators, last);
    assert ApplyBlock(mid, epoch, block, w)
        == Ok(Tables(mid.epochs[epoch := next], Extend(mid.updates, epoch, w.updates),
                     Extend(mid.inbox, epoch, w.inbox), mid.creation + CreatedIn(w.created, epoch)));
  }

  lemma {:induction false} AccumulatedStep(blocks: seq<Block>)
    requires Indexable(blocks) && blocks != []
    ensures
      var n := |blocks| - 1;
      && Indexable(blocks[..n])
      && Accumulated(blocks) == AppendWrites(Accumulated(blocks[..n]), BlockWrites(blocks)[n].1)
      && Accumulated(blocks).created == Accumulated(blocks[..n]).created + blocks[n].output.created
  {
    IndexablePrefix(blocks);
  }

  lemma {:induction false} NextBlock(t: Tables, epoch: nat, blocks: seq<Block>)
    requires NoRows(t, epoch) && Indexable(blocks) && blocks != []
    ensures Indexable(blocks[..|blocks| - 1])
    ensures
      var n := |blocks| - 1;
      ApplyBlock(AfterBlocks(t, epoch, blocks[..n]), epoch, BlockWrites(blocks)[n].0, BlockWrites(blocks)[n].1)
      == Ok(AfterBlocks(t, epoch, blocks))
  {
    var n := |blocks| - 1;
    var before := blocks[..n];
    AccumulatedStep(blocks);
    assert n > 0 ==> before[n - 1] == blocks[n - 1];
    BuiltRowsNonEmpty(Some(blocks[n].commitment), blocks[n].output);
    NextTables(t, epoch, Accumulated(before), Creators(before), Last(before), blocks[n].commitment,
               BlockWrites(blocks)[n].1);
    assert BlockWrites(blocks)[n].1.created == blocks[n].output.created;
  }

  lemma {:induction false} NextCreations(
    creation: map<AccountId, nat>, epoch: nat, a: seq<AccountId>, b: seq<AccountId>)
    ensures creation + CreatedIn(a, epoch) + CreatedIn(b, epoch) == creation + CreatedIn(a + b, epoch)
  {
  }

  // ---------------------------------------------------------------- what an indexed epoch holds

  /** Places in an epoch: a block and a position in it. */
  type Places = seq<(nat, nat)>

  /** The places come block by block and, within a block, by position. */
  ghost predicate InOrder(places: Places) {
    forall k, l :: 0 <= k < l < |places| ==>
                     places[k].0 < places[l].0 || (places[k].0 == places[l].0 && places[k].1 < places[l].1)
  }

  function InBlock(b: nat, ps: seq<nat>): Places {
    seq(|ps|, k requires 0 <= k < |ps| => (b, ps[k]))
  }

  lemma {:induction false} InBlockHas(b: nat, ps: seq<nat>, x: (nat, nat))
    ensures x in InBlock(b, ps) <==> x.0 == b && x.1 in ps
  {
    if x.0 == b && x.1 in ps {
      var k :| 0 <= k < |ps| && ps[k] == x.1;
      assert InBlock(b, ps)[k] == x;
    }
  }

  lemma {:induction false} NextPlaces(places: Places, b: nat, ps: seq<nat>)
    requires InOrder(places) && (forall x :: x in places ==> x.0 < b) && Increasing(ps)
    ensures InOrder(places + InBlock(b, ps))
    ensures forall x :: x in places + InBlock(b, ps) <==> x in places || (x.0 == b && x.1 in ps)
  {
    var all, n := places + InBlock(b, ps), |places|;
    forall k, l | 0 <= k < l < |all|
      ensures all[k].0 < all[l].0 || (all[k].0 == all[l].0 && all[k].1 < all[l].1)
    {
      if k < n {
        assert all[k] in places;
      }
    }
    forall x: (nat, nat) ensures x in all <==> x in places || (x.0 == b && x.1 in ps) {
      InBlockHas(b, ps, x);
    }
  }

  /** Where the account's updates stand in the blocks. */
  ghost predicate UpdatePlaces(places: Places, blocks: seq<Block>, a: AccountId) {
    && InOrder(places)
    && forall x :: x in places <==> UpdateAt(blocks, a, x)
  }

  ghost predicate UpdateAt(blocks: seq<Block>, a: AccountId, x: (nat, nat)) {
    && x.0 < |blocks| && x.1 < |blocks[x.0].output.updates|
    && blocks[x.0].output.updates[x.1].account == a
  }

  /** Where the account's messages stand in the blocks. */
  ghost predicate MessagePlaces(places: Places, blocks: seq<Block>, a: AccountId) {
    && InOrder(places)
    && forall x :: x in places <==> MessageAt(blocks, a, x)
  }

  ghost predicate MessageAt(blocks: seq<Block>, a: AccountId, x: (nat, nat)) {
    && x.0 < |blocks| && x.1 < |blocks[x.0].output.inbox|
    && blocks[x.0].output.inbox[x.1].account == a
  }

  /** The record is of the update at that place, with that place's block and log. */
  ghost predicate RecordsPlace(r: UpdateRecord, blocks: seq<Block>, x: (nat, nat)) {
    && x.0 < |blocks| && x.1 < |blocks[x.0].output.updates| && x.1 < |SnarkLogs(blocks[x.0].output.logs)|
    && RecordsUpdate(r, Some(blocks[x.0].commitment), blocks[x.0].output.updates[x.1],
                     SnarkLogs(blocks[x.0].output.logs)[x.1])
  }

  ghost predicate HoldsPlace(r: InboxRecord, blocks: seq<Block>, x: (nat, nat)) {
    && x.0 < |blocks| && x.1 < |blocks[x.0].output.inbox|
    && r.entry == blocks[x.0].output.inbox[x.1].entry && r.block == Some(blocks[x.0].commitment)
  }

  ghost predicate RowRecords(row: seq<UpdateRecord>, blocks: seq<Block>, places: Places) {
    |row| == |places| && forall k :: 0 <= k < |places| ==> RecordsPlace(row[k], blocks, places[k])
  }

  ghost predicate RowHolds(row: seq<InboxRecord>, blocks: seq<Block>, places: Places) {
    |row| == |places| && forall k :: 0 <= k < |places| ==> HoldsPlace(row[k], blocks, places[k])
  }

  lemma {:induction false} NextUpdates(
    row: seq<UpdateRecord>, own: seq<UpdateRecord>, blocks: seq<Block>, a: AccountId, places: Places, ps: seq<nat>)
    requires blocks != []
    requires
      var n, b := |blocks| - 1, blocks[|blocks| - 1];
      && UpdatePlaces(places, blocks[..n], a) && RowRecords(row, blocks[..n], places)
      && UpdatePositions(ps, b.output.updates, a)
      && RowsRecord(own, Some(b.commitment), b.output.updates, SnarkLogs(b.output.logs), ps)
    ensures
      var next := places + InBlock(|blocks| - 1, ps);
      UpdatePlaces(next, blocks, a) && RowRecords(row + own, blocks, next)
  {
    var n := |blocks| - 1;
    var next := places + InBlock(n, ps);
    forall x | x in places ensures x.0 < n {
      assert UpdateAt(blocks[..n], a, x);
    }
    NextPlaces(places, n, ps);
    forall x: (nat, nat) ensures x in next <==> UpdateAt(blocks, a, x) {
      assert x.0 < n ==> (UpdateAt(blocks, a, x) <==> UpdateAt(blocks[..n], a, x));
    }
    forall k | 0 <= k < |next| ensures RecordsPlace((row + own)[k], blocks, next[k]) {
      if k < |places| {
        assert RecordsPlace(row[k], blocks[..n], places[k]);
      }
    }
  }

  lemma {:induction false} NextMessages(
    row: seq<InboxRecord>, own: seq<InboxRecord>, blocks: seq<Block>, a: AccountId, places: Places, qs: seq<nat>)
    requires blocks != []
    requires
      var n, b := |blocks| - 1, blocks[|blocks| - 1];
      && MessagePlaces(places, blocks[..n], a) && RowHolds(row, blocks[..n], places)
      && MessagePositions(qs, b.output.inbox, a) && RowsHold(own, Some(b.commitment), b.output.inbox, qs)
    ensures
      var next := places + InBlock(|blocks| - 1, qs);
      MessagePlaces(next, blocks, a) && RowHolds(row + own, blocks, next)
  {
    var n := |blocks| - 1;
    var next := places + InBlock(n, qs);
    forall x | x in places ensures x.0 < n {
      assert MessageAt(blocks[..n], a, x);
    }
    NextPlaces(places, n, qs);
    forall x: (nat, nat) ensures x in next <==> MessageAt(blocks, a, x) {
      assert x.0 < n ==> (MessageAt(blocks, a, x) <==> MessageAt(blocks[..n], a, x));
    }
    forall k | 0 <= k < |next| ensures HoldsPlace((row + own)[k], blocks, next[k]) {
      if k < |places| {
        assert HoldsPlace(row[k], blocks[..n], places[k]);
      }
    }
  }

  lemma {:induction false} AppendAt<V>(x: map<AccountId, seq<V>>, y: map<AccountId, seq<V>>, a: AccountId)
    ensures At(Append(x, y), a) == At(x, a) + At(y, a)
    ensures a in Append(x, y) <==> a in x || a in y
  {
  }

  /** The last block's own rows. */
  lemma {:induction false} OwnRows(blocks: seq<Block>, a: AccountId) returns (ps: seq<nat>, qs: seq<nat>)
    requires Indexable(blocks) && blocks != []
    ensures
      var b, w := blocks[|blocks| - 1], BlockWrites(blocks)[|blocks| - 1].1;
      && UpdatePositions(ps, b.output.updates, a) && MessagePositions(qs, b.output.inbox, a)
      && (a in w.updates <==> ps != []) && (a in w.inbox <==> qs != [])
      && RowsRecord(At(w.updates, a), Some(b.commitment), b.output.updates, SnarkLogs(b.output.logs), ps)
      && RowsHold(At(w.inbox, a), Some(b.commitment), b.output.inbox, qs)
  {
    var b := blocks[|blocks| - 1];
    ps, qs := BuiltRecords(Some(b.commitment), b.output, a);
  }

  lemma {:induction false} NextUpdateRows(
    blocks: seq<Block>, a: AccountId, had: map<AccountId, seq<UpdateRecord>>, own: map<AccountId, seq<UpdateRecord>>,
    places: Places, ps: seq<nat>)
    requires blocks != [] && (a in had <==> places != []) && (a in own <==> ps != [])
    requires
      var n, b := |blocks| - 1, blocks[|blocks| - 1];
      && UpdatePlaces(places, blocks[..n], a) && RowRecords(At(had, a), blocks[..n], places)
      && UpdatePositions(ps, b.output.updates, a)
      && RowsRecord(At(own, a), Some(b.commitment), b.output.updates, SnarkLogs(b.output.logs), ps)
    ensures
      var next := places + InBlock(|blocks| - 1, ps);
      && UpdatePlaces(next, blocks, a) && RowRecords(At(Append(had, own), a), blocks, next)
      && (a in Append(had, own) <==> next != [])
  {
    AppendAt(had, own, a);
    NextUpdates(At(had, a), At(own, a), blocks, a, places, ps);
  }

  lemma {:induction false} NextMessageRows(
    blocks: seq<Block>, a: AccountId, had: map<AccountId, seq<InboxRecord>>, own: map<AccountId, seq<InboxRecord>>,
    places: Places, qs: seq<nat>)
    requires blocks != [] && (a in had <==> places != []) && (a in own <==> qs != [])
    requires
      var n, b := |blocks| - 1, blocks[|blocks| - 1];
      && MessagePlaces(places, blocks[..n], a) && RowHolds(At(had, a), blocks[..n], places)
      && MessagePositions(qs, b.output.inbox, a) && RowsHold(At(own, a), Some(b.commitment), b.output.inbox, qs)
    ensures
      var next := places + InBlock(|blocks| - 1, qs);
      && MessagePlaces(next, blocks, a) && RowHolds(At(Append(had, own), a), blocks, next)
      && (a in Append(had, own) <==> next != [])
  {
    AppendAt(had, own, a);
    NextMessages(At(had, a), At(own, a), blocks, a, places, qs);
  }

  lemma {:induction false} AccumulatedUpdates(blocks: seq<Block>, a: AccountId) returns (places: Places)
    requires Indexable(blocks)
    ensures UpdatePlaces(places, blocks, a) && RowRecords(At(Accumulated(blocks).updates, a), blocks, places)
    ensures a in Accumulated(blocks).updates <==> places != []
    decreases |blocks|
  {
    places := [];
    if blocks != [] {
      var n, before := |blocks| - 1, blocks[..|blocks| - 1];
      AccumulatedStep(blocks);
      var own := BlockWrites(blocks)[n].1.updates;
      var earlier := AccumulatedUpdates(before, a);
      var ps, qs := OwnRows(blocks, a);
      NextUpdateRows(blocks, a, Accumulated(before).updates, own, earlier, ps);
      places := earlier + InBlock(n, ps);
      assert Accumulated(blocks).updates == Append(Accumulated(before).updates, own);
    }
  }

  lemma {:induction false} AccumulatedMessages(blocks: seq<Block>, a: AccountId) returns (places: Places)
    requires Indexable(blocks)
    ensures MessagePlaces(places, blocks, a) && RowHolds(At(Accumulated(blocks).inbox, a), blocks, places)
    ensures a in Accumulated(blocks).inbox <==> places != []
    decreases |blocks|
  {
    places := [];
    if blocks != [] {
      var n, before := |blocks| - 1, blocks[..|blocks| - 1];
      AccumulatedStep(blocks);
      var own := BlockWrites(blocks)[n].1.inbox;
      var earlier := AccumulatedMessages(before, a);
      var ps, qs := OwnRows(blocks, a);
      NextMessageRows(blocks, a, Accumulated(before).inbox, own, earlier, qs);
      places := earlier + InBlock(n, qs);
      assert Accumulated(blocks).inbox == Append(Accumulated(before).inbox, own);
    }
  }

  /** What the tables hold of an account once an epoch's blocks are indexed: a row records, in block
      order and within a block in order of execution, exactly the account's updates of the epoch,
      each with its own log's extra data and the block it happened in; likewise its messages. The
      rows of other epochs are as before. */
  lemma {:induction false} EpochRowsAre(t: Tables, epoch: nat, blocks: seq<Block>, a: AccountId)
    returns (updates: Places, messages: Places)
    requires NoRows(t, epoch) && Indexable(blocks)
    ensures UpdatePlaces(updates, blocks, a) && MessagePlaces(messages, blocks, a)
    ensures ApplyBlocks(t, epoch, BlockWrites(blocks)).Ok?
    ensures
      var after := ApplyBlocks(t, epoch, BlockWrites(blocks)).value;
      && ((epoch, a) in after.updates <==> updates != []) && ((epoch, a) in after.inbox <==> messages != [])
      && (updates != [] ==> RowRecords(after.updates[(epoch, a)], blocks, updates))
      && (messages != [] ==> RowHolds(after.inbox[(epoch, a)], blocks, messages))
    ensures
      var after := ApplyBlocks(t, epoch, BlockWrites(blocks)).value;
      forall e :: e != epoch ==>
                    && ((e, a) in after.updates <==> (e, a) in t.updates)
                    && ((e, a) in t.updates ==> after.updates[(e, a)] == t.updates[(e, a)])
                    && ((e, a) in after.inbox <==> (e, a) in t.inbox)
                    && ((e, a) in t.inbox ==> after.inbox[(e, a)] == t.inbox[(e, a)])
  {
    BlocksAccumulate(t, epoch, blocks);
    updates := AccumulatedUpdates(blocks, a);
    messages := AccumulatedMessages(blocks, a);
    var w := Accumulated(blocks);
    InsertAt(t.updates, epoch, w.updates, (epoch, a));
    InsertAt(t.inbox, epoch, w.inbox, (epoch, a));
  }

  /** The places of the accounts created in the blocks. */
  ghost predicate CreationPlaces(places: Places, blocks: seq<Block>) {
    && InOrder(places)
    && forall x :: x in places <==> CreationAt(blocks, x)
  }

  ghost predicate CreationAt(blocks: seq<Block>, x: (nat, nat)) {
    x.0 < |blocks| && x.1 < |blocks[x.0].output.created|
  }

  ghost predicate ListsCreations(
    created: seq<(AccountId, Option<BlockCommitment>)>, blocks: seq<Block>, places: Places)
  {
    |created| == |places| && forall k :: 0 <= k < |places| ==> CreatedAtPlace(created, blocks, places, k)
  }

  ghost predicate CreatedAtPlace(
    created: seq<(AccountId, Option<BlockCommitment>)>, blocks: seq<Block>, places: Places, k: nat)
    requires k < |created| && k < |places|
  {
    && CreationAt(blocks, places[k])
    && created[k].0 == blocks[places[k].0].output.created[places[k].1]
    && created[k].1 == Some(blocks[places[k].0].commitment)
  }

  function Upto(n: nat): seq<nat> {
    seq(n, i requires 0 <= i < n => i)
  }

  lemma {:induction false} CreatorsAre(blocks: seq<Block>) returns (places: Places)
    ensures CreationPlaces(places, blocks) && ListsCreations(Creators(blocks), blocks, places)
    decreases |blocks|
  {
    places := [];
    if blocks != [] {
      var n := |blocks| - 1;
      var b := blocks[n];
      var before := CreatorsAre(blocks[..n]);
      places := before + InBlock(n, Upto(|b.output.created|));
      NextCreators(blocks, before, places);
    }
  }

  lemma {:induction false} NextCreators(blocks: seq<Block>, before: Places, places: Places)
    requires blocks != [] && CreationPlaces(before, blocks[..|blocks| - 1])
    requires ListsCreations(Creators(blocks[..|blocks| - 1]), blocks[..|blocks| - 1], before)
    requires places == before + InBlock(|blocks| - 1, Upto(|blocks[|blocks| - 1].output.created|))
    ensures CreationPlaces(places, blocks) && ListsCreations(Creators(blocks), blocks, places)
  {
    var n := |blocks| - 1;
    var own := Upto(|blocks[n].output.created|);
    forall x | x in before ensures x.0 < n {
      assert CreationAt(blocks[..n], x);
    }
    forall i: nat ensures i in own <==> i < |own| {
      assert i < |own| ==> own[i] == i;
    }
    NextPlaces(before, n, own);
    forall x: (nat, nat) ensures x in places <==> CreationAt(blocks, x) {
      assert x.0 < n ==> (CreationAt(blocks, x) <==> CreationAt(blocks[..n], x));
    }
    CreatorsListed(blocks, before, places);
  }

  lemma {:induction false} CreatorsListed(blocks: seq<Block>, before: Places, places: Places)
    requires blocks != []
    requires ListsCreations(Creators(blocks[..|blocks| - 1]), blocks[..|blocks| - 1], before)
    requires places == before + InBlock(|blocks| - 1, Upto(|blocks[|blocks| - 1].output.created|))
    ensures ListsCreations(Creators(blocks), blocks, places)
  {
    var n := |blocks| - 1;
    forall k | 0 <= k < |places| ensures CreatedAtPlace(Creators(blocks), blocks, places, k) {
      assert k < |before| ==> CreatedAtPlace(Creators(blocks[..n]), blocks[..n], before, k);
    }
  }

  /** The epoch's own row: the accounts created in its blocks, in order, each with its block, and
      the last block as the one applied last; each of those accounts is known to be of this epoch. */
  lemma {:induction false} EpochRowIs(t: Tables, epoch: nat, blocks: seq<Block>) returns (places: Places)
    requires NoRows(t, epoch) && Indexable(blocks) && blocks != []
    ensures CreationPlaces(places, blocks) && ApplyBlocks(t, epoch, BlockWrites(blocks)).Ok?
    ensures
      var after := ApplyBlocks(t, epoch, BlockWrites(blocks)).value;
      && after.epochs.Keys == t.epochs.Keys + {epoch}
      && (forall e :: e in t.epochs ==> after.epochs[e] == t.epochs[e])
      && after.epochs[epoch].stamp == None
      && after.epochs[epoch].lastApplied == Some(blocks[|blocks| - 1].commitment)
      && ListsCreations(after.epochs[epoch].created, blocks, places)
    ensures
      var after := ApplyBlocks(t, epoch, BlockWrites(blocks)).value;
      forall a :: if exists k :: 0 <= k < |after.epochs[epoch].created| && after.epochs[epoch].created[k].0 == a
                  then a in after.creation && after.creation[a] == epoch
                  else (a in after.creation <==> a in t.creation)
                       && (a in t.creation ==> after.creation[a] == t.creation[a])
  {
    BlocksAccumulate(t, epoch, blocks);
    places := CreatorsAre(blocks);
    CreatedAre(blocks);
  }

  lemma {:induction false} CreatedAre(blocks: seq<Block>)
    requires Indexable(blocks)
    ensures |Creators(blocks)| == |Accumulated(blocks).created|
    ensures forall k :: 0 <= k < |Creators(blocks)| ==> Creators(blocks)[k].0 == Accumulated(blocks).created[k]
  {
    CreatorsErased(blocks);
    var erased := EraseCreators(Creators(blocks));
    assert forall k :: 0 <= k < |erased| ==> erased[k].0 == Creators(blocks)[k].0;
  }

  /** A block is refused exactly when one at its slot or above was applied to the epoch, and the
      error names both. */
  lemma {:induction false} BlockRefused(t: Tables, epoch: nat, block: BlockCommitment, w: Writes)
    ensures
      var applied := if epoch in t.epochs then t.epochs[epoch].lastApplied else None;
      if applied.Some? && block.slot <= applied.value.slot
      then ApplyBlock(t, epoch, block, w) == Err(Conflict(block, applied.value))
      else ApplyBlock(t, epoch, block, w).Ok?
  {
  }

  // ---------------------------------------------------------------- agreement

  function EraseCreators(
    created: seq<(AccountId, Option<BlockCommitment>)>): seq<(AccountId, Option<BlockCommitment>)>
  {
    seq(|created|, i requires 0 <= i < |created| => (created[i].0, None))
  }

  function EraseRows<V>(f: V -> V, rows: Rows<V>): Rows<V> {
    map key | key in rows :: MapSeq(f, rows[key])
  }

  function EraseRow(row: EpochRow): EpochRow {
    EpochRow(row.stamp, EraseCreators(row.created), None)
  }

  function EraseEpochs(epochs: map<nat, EpochRow>): map<nat, EpochRow> {
    map e | e in epochs :: EraseRow(epochs[e])
  }

  /** The tables without block attribution and high-water marks. */
  function EraseTables(t: Tables): Tables {
    Tables(
      EraseEpochs(t.epochs),
      EraseRows(EraseUpdate, t.updates),
      EraseRows(EraseInbox, t.inbox),
      t.creation)
  }

  lemma {:induction false} MapSeqAppend<A, B>(f: A -> B, s: seq<A>, t: seq<A>)
    ensures MapSeq(f, s + t) == MapSeq(f, s) + MapSeq(f, t)
  {
  }

  lemma {:induction false} MapAppendAt<A, B>(
    f: A -> B, a: map<AccountId, seq<A>>, b: map<AccountId, seq<A>>, k: AccountId)
    requires k in a.Keys + b.Keys
    ensures MapValues(f, Append(a, b))[k] == Append(MapValues(f, a), MapValues(f, b))[k]
  {
    MapSeqAppend(f, At(a, k), At(b, k));
  }

  lemma {:induction false} MapAppend<A, B>(f: A -> B, a: map<AccountId, seq<A>>, b: map<AccountId, seq<A>>)
    ensures MapValues(f, Append(a, b)) == Append(MapValues(f, a), MapValues(f, b))
  {
    var left, right := MapValues(f, Append(a, b)), Append(MapValues(f, a), MapValues(f, b));
    forall k | k in left.Keys ensures left[k] == right[k] {
      MapAppendAt(f, a, b, k);
    }
    assert left.Keys == right.Keys;
  }

  lemma {:induction false} EraseAppend(a: Writes, b: Writes)
    ensures Erase(AppendWrites(a, b)) == AppendWrites(Erase(a), Erase(b))
  {
    MapAppend(EraseUpdate, a.updates, b.updates);
    MapAppend(EraseInbox, a.inbox, b.inbox);
  }

  lemma {:induction false} EmptyBuild()
    ensures Build(None, EMPTY_OUTPUT) == Ok(NO_WRITES)
  {
    assert InboxRows(None, []) == [];
  }

  /** Indexing the epoch as a whole builds the blocks' accumulated records with attribution
      erased. */
  lemma {:induction false} WholeIsAccumulated(blocks: seq<Block>)
    requires Indexable(blocks)
    ensures |Whole(blocks).updates| == |SnarkLogs(Whole(blocks).logs)|
    ensures Build(None, Whole(blocks)) == Ok(Erase(Accumulated(blocks)))
    decreases |blocks|
  {
    if blocks == [] {
      EmptyBuild();
      assert Erase(NO_WRITES) == NO_WRITES;
    } else {
      var n := |blocks| - 1;
      IndexablePrefix(blocks);
      WholeIsAccumulated(blocks[..n]);
      CheckpointIsErasedBlock(blocks[n].commitment, blocks[n].output);
      BuildSplits(None, Whole(blocks[..n]), blocks[n].output);
      EraseAppend(Accumulated(blocks[..n]), BlockWrites(blocks)[n].1);
      SnarkLogsAppend(Whole(blocks[..n]).logs, blocks[n].output.logs);
    }
  }

  lemma {:induction false} EraseNextCreators(
    creators: seq<(AccountId, Option<BlockCommitment>)>, earlier: seq<AccountId>, own: seq<AccountId>,
    block: Option<BlockCommitment>)
    requires EraseCreators(creators) == Attribute(earlier, None)
    ensures EraseCreators(creators + Attribute(own, block)) == Attribute(earlier + own, None)
  {
    assert EraseCreators(creators + Attribute(own, block)) == EraseCreators(creators) + Attribute(own, None);
  }

  lemma {:induction false} CreatorsErased(blocks: seq<Block>)
    requires Indexable(blocks)
    ensures EraseCreators(Creators(blocks)) == Attribute(Accumulated(blocks).created, None)
    decreases |blocks|
  {
    if blocks != [] {
      var n := |blocks| - 1;
      var b := blocks[n];
      AccumulatedStep(blocks);
      CreatorsErased(blocks[..n]);
      EraseNextCreators(Creators(blocks[..n]), Accumulated(blocks[..n]).created, b.output.created, Some(b.commitment));
    }
  }

  lemma {:induction false} InsertErased<V>(f: V -> V, rows: Rows<V>, epoch: nat, m: map<AccountId, seq<V>>)
    requires forall v :: f(f(v)) == f(v)
    ensures EraseRows(f, Insert(rows, epoch, m)) == EraseRows(f, Insert(rows, epoch, MapValues(f, m)))
  {
    var left, right := Insert(rows, epoch, m), Insert(rows, epoch, MapValues(f, m));
    forall key | key in left ensures key in right && MapSeq(f, left[key]) == MapSeq(f, right[key]) {
      assert key == (key.0, key.1);
    }
    assert left.Keys == right.Keys;
  }

  lemma {:induction false} SameEpochRow(t: Tables, commitment: EpochCommitment, blocks: seq<Block>)
    requires Indexable(blocks) && blocks != []
    ensures
      var byBlock := Stamp(AfterBlocks(t, commitment.epoch, blocks), commitment).value;
      var byEpoch := ApplyEpoch(t, commitment, Erase(Accumulated(blocks)));
      EraseTables(byBlock).epochs == EraseTables(byEpoch).epochs
  {
    CreatorsErased(blocks);
    var epoch, created := commitment.epoch, Accumulated(blocks).created;
    assert EraseCreators(Attribute(created, None)) == Attribute(created, None);
    var mine := EpochRow(Some(commitment), Creators(blocks), Last(blocks));
    var theirs := EpochRow(Some(commitment), Attribute(created, None), None);
    StampedRow(t, commitment, blocks);
    SameErased(t.epochs, epoch, mine, theirs);
  }

  lemma {:induction false} StampedRow(t: Tables, commitment: EpochCommitment, blocks: seq<Block>)
    requires Indexable(blocks) && blocks != []
    ensures Stamp(AfterBlocks(t, commitment.epoch, blocks), commitment).Ok?
    ensures Stamp(AfterBlocks(t, commitment.epoch, blocks), commitment).value.epochs
         == t.epochs[commitment.epoch := EpochRow(Some(commitment), Creators(blocks), Last(blocks))]
  {
    var row := EpochRow(None, Creators(blocks), Last(blocks));
    var after := AfterBlocks(t, commitment.epoch, blocks);
    assert after.epochs == t.epochs[commitment.epoch := row];
    Restamp(t.epochs, commitment.epoch, row, row.(stamp := Some(commitment)));
  }

  lemma {:induction false} Restamp(epochs: map<nat, EpochRow>, e: nat, a: EpochRow, b: EpochRow)
    ensures epochs[e := a][e := b] == epochs[e := b]
  {
  }

  lemma {:induction false} SameErased(epochs: map<nat, EpochRow>, e: nat, a: EpochRow, b: EpochRow)
    requires EraseRow(a) == EraseRow(b)
    ensures EraseEpochs(epochs[e := a]) == EraseEpochs(epochs[e := b])
  {
  }

  /** An epoch indexed block by block and stamped, and the same epoch indexed in one go, leave
      the same tables: the same rows under the same keys in the same order, up to the block
      attribution that only block sync knows. */
  lemma {:induction false} BothSyncsLeaveTheSameTables(t: Tables, commitment: EpochCommitment, blocks: seq<Block>)
    requires NoRows(t, commitment.epoch) && Indexable(blocks) && blocks != []
    ensures Build(None, Whole(blocks)).Ok?
    ensures ApplyBlocks(t, commitment.epoch, BlockWrites(blocks)).Ok?
    ensures
      var byBlock := Stamp(ApplyBlocks(t, commitment.epoch, BlockWrites(blocks)).value, commitment);
      var byEpoch := ApplyEpoch(t, commitment, Build(None, Whole(blocks)).value);
      byBlock.Ok? && EraseTables(byBlock.value) == EraseTables(byEpoch)
  {
    var epoch := commitment.epoch;
    BlocksAccumulate(t, epoch, blocks);
    WholeIsAccumulated(blocks);
    SameEpochRow(t, commitment, blocks);
    var w := Accumulated(blocks);
    InsertErased(EraseUpdate, t.updates, epoch, w.updates);
    InsertErased(EraseInbox, t.inbox, epoch, w.inbox);
  }

  lemma {:induction false} InsertedRow<V>(rows: Rows<V>, epoch: nat, m: map<AccountId, seq<V>>, a: AccountId)
    requires forall k :: (epoch, k) !in rows
    ensures RowsAt(Insert(rows, epoch, m), epoch, a) == At(m, a)
  {
    InsertAt(rows, epoch, m, (epoch, a));
  }

  lemma {:induction false} ErasedRow(w: Writes, a: AccountId)
    ensures At(Erase(w).updates, a) == MapSeq(EraseUpdate, At(w.updates, a))
  {
  }

  /** The blocks were executed one after the other: `states[i]` is what the state before block `i`
      says of the snark accounts, and the block's updates lead from it to the next. */
  ghost predicate ExecutedBlocks(accounts: map<nat, AccountId>, states: seq<Accounts>, blocks: seq<Block>) {
    && |states| == |blocks| + 1
    && forall i :: 0 <= i < |blocks| ==> ExecutedBlock(accounts, states, blocks, i)
  }

  ghost predicate ExecutedBlock(accounts: map<nat, AccountId>, states: seq<Accounts>, blocks: seq<Block>, i: nat)
    requires i < |blocks| && |states| == |blocks| + 1
  {
    Advances(accounts, states[i], blocks[i].output.updates, SnarkLogs(blocks[i].output.logs), states[i + 1])
  }

  /** Then the epoch as a whole leads from the first state to the last. */
  lemma {:induction false} WholeAdvances(accounts: map<nat, AccountId>, states: seq<Accounts>, blocks: seq<Block>)
    requires ExecutedBlocks(accounts, states, blocks)
    ensures Advances(accounts, states[0], Whole(blocks).updates, SnarkLogs(Whole(blocks).logs), states[|blocks|])
    decreases |blocks|
  {
    if blocks != [] {
      var n := |blocks| - 1;
      var before, sofar := blocks[..n], states[..n + 1];
      forall i | 0 <= i < n ensures ExecutedBlock(accounts, sofar, before, i) {
        assert ExecutedBlock(accounts, states, blocks, i);
      }
      WholeAdvances(accounts, sofar, before);
      assert ExecutedBlock(accounts, states, blocks, n);
      SnarkLogsAppend(Whole(before).logs, blocks[n].output.logs);
      AdvancesAppend(accounts, states[0], Whole(before).updates, SnarkLogs(Whole(before).logs), states[n],
                     blocks[n].output.updates, SnarkLogs(blocks[n].output.logs), states[n + 1]);
    }
  }

  lemma {:induction false} RecordsHaveRoots(c: BlockCommitment, us: seq<Update>, ls: seq<SnarkLog>)
    requires |us| == |ls| && Records(Some(c), us, ls).Ok?
    ensures forall j :: 0 <= j < |us| ==> us[j].state.Some?
    decreases |us|
  {
    if us != [] {
      RecordsHaveRoots(c, us[1..], ls[1..]);
      assert forall j :: 0 < j < |us| ==> us[j] == us[1..][j - 1];
    }
  }

  lemma {:induction false} WholeHasRoots(blocks: seq<Block>)
    requires Indexable(blocks)
    ensures forall j :: 0 <= j < |Whole(blocks).updates| ==> Whole(blocks).updates[j].state.Some?
    decreases |blocks|
  {
    if blocks != [] {
      var b := blocks[|blocks| - 1];
      IndexablePrefix(blocks);
      WholeHasRoots(blocks[..|blocks| - 1]);
      assert Build(Some(b.commitment), b.output).Ok?;
      RecordsHaveRoots(b.commitment, b.output.updates, SnarkLogs(b.output.logs));
    }
  }

  lemma {:induction false} WholeRecoverable(accounts: map<nat, AccountId>, states: seq<Accounts>, blocks: seq<Block>)
    requires Indexable(blocks) && ExecutedBlocks(accounts, states, blocks)
    ensures Build(None, Whole(blocks)).Ok?
    ensures Recoverable(states[0].cursors, accounts, states[|blocks|].roots, Whole(blocks))
  {
    WholeAdvances(accounts, states, blocks);
    WholeHasRoots(blocks);
    WholeIsAccumulated(blocks);
    ExecutedIsRecoverable(accounts, states[0], Whole(blocks), states[|blocks|]);
  }

  /** What checkpoint sync indexes of the epoch: it knows the accounts before the epoch, the logs and
      the accounts after it. */
  ghost function Synced(accounts: map<nat, AccountId>, states: seq<Accounts>, blocks: seq<Block>): Output
    requires Indexable(blocks) && ExecutedBlocks(accounts, states, blocks)
  {
    WholeRecoverable(accounts, states, blocks);
    Rebuilt(states[0].cursors, accounts, states[|blocks|].roots, Whole(blocks))
  }

  /** A node that syncs the epoch from its checkpoint answers every query like a node that
      executed the epoch's blocks: same stamp, same created accounts, same inbox rows and, for
      every account, the same update rows in the same order. What it lacks is the block each
      record came from and the state roots of all but the account's last update. */
  lemma {:induction false} CheckpointSyncMatchesBlockSync(
    t: Tables, commitment: EpochCommitment, blocks: seq<Block>, accounts: map<nat, AccountId>, states: seq<Accounts>,
    a: AccountId)
    requires NoRows(t, commitment.epoch) && Indexable(blocks) && blocks != []
    requires ExecutedBlocks(accounts, states, blocks)
    ensures Build(None, Synced(accounts, states, blocks)).Ok?
    ensures ApplyBlocks(t, commitment.epoch, BlockWrites(blocks)).Ok?
    ensures
      var epoch := commitment.epoch;
      var executed := Stamp(ApplyBlocks(t, epoch, BlockWrites(blocks)).value, commitment);
      var synced := ApplyEpoch(t, commitment, Build(None, Synced(accounts, states, blocks)).value);
      && executed.Ok?
      && EraseTables(synced).epochs == EraseTables(executed.value).epochs
      && EraseTables(synced).inbox == EraseTables(executed.value).inbox
      && synced.creation == executed.value.creation
      && RowsAt(synced.updates, epoch, a)
         == DropAllButLast(MapSeq(EraseUpdate, RowsAt(executed.value.updates, epoch, a)))
  {
    var epoch, whole, synced := commitment.epoch, Whole(blocks), Synced(accounts, states, blocks);
    WholeRecoverable(accounts, states, blocks);
    BothSyncsLeaveTheSameTables(t, commitment, blocks);
    RebuiltRowsMatch(states[0].cursors, accounts, states[|blocks|].roots, whole, a);
    BlocksAccumulate(t, epoch, blocks);
    WholeIsAccumulated(blocks);
    InsertedRow(t.updates, epoch, Accumulated(blocks).updates, a);
    InsertedRow(t.updates, epoch, Build(None, synced).value.updates, a);
    ErasedRow(Accumulated(blocks), a);
  }
}
