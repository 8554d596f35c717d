/** Building index records from an execution output: per block (block sync) and for a whole
    epoch (checkpoint sync), and why the two agree. */
module Indexing {
  import opened Chain
  import opened Seqs

  type AccountId = nat
  type Bytes = seq<nat>

  /** A tracked snark-account update; `state` is the new root when it is known. */
  datatype Update = Update(account: AccountId, state: Option<nat>, prevReadIdx: nat, nextReadIdx: nat, seqno: nat)

  /** A log payload: not a well-formed message, a message of another type, or an account update. */
  datatype Log = Undecodable | Other | Snark(serial: nat, newMsgIdx: nat, extra: Bytes)

  type SnarkLog = l: Log | l.Snark? witness Snark(0, 0, [])

  /** `entry` is the SSZ encoding of the message. */
  datatype InboxWrite = InboxWrite(account: AccountId, entry: Bytes, index: nat)

  datatype Output = Output(created: seq<AccountId>, updates: seq<Update>, inbox: seq<InboxWrite>, logs: seq<Log>)

  datatype Meta = Meta(block: Option<BlockCommitment>, root: nat)

  datatype UpdateRecord = UpdateRecord(meta: Option<Meta>, seqno: nat, prevIdx: nat, nextIdx: nat, extra: Bytes)

  datatype InboxRecord = InboxRecord(entry: Bytes, block: Option<BlockCommitment>)

  datatype Writes = Writes(created: seq<AccountId>, updates: map<AccountId, seq<UpdateRecord>>,
                           inbox: map<AccountId, seq<InboxRecord>>)

  /** `MissingRoot` is the panic of block sync on an update without a state root. */
  datatype IndexError =
    | LogDecode
    | CountMismatch(expected: nat, found: nat)
    | LogMismatch(expected: nat, found: nat)
    | ZeroSeqno(account: AccountId)
    | MissingRoot

  // ---------------------------------------------------------------- grouping by account

  /** The values filed under `k`, in order. */
  function Select<V>(rows: seq<(AccountId, V)>, k: AccountId): seq<V> {
    if rows == [] then []
    else (if rows[0].0 == k then [rows[0].1] else []) + Select(rows[1..], k)
  }

  function KeysOf<V>(rows: seq<(AccountId, V)>): set<AccountId> {
    set i | 0 <= i < |rows| :: rows[i].0
  }

  function Group<V>(rows: seq<(AccountId, V)>): map<AccountId, seq<V>> {
    map k | k in KeysOf(rows) :: Select(rows, k)
  }

  function At<V>(m: map<AccountId, seq<V>>, k: AccountId): seq<V> {
    if k in m then m[k] else []
  }

  /** Each account's values of `a` followed by those of `b`. */
  function Append<V>(a: map<AccountId, seq<V>>, b: map<AccountId, seq<V>>): map<AccountId, seq<V>> {
    map k | k in a.Keys + b.Keys :: At(a, k) + At(b, k)
  }

  lemma {:induction false} SelectAppend<V>(a: seq<(AccountId, V)>, b: seq<(AccountId, V)>, k: AccountId)
    ensures Select(a + b, k) == Select(a, k) + Select(b, k)
  {
    if a == [] {
      AppendEmpty(b);
      AppendEmpty(Select(b, k));
    } else {
      ConsAppend(a, b);
      SelectAppend(a[1..], b, k);
      var head := if a[0].0 == k then [a[0].1] else [];
      AppendAssoc(head, Select(a[1..], k), Select(b, k));
    }
  }

  lemma {:induction false} SelectEmpty<V>(rows: seq<(AccountId, V)>, k: AccountId)
    ensures k in KeysOf(rows) <==> Select(rows, k) != []
  {
    if rows != [] {
      SelectEmpty(rows[1..], k);
      assert forall i :: 0 <= i < |rows| - 1 ==> rows[i + 1] == rows[1..][i];
      if k in KeysOf(rows[1..]) {
        var i :| 0 <= i < |rows[1..]| && rows[1..][i].0 == k;
        assert rows[i + 1].0 == k;
      }
    }
  }

  lemma {:induction false} GroupAt<V>(rows: seq<(AccountId, V)>, k: AccountId)
    ensures At(Group(rows), k) == Select(rows, k)
    ensures k in Group(rows) <==> Select(rows, k) != []
  {
    SelectEmpty(rows, k);
  }

  lemma {:induction false} GroupAppend<V>(a: seq<(AccountId, V)>, b: seq<(AccountId, V)>)
    ensures Group(a + b) == Append(Group(a), Group(b))
  {
    forall k
      ensures k in Group(a + b) <==> k in Append(Group(a), Group(b))
      ensures At(Group(a + b), k) == At(Append(Group(a), Group(b)), k)
    {
      SelectAppend(a, b, k);
      GroupAt(a, k);
      GroupAt(b, k);
      GroupAt(a + b, k);
    }
    forall k | k in Group(a + b) ensures Group(a + b)[k] == Append(Group(a), Group(b))[k] {
      assert At(Group(a + b), k) == At(Append(Group(a), Group(b)), k);
    }
  }

  function Push<V>(m: map<AccountId, seq<V>>, k: AccountId, v: V): map<AccountId, seq<V>> {
    m[k := At(m, k) + [v]]
  }

  lemma {:induction false} GroupPush<V>(rows: seq<(AccountId, V)>, k: AccountId, v: V)
    ensures Group(rows + [(k, v)]) == Push(Group(rows), k, v)
  {
    GroupAppend(rows, [(k, v)]);
    var one := [(k, v)];
    assert Select(one, k) == [v] by {
      assert one[1..] == [];
    }
    assert KeysOf(one) == {k} by {
      assert one[0].0 == k;
    }
    assert Group(one) == map[k := [v]];
    AppendSingle(Group(rows), k, v);
  }

  lemma {:induction false} AppendSingle<V>(m: map<AccountId, seq<V>>, k: AccountId, v: V)
    ensures Append(m, map[k := [v]]) == Push(m, k, v)
  {
    var one := map[k := [v]];
    forall j | j in m.Keys + one.Keys ensures At(m, j) + At(one, j) == Push(m, k, v)[j] {
      AppendEmpty(At(m, j));
    }
  }

  // ---------------------------------------------------------------- the builders

  function SnarkLogs(logs: seq<Log>): seq<SnarkLog> {
    if logs == [] then []
    else (if logs[0].Snark? then [logs[0]] else []) + SnarkLogs(logs[1..])
  }

  ghost predicate Decodable(logs: seq<Log>) {
    forall i :: 0 <= i < |logs| ==> !logs[i].Undecodable?
  }

  /** The record for one update and the log paired with it; `None` block means checkpoint sync. */
  function MakeRecord(block: Option<BlockCommitment>, u: Update, l: SnarkLog): Result<UpdateRecord, IndexError> {
    if l.newMsgIdx != u.nextReadIdx then Err(LogMismatch(u.nextReadIdx, l.newMsgIdx))
    else if block.Some? && u.state.None? then Err(MissingRoot)
    else if u.seqno == 0 then Err(ZeroSeqno(u.account))
    else
      var meta := if u.state.Some? then Some(Meta(block, u.state.value)) else None;
      Ok(UpdateRecord(meta, u.seqno, u.prevReadIdx, u.nextReadIdx, l.extra))
  }

  function Records(block: Option<BlockCommitment>, us: seq<Update>, ls: seq<SnarkLog>)
    : Result<seq<(AccountId, UpdateRecord)>, IndexError>
    requires |us| == |ls|
  {
    if us == [] then Ok([])
    else
      match MakeRecord(block, us[0], ls[0])
      case Err(e) => Err(e)
      case Ok(r) =>
        match Records(block, us[1..], ls[1..])
        case Err(e) => Err(e)
        case Ok(rest) => Ok([(us[0].account, r)] + rest)
  }

  function InboxRows(block: Option<BlockCommitment>, inbox: seq<InboxWrite>): seq<(AccountId, InboxRecord)> {
    seq(|inbox|, i requires 0 <= i < |inbox| => (inbox[i].account, InboxRecord(inbox[i].entry, block)))
  }

  ghost function Build(block: Option<BlockCommitment>, o: Output): Result<Writes, IndexError> {
    if !Decodable(o.logs) then Err(LogDecode)
    else
      var ls := SnarkLogs(o.logs);
      if |o.updates| != |ls| then Err(CountMismatch(|o.updates|, |ls|))
      else
        match Records(block, o.updates, ls)
        case Err(e) => Err(e)
        case Ok(rows) => Ok(Writes(o.created, Group(rows), Group(InboxRows(block, o.inbox))))
  }

  // ---------------------------------------------------------------- what the records hold

  /** `ps` lists the positions of the account-update logs, in order. */
  ghost predicate SnarkPositions(ps: seq<nat>, logs: seq<Log>) {
    Increasing(ps) && forall i: nat :: i in ps <==> i < |logs| && logs[i].Snark?
  }

  /** `ps` lists the positions of the account's updates, in order. */
  ghost predicate UpdatePositions(ps: seq<nat>, us: seq<Update>, a: AccountId) {
    Increasing(ps) && forall i: nat :: i in ps <==> i < |us| && us[i].account == a
  }

  /** `ps` lists the positions of the account's messages, in order. */
  ghost predicate MessagePositions(ps: seq<nat>, inbox: seq<InboxWrite>, a: AccountId) {
    Increasing(ps) && forall i: nat :: i in ps <==> i < |inbox| && inbox[i].account == a
  }

  ghost predicate RowPositions<V(!new)>(ps: seq<nat>, rows: seq<(AccountId, V)>, a: AccountId) {
    Increasing(ps) && forall i: nat :: i in ps <==> i < |rows| && rows[i].0 == a
  }

  /** The account-update logs are the logs of that kind, in order. */
  lemma {:induction false} SnarkLogsAre(logs: seq<Log>) returns (ps: seq<nat>)
    ensures SnarkPositions(ps, logs) && |SnarkLogs(logs)| == |ps|
    ensures forall k :: 0 <= k < |ps| ==> ps[k] < |logs| && SnarkLogs(logs)[k] == logs[ps[k]]
    decreases |logs|
  {
    if logs == [] {
      ps := [];
    } else {
      var first := logs[0].Snark?;
      var qs := SnarkLogsAre(logs[1..]);
      ps := Positions(first, qs);
      PositionsAre(first, qs);
      assert forall i :: 0 < i < |logs| ==> logs[i] == logs[1..][i - 1];
      SnarkLogsAt(logs, qs, ps);
    }
  }

  lemma {:induction false} SnarkLogsAt(logs: seq<Log>, qs: seq<nat>, ps: seq<nat>)
    requires logs != [] && |SnarkLogs(logs[1..])| == |qs| && ps == Positions(logs[0].Snark?, qs)
    requires forall k :: 0 <= k < |qs| ==> qs[k] < |logs| - 1 && SnarkLogs(logs[1..])[k] == logs[qs[k] + 1]
    ensures |SnarkLogs(logs)| == |ps|
    ensures forall k :: 0 <= k < |ps| ==> ps[k] < |logs| && SnarkLogs(logs)[k] == logs[ps[k]]
  {
  }

  lemma {:induction false} SelectAt<V(!new)>(rows: seq<(AccountId, V)>, a: AccountId) returns (ps: seq<nat>)
    ensures RowPositions(ps, rows, a) && |Select(rows, a)| == |ps|
    ensures forall k :: 0 <= k < |ps| ==> ps[k] < |rows| && Select(rows, a)[k] == rows[ps[k]].1
    decreases |rows|
  {
    if rows == [] {
      ps := [];
    } else {
      var first := rows[0].0 == a;
      var qs := SelectAt(rows[1..], a);
      ps := Positions(first, qs);
      PositionsAre(first, qs);
      assert forall i :: 0 < i < |rows| ==> rows[i] == rows[1..][i - 1];
      SelectNext(rows, a, qs, ps);
    }
  }

  lemma {:induction false} SelectNext<V>(rows: seq<(AccountId, V)>, a: AccountId, qs: seq<nat>, ps: seq<nat>)
    requires rows != [] && |Select(rows[1..], a)| == |qs| && ps == Positions(rows[0].0 == a, qs)
    requires forall k :: 0 <= k < |qs| ==> qs[k] < |rows| - 1 && Select(rows[1..], a)[k] == rows[qs[k] + 1].1
    ensures |Select(rows, a)| == |ps|
    ensures forall k :: 0 <= k < |ps| ==> ps[k] < |rows| && Select(rows, a)[k] == rows[ps[k]].1
  {
  }

  /** The update can be recorded with this log: it read up to where the log says, is not the
      account's creation, and, in block sync, has a state root. */
  ghost predicate Recordable(block: Option<BlockCommitment>, u: Update, l: SnarkLog) {
    l.newMsgIdx == u.nextReadIdx && u.seqno > 0 && (block.None? || u.state.Some?)
  }

  /** The record says of the update what the update and its log say. */
  ghost predicate RecordsUpdate(r: UpdateRecord, block: Option<BlockCommitment>, u: Update, l: SnarkLog) {
    && r.seqno == u.seqno && r.prevIdx == u.prevReadIdx && r.nextIdx == u.nextReadIdx && r.extra == l.extra
    && (r.meta.Some? <==> u.state.Some?)
    && (r.meta.Some? ==> r.meta.value.root == u.state.value && r.meta.value.block == block)
  }

  ghost predicate RecordedAs(
    r: (AccountId, UpdateRecord), block: Option<BlockCommitment>, u: Update, l: SnarkLog)
  {
    r.0 == u.account && RecordsUpdate(r.1, block, u, l)
  }

  lemma {:induction false} RecordsAre(block: Option<BlockCommitment>, us: seq<Update>, ls: seq<SnarkLog>)
    requires |us| == |ls|
    ensures Records(block, us, ls).Ok? <==> forall i :: 0 <= i < |us| ==> Recordable(block, us[i], ls[i])
    ensures Records(block, us, ls).Ok? ==>
              var rows := Records(block, us, ls).value;
              |rows| == |us| && forall i :: 0 <= i < |us| ==> RecordedAs(rows[i], block, us[i], ls[i])
  {
    if us != [] {
      RecordsAre(block, us[1..], ls[1..]);
      assert forall i :: 0 < i < |us| ==> us[i] == us[1..][i - 1] && ls[i] == ls[1..][i - 1];
    }
  }

  /** Why an update cannot be recorded, in the order of the checks. */
  ghost predicate Refused(block: Option<BlockCommitment>, u: Update, l: SnarkLog, e: IndexError) {
    || (l.newMsgIdx != u.nextReadIdx && e == LogMismatch(u.nextReadIdx, l.newMsgIdx))
    || (l.newMsgIdx == u.nextReadIdx && block.Some? && u.state.None? && e == MissingRoot)
    || (l.newMsgIdx == u.nextReadIdx && (block.None? || u.state.Some?) && u.seqno == 0 && e == ZeroSeqno(u.account))
  }

  /** Update `i` is the first that cannot be recorded, and `e` says why. */
  ghost predicate FirstRefused(
    block: Option<BlockCommitment>, us: seq<Update>, ls: seq<SnarkLog>, i: nat, e: IndexError)
    requires |us| == |ls|
  {
    && i < |us| && Refused(block, us[i], ls[i], e)
    && forall j :: 0 <= j < i ==> Recordable(block, us[j], ls[j])
  }

  lemma {:induction false} RecordsFail(block: Option<BlockCommitment>, us: seq<Update>, ls: seq<SnarkLog>)
    returns (i: nat)
    requires |us| == |ls| && Records(block, us, ls).Err?
    ensures FirstRefused(block, us, ls, i, Records(block, us, ls).error)
  {
    i := 0;
    if MakeRecord(block, us[0], ls[0]).Ok? {
      var j := RecordsFail(block, us[1..], ls[1..]);
      i := j + 1;
      assert forall k :: 0 < k < |us| ==> us[k] == us[1..][k - 1] && ls[k] == ls[1..][k - 1];
    }
  }

  /** When building succeeds, and which error it reports otherwise. */
  lemma {:induction false} BuildSucceeds(block: Option<BlockCommitment>, o: Output) returns (i: nat)
    ensures
      var ls := SnarkLogs(o.logs);
      Build(block, o).Ok? <==>
      && (forall j :: 0 <= j < |o.logs| ==> !o.logs[j].Undecodable?)
      && |o.updates| == |ls| && forall j :: 0 <= j < |ls| ==> Recordable(block, o.updates[j], ls[j])
    ensures
      var ls := SnarkLogs(o.logs);
      Build(block, o).Err? ==>
        if exists j :: 0 <= j < |o.logs| && o.logs[j].Undecodable? then Build(block, o).error == LogDecode
        else if |o.updates| != |ls| then Build(block, o).error == CountMismatch(|o.updates|, |ls|)
        else FirstRefused(block, o.updates, ls, i, Build(block, o).error)
  {
    i := 0;
    var ls := SnarkLogs(o.logs);
    if |o.updates| == |ls| {
      RecordsAre(block, o.updates, ls);
      if Records(block, o.updates, ls).Err? {
        i := RecordsFail(block, o.updates, ls);
      }
    }
  }

  /** The account's rows are records of its updates, `ps` being their positions. */
  ghost predicate RowsRecord(
    rows: seq<UpdateRecord>, block: Option<BlockCommitment>, us: seq<Update>, ls: seq<SnarkLog>, ps: seq<nat>)
  {
    && |rows| == |ps|
    && forall k :: 0 <= k < |ps| ==>
                     ps[k] < |us| && ps[k] < |ls| && RecordsUpdate(rows[k], block, us[ps[k]], ls[ps[k]])
  }

  /** The account's inbox rows hold its messages, `qs` being their positions. */
  ghost predicate RowsHold(
    rows: seq<InboxRecord>, block: Option<BlockCommitment>, inbox: seq<InboxWrite>, qs: seq<nat>)
  {
    && |rows| == |qs|
    && forall k :: 0 <= k < |qs| ==>
                     qs[k] < |inbox| && rows[k].entry == inbox[qs[k]].entry && rows[k].block == block
  }

  lemma {:induction false} BuiltUpdates(
    block: Option<BlockCommitment>, us: seq<Update>, ls: seq<SnarkLog>, a: AccountId) returns (ps: seq<nat>)
    requires |us| == |ls| && Records(block, us, ls).Ok?
    ensures UpdatePositions(ps, us, a) && (a in Group(Records(block, us, ls).value) <==> ps != [])
    ensures RowsRecord(At(Group(Records(block, us, ls).value), a), block, us, ls, ps)
  {
    var rows := Records(block, us, ls).value;
    RecordsAre(block, us, ls);
    ps := SelectAt(rows, a);
    GroupAt(rows, a);
    assert forall i :: 0 <= i < |rows| ==> RecordedAs(rows[i], block, us[i], ls[i]);
    assert forall i :: 0 <= i < |rows| ==> (rows[i].0 == a <==> us[i].account == a);
    assert ps != [] ==> ps[0] in ps;
  }

  lemma {:induction false} BuiltInbox(block: Option<BlockCommitment>, inbox: seq<InboxWrite>, a: AccountId)
    returns (qs: seq<nat>)
    ensures MessagePositions(qs, inbox, a) && (a in Group(InboxRows(block, inbox)) <==> qs != [])
    ensures RowsHold(At(Group(InboxRows(block, inbox)), a), block, inbox, qs)
  {
    var rows := InboxRows(block, inbox);
    qs := SelectAt(rows, a);
    GroupAt(rows, a);
    assert forall i :: 0 <= i < |rows| ==> (rows[i].0 == a <==> inbox[i].account == a);
  }

  /** What a builder's records are, account by account: the record of the account's k-th update, at
      position `ps[k]` among all updates, holds that update's fields, its own log's extra data and
      its root with the block it came from; the account's k-th inbox record holds its k-th
      message, at position `qs[k]`. */
  lemma {:induction false} BuiltRecords(block: Option<BlockCommitment>, o: Output, a: AccountId)
    returns (ps: seq<nat>, qs: seq<nat>)
    requires Build(block, o).Ok?
    ensures UpdatePositions(ps, o.updates, a) && MessagePositions(qs, o.inbox, a)
    ensures
      var w := Build(block, o).value;
      && w.created == o.created
      && (a in w.updates <==> ps != []) && (a in w.inbox <==> qs != [])
      && (a in w.updates ==> RowsRecord(w.updates[a], block, o.updates, SnarkLogs(o.logs), ps))
      && (a in w.inbox ==> RowsHold(w.inbox[a], block, o.inbox, qs))
  {
    ps := BuiltUpdates(block, o.updates, SnarkLogs(o.logs), a);
    qs := BuiltInbox(block, o.inbox, a);
  }

  /** Each account's rows record its updates, each with its own log. */
  ghost predicate UpdatesIndexed(
    rows: map<AccountId, seq<UpdateRecord>>, block: Option<BlockCommitment>, us: seq<Update>, ls: seq<SnarkLog>)
  {
    forall a: AccountId :: UpdatesIndexedFor(rows, block, us, ls, a)
  }

  ghost predicate UpdatesIndexedFor(
    rows: map<AccountId, seq<UpdateRecord>>, block: Option<BlockCommitment>, us: seq<Update>, ls: seq<SnarkLog>,
    a: AccountId)
  {
    exists ps ::
      && UpdatePositions(ps, us, a) && (a in rows <==> ps != [])
      && (a in rows ==> RowsRecord(rows[a], block, us, ls, ps))
  }

  /** Each account's inbox rows hold its messages. */
  ghost predicate InboxIndexed(
    rows: map<AccountId, seq<InboxRecord>>, block: Option<BlockCommitment>, inbox: seq<InboxWrite>)
  {
    forall a: AccountId :: InboxIndexedFor(rows, block, inbox, a)
  }

  ghost predicate InboxIndexedFor(
    rows: map<AccountId, seq<InboxRecord>>, block: Option<BlockCommitment>, inbox: seq<InboxWrite>, a: AccountId)
  {
    exists qs ::
      && MessagePositions(qs, inbox, a) && (a in rows <==> qs != [])
      && (a in rows ==> RowsHold(rows[a], block, inbox, qs))
  }

  /** The writes record the output's updates, messages and created accounts. */
  ghost predicate Indexed(w: Writes, block: Option<BlockCommitment>, o: Output) {
    && w.created == o.created
    && UpdatesIndexed(w.updates, block, o.updates, SnarkLogs(o.logs))
    && InboxIndexed(w.inbox, block, o.inbox)
  }

  lemma {:induction false} RowsIndexed(block: Option<BlockCommitment>, us: seq<Update>, ls: seq<SnarkLog>)
    requires |us| == |ls| && Records(block, us, ls).Ok?
    ensures UpdatesIndexed(Group(Records(block, us, ls).value), block, us, ls)
  {
    var rows := Group(Records(block, us, ls).value);
    forall a: AccountId ensures UpdatesIndexedFor(rows, block, us, ls, a) {
      var ps := BuiltUpdates(block, us, ls, a);
    }
  }

  lemma {:induction false} MessagesIndexed(block: Option<BlockCommitment>, inbox: seq<InboxWrite>)
    ensures InboxIndexed(Group(InboxRows(block, inbox)), block, inbox)
  {
    var rows := Group(InboxRows(block, inbox));
    forall a: AccountId ensures InboxIndexedFor(rows, block, inbox, a) {
      var qs := BuiltInbox(block, inbox, a);
    }
  }

  // ---------------------------------------------------------------- the procedures

  method CollectSnarkUpdateLogs(logs: seq<Log>) returns (r: Result<seq<SnarkLog>, IndexError>)
    ensures r == if Decodable(logs) then Ok(SnarkLogs(logs)) else Err(LogDecode)
  {
    var out: seq<SnarkLog> := [];
    var i := 0;
    while i < |logs|
      invariant 0 <= i <= |logs|
      invariant Decodable(logs[..i])
      invariant SnarkLogs(logs) == out + SnarkLogs(logs[i..])
    {
      SuffixCons(logs, i);
      if logs[i].Undecodable? {
        return Err(LogDecode);
      }
      if logs[i].Snark? {
        AppendAssoc(out, [logs[i]], SnarkLogs(logs[i + 1..]));
        out := out + [logs[i]];
      } else {
        AppendEmpty(SnarkLogs(logs[i + 1..]));
      }
      i := i + 1;
    }
    AppendEmpty(out);
    assert logs[..i] == logs;
    return Ok(out);
  }

  method BuildUpdates(block: Option<BlockCommitment>, us: seq<Update>, ls: seq<SnarkLog>)
    returns (r: Result<map<AccountId, seq<UpdateRecord>>, IndexError>)
    requires |us| == |ls|
    ensures
      match Records(block, us, ls)
      case Ok(rows) => r == Ok(Group(rows))
      case Err(e) => r == Err(e)
    ensures r.Ok? ==> UpdatesIndexed(r.value, block, us, ls)
  {
    var updates: map<AccountId, seq<UpdateRecord>> := map[];
    ghost var rows: seq<(AccountId, UpdateRecord)> := [];
    assert Group(rows) == map[];
    assert us[0..] == us && ls[0..] == ls;
    ghost var whole := Records(block, us, ls);
    if whole.Ok? {
      AppendEmpty(whole.value);
    }
    var i := 0;
    while i < |us|
      invariant 0 <= i <= |us|
      invariant updates == Group(rows)
      invariant Onto(rows, Records(block, us[i..], ls[i..]), whole)
    {
      SuffixCons(us, i);
      SuffixCons(ls, i);
      var record := MakeRecord(block, us[i], ls[i]);
      if record.Err? {
        return Err(record.error);
      }
      ghost var row := (us[i].account, record.value);
      ghost var rest := Records(block, us[i + 1..], ls[i + 1..]);
      if rest.Ok? {
        AppendAssoc(rows, [row], rest.value);
      }
      GroupPush(rows, us[i].account, record.value);
      rows := rows + [row];
      updates := Push(updates, us[i].account, record.value);
      i := i + 1;
    }
    AppendEmpty(rows);
    RowsIndexed(block, us, ls);
    return Ok(updates);
  }

  method BuildInbox(
    block: Option<BlockCommitment>, inbox: seq<InboxWrite>) returns (r: map<AccountId, seq<InboxRecord>>)
    ensures r == Group(InboxRows(block, inbox)) && InboxIndexed(r, block, inbox)
  {
    r := map[];
    assert Group(InboxRows(block, [])) == map[];
    var i := 0;
    while i < |inbox|
      invariant 0 <= i <= |inbox|
      invariant r == Group(InboxRows(block, inbox[..i]))
    {
      var record := InboxRecord(inbox[i].entry, block);
      GroupPush(InboxRows(block, inbox[..i]), inbox[i].account, record);
      assert InboxRows(block, inbox[..i + 1]) == InboxRows(block, inbox[..i]) + [(inbox[i].account, record)];
      r := Push(r, inbox[i].account, record);
      i := i + 1;
    }
    assert inbox[..i] == inbox;
    MessagesIndexed(block, inbox);
  }

  method BuildIndexingWrites(commitment: BlockCommitment, o: Output) returns (r: Result<Writes, IndexError>)
    ensures r == Build(Some(commitment), o)
    ensures r.Ok? ==> Indexed(r.value, Some(commitment), o)
  {
    var ls := CollectSnarkUpdateLogs(o.logs);
    if ls.Err? {
      return Err(ls.error);
    }
    if |o.updates| != |ls.value| {
      return Err(CountMismatch(|o.updates|, |ls.value|));
    }
    var updates := BuildUpdates(Some(commitment), o.updates, ls.value);
    if updates.Err? {
      return Err(updates.error);
    }
    var inbox := BuildInbox(Some(commitment), o.inbox);
    return Ok(Writes(o.created, updates.value, inbox));
  }

  method BuildCheckpointIndexingWrites(o: Output) returns (r: Result<Writes, IndexError>)
    ensures r == Build(None, o)
    ensures r.Ok? ==> Indexed(r.value, None, o)
  {
    var ls := CollectSnarkUpdateLogs(o.logs);
    if ls.Err? {
      return Err(ls.error);
    }
    if |o.updates| != |ls.value| {
      return Err(CountMismatch(|o.updates|, |ls.value|));
    }
    var updates := BuildUpdates(None, o.updates, ls.value);
    if updates.Err? {
      return Err(updates.error);
    }
    var inbox := BuildInbox(None, o.inbox);
    return Ok(Writes(o.created, updates.value, inbox));
  }

  // ---------------------------------------------------------------- attribution

  function EraseUpdate(r: UpdateRecord): UpdateRecord {
    if r.meta.Some? then r.(meta := Some(Meta(None, r.meta.value.root))) else r
  }

  function EraseInbox(r: InboxRecord): InboxRecord {
    r.(block := None)
  }

  function MapSeq<A, B>(f: A -> B, s: seq<A>): seq<B> {
    seq(|s|, i requires 0 <= i < |s| => f(s[i]))
  }

  function MapRows<A, B>(f: A -> B, rows: seq<(AccountId, A)>): seq<(AccountId, B)> {
    seq(|rows|, i requires 0 <= i < |rows| => (rows[i].0, f(rows[i].1)))
  }

  function MapValues<A, B>(f: A -> B, m: map<AccountId, seq<A>>): map<AccountId, seq<B>> {
    map k | k in m :: MapSeq(f, m[k])
  }

  /** The same writes with no record saying which block it came from. */
  function Erase(w: Writes): Writes {
    Writes(w.created, MapValues(EraseUpdate, w.updates), MapValues(EraseInbox, w.inbox))
  }

  lemma {:induction false} SelectMap<A, B>(f: A -> B, rows: seq<(AccountId, A)>, k: AccountId)
    ensures Select(MapRows(f, rows), k) == MapSeq(f, Select(rows, k))
  {
    if rows != [] {
      SelectMap(f, rows[1..], k);
      assert MapRows(f, rows)[1..] == MapRows(f, rows[1..]);
    }
  }

  lemma {:induction false} GroupMap<A, B>(f: A -> B, rows: seq<(AccountId, A)>)
    ensures Group(MapRows(f, rows)) == MapValues(f, Group(rows))
  {
    assert forall i :: 0 <= i < |rows| ==> MapRows(f, rows)[i].0 == rows[i].0;
    assert KeysOf(MapRows(f, rows)) == KeysOf(rows);
    forall k | k in KeysOf(rows) ensures Select(MapRows(f, rows), k) == MapSeq(f, Select(rows, k)) {
      SelectMap(f, rows, k);
    }
  }

  lemma {:induction false} RecordsErase(c: BlockCommitment, us: seq<Update>, ls: seq<SnarkLog>)
    requires |us| == |ls|
    ensures Records(Some(c), us, ls).Ok? <==>
            Records(None, us, ls).Ok? && forall i :: 0 <= i < |us| ==> us[i].state.Some?
    ensures Records(Some(c), us, ls).Ok? ==>
              Records(None, us, ls) == Ok(MapRows(EraseUpdate, Records(Some(c), us, ls).value))
  {
    if us != [] {
      RecordsErase(c, us[1..], ls[1..]);
      assert forall i :: 0 <= i < |us| - 1 ==> us[i + 1] == us[1..][i];
      if Records(Some(c), us, ls).Ok? {
        var rows := Records(Some(c), us, ls).value;
        assert rows[1..] == Records(Some(c), us[1..], ls[1..]).value;
        assert MapRows(EraseUpdate, rows) == [(rows[0].0, EraseUpdate(rows[0].1))] + MapRows(EraseUpdate, rows[1..]);
      }
    } else {
      assert MapRows(EraseUpdate, []) == [];
    }
  }

  /** Block sync succeeds exactly when checkpoint sync does and every update has its root, and
      then checkpoint sync builds the same records with the block attribution erased. */
  lemma {:induction false} CheckpointIsErasedBlock(c: BlockCommitment, o: Output)
    ensures Build(Some(c), o).Ok? <==>
            Build(None, o).Ok? && forall i :: 0 <= i < |o.updates| ==> o.updates[i].state.Some?
    ensures Build(Some(c), o).Ok? ==> Build(None, o) == Ok(Erase(Build(Some(c), o).value))
  {
    var ls := SnarkLogs(o.logs);
    if Decodable(o.logs) && |o.updates| == |ls| {
      RecordsErase(c, o.updates, ls);
      if Records(Some(c), o.updates, ls).Ok? {
        GroupMap(EraseUpdate, Records(Some(c), o.updates, ls).value);
      }
      GroupMap(EraseInbox, InboxRows(Some(c), o.inbox));
      assert InboxRows(None, o.inbox) == MapRows(EraseInbox, InboxRows(Some(c), o.inbox));
    }
  }

  // ---------------------------------------------------------------- splitting into blocks

  function Concat(a: Output, b: Output): Output {
    Output(a.created + b.created, a.updates + b.updates, a.inbox + b.inbox, a.logs + b.logs)
  }

  function AppendWrites(a: Writes, b: Writes): Writes {
    Writes(a.created + b.created, Append(a.updates, b.updates), Append(a.inbox, b.inbox))
  }

  lemma {:induction false} SnarkLogsAppend(a: seq<Log>, b: seq<Log>)
    ensures SnarkLogs(a + b) == SnarkLogs(a) + SnarkLogs(b)
  {
    if a == [] {
      AppendEmpty(b);
      AppendEmpty(SnarkLogs(b));
    } else {
      ConsAppend(a, b);
      SnarkLogsAppend(a[1..], b);
      var head: seq<SnarkLog> := if a[0].Snark? then [a[0]] else [];
      AppendAssoc(head, SnarkLogs(a[1..]), SnarkLogs(b));
    }
  }

  lemma {:induction false} RecordsAppend(
    block: Option<BlockCommitment>, us: seq<Update>, ls: seq<SnarkLog>, us': seq<Update>, ls': seq<SnarkLog>)
    requires |us| == |ls| && |us'| == |ls'|
    ensures Records(block, us + us', ls + ls').Ok? <==> Records(block, us, ls).Ok? && Records(block, us', ls').Ok?
    ensures Records(block, us, ls).Ok? && Records(block, us', ls').Ok? ==>
              Records(block, us + us', ls + ls') == Ok(Records(block, us, ls).value + Records(block, us', ls').value)
  {
    if us == [] {
      AppendEmpty(us');
      AppendEmpty(ls');
      if Records(block, us', ls').Ok? {
        AppendEmpty(Records(block, us', ls').value);
      }
    } else {
      ConsAppend(us, us');
      ConsAppend(ls, ls');
      RecordsAppend(block, us[1..], ls[1..], us', ls');
      if Records(block, us, ls).Ok? && Records(block, us', ls').Ok? {
        var first := (us[0].account, MakeRecord(block, us[0], ls[0]).value);
        AppendAssoc([first], Records(block, us[1..], ls[1..]).value, Records(block, us', ls').value);
      }
    }
  }

  /** Cutting an output in two and appending the records of the parts gives the records of the
      whole; given that each part pairs its own updates with its own logs, the whole succeeds
      exactly when both parts do. */
  lemma {:induction false} BuildSplits(block: Option<BlockCommitment>, a: Output, b: Output)
    requires |a.updates| == |SnarkLogs(a.logs)|
    ensures Build(block, Concat(a, b)).Ok? <==> Build(block, a).Ok? && Build(block, b).Ok?
    ensures Build(block, a).Ok? && Build(block, b).Ok? ==>
              Build(block, Concat(a, b)) == Ok(AppendWrites(Build(block, a).value, Build(block, b).value))
  {
    SnarkLogsAppend(a.logs, b.logs);
    assert Decodable(a.logs + b.logs) <==> Decodable(a.logs) && Decodable(b.logs) by {
      assert forall i :: 0 <= i < |a.logs| ==> (a.logs + b.logs)[i] == a.logs[i];
      assert forall i :: 0 <= i < |b.logs| ==> (a.logs + b.logs)[|a.logs| + i] == b.logs[i];
    }
    if |b.updates| == |SnarkLogs(b.logs)| {
      RecordsAppend(block, a.updates, SnarkLogs(a.logs), b.updates, SnarkLogs(b.logs));
      if Records(block, a.updates, SnarkLogs(a.logs)).Ok? && Records(block, b.updates, SnarkLogs(b.logs)).Ok? {
        GroupAppend(Records(block, a.updates, SnarkLogs(a.logs)).value,
                    Records(block, b.updates, SnarkLogs(b.logs)).value);
      }
    }
    assert InboxRows(block, a.inbox + b.inbox) == InboxRows(block, a.inbox) + InboxRows(block, b.inbox);
    GroupAppend(InboxRows(block, a.inbox), InboxRows(block, b.inbox));
  }
}
