/** Rebuilding an epoch's per-update records from its checkpoint logs, and why the rows that
    checkpoint sync writes say what block sync's rows say. */
module Reconstruct {
  import opened Chain
  import opened Indexing
  import opened Seqs

  /** An account's sequence number and inbox position. */
  datatype Cursor = Cursor(seqno: nat, nextIdx: nat)

  datatype ReconstructError = UndecodableLog | UnknownSerial(serial: nat) | AccountRead

  function CursorOf(cursors: map<nat, Cursor>, serial: nat): Cursor {
    if serial in cursors then cursors[serial] else Cursor(0, 0)
  }

  /** One update per account-update log, continuing the account's cursor; no state roots yet. */
  function Rebuild(cursors: map<nat, Cursor>, accounts: map<nat, AccountId>, logs: seq<Log>)
    : Result<seq<Update>, ReconstructError>
    decreases |logs|
  {
    if logs == [] then Ok([])
    else
      match logs[0]
      case Undecodable => Err(UndecodableLog)
      case Other => Rebuild(cursors, accounts, logs[1..])
      case Snark(serial, newMsgIdx, _) =>
        if serial !in accounts then Err(UnknownSerial(serial))
        else
          var cur := CursorOf(cursors, serial);
          var u := Update(accounts[serial], None, cur.nextIdx, newMsgIdx, cur.seqno + 1);
          match Rebuild(cursors[serial := Cursor(u.seqno, u.nextReadIdx)], accounts, logs[1..])
          case Err(e) => Err(e)
          case Ok(rest) => Ok([u] + rest)
  }

  predicate IsLast(us: seq<Update>, i: nat)
    requires i < |us|
  {
    forall j :: i < j < |us| ==> us[j].account != us[i].account
  }

  predicate RootsKnown(roots: map<AccountId, nat>, us: seq<Update>) {
    forall i :: 0 <= i < |us| ==> us[i].account in roots
  }

  /** Each account's last update gets its root, every other update none. */
  function StampLast(roots: map<AccountId, nat>, us: seq<Update>): seq<Update>
    requires RootsKnown(roots, us)
  {
    seq(|us|, i requires 0 <= i < |us| => us[i].(state := if IsLast(us, i) then Some(roots[us[i].account]) else None))
  }

  method ReconstructSnarkUpdates(
    cursors: map<nat, Cursor>, accounts: map<nat, AccountId>, roots: map<AccountId, nat>, logs: seq<Log>)
    returns (r: Result<seq<Update>, ReconstructError>)
    ensures
      match Rebuild(cursors, accounts, logs)
      case Err(e) => r == Err(e)
      case Ok(us) => r == if RootsKnown(roots, us) then Ok(StampLast(roots, us)) else Err(AccountRead)
  {
    var us, lastIdx := WalkLogs(cursors, accounts, logs);
    if us.Err? {
      return Err(us.error);
    }
    r := StampRoots(roots, us.value, lastIdx);
  }

  /** The first pass: one update per account-update log, and the index of each account's last. */
  method WalkLogs(cursors: map<nat, Cursor>, accounts: map<nat, AccountId>, logs: seq<Log>)
    returns (r: Result<seq<Update>, ReconstructError>, lastIdx: map<AccountId, nat>)
    ensures r == Rebuild(cursors, accounts, logs)
    ensures r.Ok? ==> LastIndex(r.value, lastIdx) && Rootless(r.value)
  {
    var cur: map<nat, Cursor> := cursors;
    var us: seq<Update> := [];
    lastIdx := map[];
    assert logs[0..] == logs;
    ghost var whole := Rebuild(cursors, accounts, logs);
    if whole.Ok? {
      AppendEmpty(whole.value);
    }
    var i := 0;
    while i < |logs|
      invariant 0 <= i <= |logs|
      invariant Onto(us, Rebuild(cur, accounts, logs[i..]), whole)
      invariant LastIndex(us, lastIdx)
      invariant Rootless(us)
    {
      SuffixCons(logs, i);
      var log := logs[i];
      i := i + 1;
      if log.Undecodable? {
        return Err(UndecodableLog), lastIdx;
      }
      if log.Other? {
        continue;
      }
      if log.serial !in accounts {
        return Err(UnknownSerial(log.serial)), lastIdx;
      }
      var c := CursorOf(cur, log.serial);
      var u := Update(accounts[log.serial], None, c.nextIdx, log.newMsgIdx, c.seqno + 1);
      cur := cur[log.serial := Cursor(u.seqno, u.nextReadIdx)];
      ghost var rest := Rebuild(cur, accounts, logs[i..]);
      if rest.Ok? {
        AppendAssoc(us, [u], rest.value);
      }
      LastIndexPush(us, lastIdx, u);
      lastIdx := lastIdx[u.account := |us|];
      us := us + [u];
    }
    AppendEmpty(us);
    r := Ok(us);
  }

  ghost predicate Rootless(us: seq<Update>) {
    forall j :: 0 <= j < |us| ==> us[j].state == None
  }

  ghost predicate LastIndex(us: seq<Update>, lastIdx: map<AccountId, nat>) {
    && (forall i :: 0 <= i < |us| ==> us[i].account in lastIdx)
    && forall a :: a in lastIdx ==> lastIdx[a] < |us| && us[lastIdx[a]].account == a && IsLast(us, lastIdx[a])
  }

  lemma {:induction false} LastIndexPush(us: seq<Update>, lastIdx: map<AccountId, nat>, u: Update)
    requires LastIndex(us, lastIdx)
    ensures LastIndex(us + [u], lastIdx[u.account := |us|])
  {
    var longer := us + [u];
    forall a | a in lastIdx && a != u.account ensures IsLast(longer, lastIdx[a]) {
      assert forall j :: 0 <= j < |us| ==> longer[j] == us[j];
    }
  }

  /** The second pass: one look-up of the post-epoch root per account. */
  method StampRoots(roots: map<AccountId, nat>, us: seq<Update>, lastIdx: map<AccountId, nat>)
    returns (r: Result<seq<Update>, ReconstructError>)
    requires LastIndex(us, lastIdx)
    requires Rootless(us)
    ensures r == if RootsKnown(roots, us) then Ok(StampLast(roots, us)) else Err(AccountRead)
  {
    var out := us;
    var todo := lastIdx.Keys;
    while todo != {}
      invariant todo <= lastIdx.Keys && |out| == |us|
      invariant forall a :: a in lastIdx.Keys - todo ==> a in roots
      invariant forall i :: 0 <= i < |us| ==>
                              out[i] == us[i].(state := if us[i].account !in todo && IsLast(us, i)
                                                           && us[i].account in roots
                              then Some(roots[us[i].account]) else None)
      decreases todo
    {
      var a :| a in todo;
      if a !in roots {
        return Err(AccountRead);
      }
      var idx := lastIdx[a];
      out := out[idx := out[idx].(state := Some(roots[a]))];
      forall i | 0 <= i < |us| && us[i].account == a && i != idx ensures !IsLast(us, i) {
        assert i < idx;
      }
      todo := todo - {a};
    }
    assert out == StampLast(roots, us);
    return Ok(out);
  }

  // ---------------------------------------------------------------- recovering the update stream

  /** The cursor that the first `i` updates leave for a serial: that of the last update for it, or
      the one before them all. */
  function Latest(cursors: map<nat, Cursor>, us: seq<Update>, ls: seq<SnarkLog>, i: nat, serial: nat): Cursor
    requires i <= |us| == |ls|
    decreases i
  {
    if i == 0 then (if serial in cursors then cursors[serial] else Cursor(0, 0))
    else if ls[i - 1].serial == serial then Cursor(us[i - 1].seqno, us[i - 1].nextReadIdx)
    else Latest(cursors, us, ls, i - 1, serial)
  }

  /** Update `i` belongs to the account its log names and goes on where the last earlier update of
      that account, or the account's state before the updates, stopped. */
  ghost predicate Continues(
    cursors: map<nat, Cursor>, accounts: map<nat, AccountId>, us: seq<Update>, ls: seq<SnarkLog>, i: nat)
    requires i < |us| == |ls|
  {
    var cur := Latest(cursors, us, ls, i, ls[i].serial);
    && ls[i].serial in accounts && us[i].account == accounts[ls[i].serial]
    && us[i].nextReadIdx == ls[i].newMsgIdx
    && us[i].seqno == cur.seqno + 1 && us[i].prevReadIdx == cur.nextIdx
  }

  /** The stream block execution tracks: every update continues its account's cursor and is
      described by its log. */
  ghost predicate Sequential(
    cursors: map<nat, Cursor>, accounts: map<nat, AccountId>, us: seq<Update>, ls: seq<SnarkLog>)
  {
    |us| == |ls| && forall i :: 0 <= i < |us| ==> Continues(cursors, accounts, us, ls, i)
  }

  /** Looking back past the first update is looking back to what it left. */
  lemma {:induction false} LatestCons(
    cursors: map<nat, Cursor>, us: seq<Update>, ls: seq<SnarkLog>, i: nat, serial: nat)
    requires 0 < |us| == |ls| && i < |us|
    ensures
      var next := cursors[ls[0].serial := Cursor(us[0].seqno, us[0].nextReadIdx)];
      Latest(cursors, us, ls, i + 1, serial) == Latest(next, us[1..], ls[1..], i, serial)
    decreases i
  {
    if i > 0 {
      LatestCons(cursors, us, ls, i - 1, serial);
    }
  }

  lemma {:induction false} SequentialTail(
    cursors: map<nat, Cursor>, accounts: map<nat, AccountId>, us: seq<Update>, ls: seq<SnarkLog>)
    requires Sequential(cursors, accounts, us, ls) && us != []
    ensures Sequential(cursors[ls[0].serial := Cursor(us[0].seqno, us[0].nextReadIdx)], accounts, us[1..], ls[1..])
  {
    var next := cursors[ls[0].serial := Cursor(us[0].seqno, us[0].nextReadIdx)];
    forall i | 0 <= i < |us| - 1 ensures Continues(next, accounts, us[1..], ls[1..], i) {
      assert Continues(cursors, accounts, us, ls, i + 1);
      LatestCons(cursors, us, ls, i, ls[i + 1].serial);
    }
  }

  function Strip(us: seq<Update>): seq<Update> {
    seq(|us|, i requires 0 <= i < |us| => us[i].(state := None))
  }

  /** Everything about the updates but the intermediate roots can be recovered from the logs. */
  lemma {:induction false} RebuildRecovers(
    cursors: map<nat, Cursor>, accounts: map<nat, AccountId>, us: seq<Update>, logs: seq<Log>)
    requires Decodable(logs) && Sequential(cursors, accounts, us, SnarkLogs(logs))
    ensures Rebuild(cursors, accounts, logs) == Ok(Strip(us))
    decreases |logs|
  {
    if logs == [] {
      assert Strip(us) == [];
    } else if logs[0].Other? {
      AppendEmpty(SnarkLogs(logs[1..]));
      RebuildRecovers(cursors, accounts, us, logs[1..]);
    } else {
      var ls := SnarkLogs(logs);
      assert !logs[0].Undecodable?;
      assert ls[1..] == SnarkLogs(logs[1..]);
      assert Continues(cursors, accounts, us, ls, 0);
      SequentialTail(cursors, accounts, us, ls);
      RebuildRecovers(cursors[ls[0].serial := Cursor(us[0].seqno, us[0].nextReadIdx)], accounts, us[1..], logs[1..]);
      assert Strip(us) == [us[0].(state := None)] + Strip(us[1..]);
    }
  }

  lemma {:induction false} SequentialCons(
    cursors: map<nat, Cursor>, accounts: map<nat, AccountId>, us: seq<Update>, ls: seq<SnarkLog>)
    requires us != [] && |us| == |ls| && Continues(cursors, accounts, us, ls, 0)
    requires Sequential(cursors[ls[0].serial := Cursor(us[0].seqno, us[0].nextReadIdx)], accounts, us[1..], ls[1..])
    ensures Sequential(cursors, accounts, us, ls)
  {
    var next := cursors[ls[0].serial := Cursor(us[0].seqno, us[0].nextReadIdx)];
    forall i | 0 < i < |us| ensures Continues(cursors, accounts, us, ls, i) {
      assert Continues(next, accounts, us[1..], ls[1..], i - 1);
      LatestCons(cursors, us, ls, i - 1, ls[i].serial);
    }
  }

  /** The log can be turned into an update, or is of no concern. */
  ghost predicate Readable(accounts: map<nat, AccountId>, l: Log) {
    !l.Undecodable? && (l.Snark? ==> l.serial in accounts)
  }

  /** Rebuilding succeeds exactly when every log decodes and names a known account, and then the
      updates are rootless and continue the cursors one after the other as their logs say;
      otherwise the first log that cannot be read decides the error. */
  lemma {:induction false} RebuildIsSequential(
    cursors: map<nat, Cursor>, accounts: map<nat, AccountId>, logs: seq<Log>)
    ensures
      match Rebuild(cursors, accounts, logs)
      case Ok(us) =>
        && (forall i :: 0 <= i < |logs| ==> Readable(accounts, logs[i]))
        && Rootless(us) && Sequential(cursors, accounts, us, SnarkLogs(logs))
      case Err(e) => Unreadable(accounts, logs, e)
    decreases |logs|
  {
    if logs != [] {
      var rest := logs[1..];
      assert forall i :: 0 < i < |logs| ==> logs[i] == rest[i - 1];
      if !Readable(accounts, logs[0]) {
        var e := if logs[0].Undecodable? then UndecodableLog else UnknownSerial(logs[0].serial);
        assert Rebuild(cursors, accounts, logs) == Err(e);
        assert FirstUnreadable(accounts, logs, 0, e);
        assert Unreadable(accounts, logs, e);
      } else {
        var l := logs[0];
        var cur := if l.Snark? then CursorOf(cursors, l.serial) else Cursor(0, 0);
        var next := if l.Snark? then cursors[l.serial := Cursor(cur.seqno + 1, l.newMsgIdx)] else cursors;
        RebuildIsSequential(next, accounts, rest);
        if Rebuild(next, accounts, rest).Err? {
          var e := Rebuild(next, accounts, rest).error;
          var i: nat :| FirstUnreadable(accounts, rest, i, e);
          assert logs[i + 1] == rest[i];
          assert FirstUnreadable(accounts, logs, i + 1, e);
          assert Unreadable(accounts, logs, e);
        } else if l.Snark? {
          RebuildNext(cursors, accounts, logs);
        } else {
          AppendEmpty(SnarkLogs(rest));
        }
      }
    }
  }

  lemma {:induction false} RebuildNext(cursors: map<nat, Cursor>, accounts: map<nat, AccountId>, logs: seq<Log>)
    requires logs != [] && logs[0].Snark? && logs[0].serial in accounts
    requires
      var l := logs[0];
      var rest := Rebuild(cursors[l.serial := Cursor(CursorOf(cursors, l.serial).seqno + 1, l.newMsgIdx)], accounts,
                          logs[1..]);
      && rest.Ok? && Rootless(rest.value)
      && Sequential(cursors[l.serial := Cursor(CursorOf(cursors, l.serial).seqno + 1, l.newMsgIdx)], accounts,
                    rest.value, SnarkLogs(logs[1..]))
    ensures
      var us := Rebuild(cursors, accounts, logs);
      us.Ok? && Rootless(us.value) && Sequential(cursors, accounts, us.value, SnarkLogs(logs))
  {
    var us, ls := Rebuild(cursors, accounts, logs).value, SnarkLogs(logs);
    assert ls[0] == logs[0] && ls[1..] == SnarkLogs(logs[1..]);
    var next := cursors[ls[0].serial := Cursor(us[0].seqno, us[0].nextReadIdx)];
    assert us[1..] == Rebuild(next, accounts, logs[1..]).value;
    SequentialCons(cursors, accounts, us, ls);
  }

  ghost predicate Unreadable(accounts: map<nat, AccountId>, logs: seq<Log>, e: ReconstructError) {
    exists i: nat :: FirstUnreadable(accounts, logs, i, e)
  }

  /** Log `i` is the first that cannot be read, and the error says why. */
  ghost predicate FirstUnreadable(accounts: map<nat, AccountId>, logs: seq<Log>, i: nat, e: ReconstructError) {
    && i < |logs| && (forall j :: 0 <= j < i ==> Readable(accounts, logs[j]))
    && ((logs[i].Undecodable? && e == UndecodableLog)
        || (logs[i].Snark? && logs[i].serial !in accounts && e == UnknownSerial(logs[i].serial)))
  }

  // ---------------------------------------------------------------- one block after another

  /** What a state says about the snark accounts: cursors by serial and inner roots by account. */
  datatype Accounts = Accounts(cursors: map<nat, Cursor>, roots: map<AccountId, nat>)

  function RootOf(roots: map<AccountId, nat>, a: AccountId): Option<nat> {
    if a in roots then Some(roots[a]) else None
  }

  /** The root that the first `i` updates leave for an account. */
  function LatestRoot(roots: map<AccountId, nat>, us: seq<Update>, i: nat, a: AccountId): Option<nat>
    requires i <= |us|
    decreases i
  {
    if i == 0 then RootOf(roots, a)
    else if us[i - 1].account == a then us[i - 1].state
    else LatestRoot(roots, us, i - 1, a)
  }

  /** The updates lead from one state to another: they continue its cursors, and what the second
      says of each account is what the last update left, or what the first said. */
  ghost predicate Advances(
    accounts: map<nat, AccountId>, s: Accounts, us: seq<Update>, ls: seq<SnarkLog>, t: Accounts)
  {
    && Sequential(s.cursors, accounts, us, ls)
    && (forall serial :: CursorOf(t.cursors, serial) == Latest(s.cursors, us, ls, |us|, serial))
    && (forall a :: RootOf(t.roots, a) == LatestRoot(s.roots, us, |us|, a))
  }

  lemma {:induction false} LatestPrefix(
    cursors: map<nat, Cursor>, us: seq<Update>, ls: seq<SnarkLog>, us': seq<Update>, ls': seq<SnarkLog>, i: nat,
    serial: nat)
    requires i <= |us| == |ls| && |us'| == |ls'|
    ensures Latest(cursors, us + us', ls + ls', i, serial) == Latest(cursors, us, ls, i, serial)
    decreases i
  {
    if i > 0 {
      LatestPrefix(cursors, us, ls, us', ls', i - 1, serial);
    }
  }

  lemma {:induction false} LatestAppend(
    s: map<nat, Cursor>, t: map<nat, Cursor>, us: seq<Update>, ls: seq<SnarkLog>, us': seq<Update>, ls': seq<SnarkLog>,
    i: nat, serial: nat)
    requires |us| == |ls| && i <= |us'| == |ls'|
    requires CursorOf(t, serial) == Latest(s, us, ls, |us|, serial)
    ensures Latest(s, us + us', ls + ls', |us| + i, serial) == Latest(t, us', ls', i, serial)
    decreases i
  {
    if i > 0 {
      LatestAppend(s, t, us, ls, us', ls', i - 1, serial);
    } else {
      LatestPrefix(s, us, ls, us', ls', |us|, serial);
    }
  }

  lemma {:induction false} LatestRootPrefix(
    s: map<AccountId, nat>, us: seq<Update>, us': seq<Update>, i: nat, a: AccountId)
    requires i <= |us|
    ensures LatestRoot(s, us + us', i, a) == LatestRoot(s, us, i, a)
    decreases i
  {
    if i > 0 {
      LatestRootPrefix(s, us, us', i - 1, a);
    }
  }

  lemma {:induction false} LatestRootAppend(
    s: map<AccountId, nat>, t: map<AccountId, nat>, us: seq<Update>, us': seq<Update>, i: nat, a: AccountId)
    requires i <= |us'| && RootOf(t, a) == LatestRoot(s, us, |us|, a)
    ensures LatestRoot(s, us + us', |us| + i, a) == LatestRoot(t, us', i, a)
    decreases i
  {
    if i > 0 {
      LatestRootAppend(s, t, us, us', i - 1, a);
    } else {
      LatestRootPrefix(s, us, us', |us|, a);
    }
  }

  /** Blocks executed one after the other advance the accounts like one block of all their
      updates. */
  lemma {:induction false} AdvancesAppend(
    accounts: map<nat, AccountId>, s: Accounts, us: seq<Update>, ls: seq<SnarkLog>, t: Accounts,
    us': seq<Update>, ls': seq<SnarkLog>, v: Accounts)
    requires Advances(accounts, s, us, ls, t) && Advances(accounts, t, us', ls', v)
    ensures Advances(accounts, s, us + us', ls + ls', v)
  {
    SequentialAppend(accounts, s, us, ls, t, us', ls', v);
    forall serial ensures CursorOf(v.cursors, serial) == Latest(s.cursors, us + us', ls + ls', |us + us'|, serial) {
      LatestAppend(s.cursors, t.cursors, us, ls, us', ls', |us'|, serial);
    }
    forall a ensures RootOf(v.roots, a) == LatestRoot(s.roots, us + us', |us + us'|, a) {
      LatestRootAppend(s.roots, t.roots, us, us', |us'|, a);
    }
  }

  lemma {:induction false} SequentialAppend(
    accounts: map<nat, AccountId>, s: Accounts, us: seq<Update>, ls: seq<SnarkLog>, t: Accounts,
    us': seq<Update>, ls': seq<SnarkLog>, v: Accounts)
    requires Advances(accounts, s, us, ls, t) && Advances(accounts, t, us', ls', v)
    ensures Sequential(s.cursors, accounts, us + us', ls + ls')
  {
    forall i | 0 <= i < |us + us'| ensures Continues(s.cursors, accounts, us + us', ls + ls', i) {
      if i < |us| {
        assert Continues(s.cursors, accounts, us, ls, i);
        LatestPrefix(s.cursors, us, ls, us', ls', i, ls[i].serial);
      } else {
        assert Continues(t.cursors, accounts, us', ls', i - |us|);
        LatestAppend(s.cursors, t.cursors, us, ls, us', ls', i - |us|, ls'[i - |us|].serial);
      }
    }
  }

  // ---------------------------------------------------------------- agreement of the rows

  function DropMeta(r: UpdateRecord): UpdateRecord {
    r.(meta := None)
  }

  /** Only the last record of an account keeps its root. */
  function DropAllButLast(rs: seq<UpdateRecord>): seq<UpdateRecord> {
    if rs == [] then []
    else [if |rs| == 1 then rs[0] else DropMeta(rs[0])] + DropAllButLast(rs[1..])
  }

  /** `us'` is `us` with the roots of all but each account's last update missing. */
  ghost predicate LastRootsOnly(us: seq<Update>, us': seq<Update>) {
    && |us| == |us'|
    && forall i :: 0 <= i < |us| ==> us'[i] == us[i].(state := if IsLast(us, i) then us[i].state else None)
  }

  lemma {:induction false} LastRootsTail(us: seq<Update>, us': seq<Update>)
    requires LastRootsOnly(us, us') && us != []
    ensures LastRootsOnly(us[1..], us'[1..])
  {
    var t := us[1..];
    forall i | 0 <= i < |t| ensures us'[1..][i] == t[i].(state := if IsLast(t, i) then t[i].state else None) {
      assert IsLast(t, i) <==> IsLast(us, i + 1) by {
        assert forall j :: i < j < |t| ==> t[j] == us[j + 1];
        assert forall j :: i + 1 < j < |us| ==> us[j] == t[j - 1];
      }
    }
  }

  lemma {:induction false} RecordKeys(us: seq<Update>, ls: seq<SnarkLog>, block: Option<BlockCommitment>)
    requires |us| == |ls| && Records(block, us, ls).Ok?
    ensures |Records(block, us, ls).value| == |us|
    ensures forall i :: 0 <= i < |us| ==> Records(block, us, ls).value[i].0 == us[i].account
  {
    if us != [] {
      RecordKeys(us[1..], ls[1..], block);
    }
  }

  lemma {:induction false} LastMeansNoneLater(us: seq<Update>, ls: seq<SnarkLog>)
    requires us != [] && |us| == |ls| && Records(None, us[1..], ls[1..]).Ok?
    ensures IsLast(us, 0) <==> Select(Records(None, us[1..], ls[1..]).value, us[0].account) == []
  {
    var rest := Records(None, us[1..], ls[1..]).value;
    RecordKeys(us[1..], ls[1..], None);
    SelectEmpty(rest, us[0].account);
    assert forall j :: 1 <= j < |us| ==> us[j] == us[1..][j - 1] && rest[j - 1].0 == us[j].account;
  }

  lemma {:induction false} DropAllButLastCons(r: UpdateRecord, rs: seq<UpdateRecord>)
    ensures DropAllButLast([r] + rs) == [if rs == [] then r else DropMeta(r)] + DropAllButLast(rs)
  {
    assert ([r] + rs)[1..] == rs;
  }

  lemma {:induction false} SelectCons<V>(row: (AccountId, V), rest: seq<(AccountId, V)>, a: AccountId)
    ensures Select([row] + rest, a) == (if row.0 == a then [row.1] else []) + Select(rest, a)
  {
    assert ([row] + rest)[1..] == rest;
  }

  lemma {:induction false} HeadDropsRoot(us: seq<Update>, us': seq<Update>, l: SnarkLog)
    requires us != [] && LastRootsOnly(us, us') && MakeRecord(None, us[0], l).Ok?
    ensures
      var r := MakeRecord(None, us[0], l).value;
      MakeRecord(None, us'[0], l) == Ok(if IsLast(us, 0) then r else DropMeta(r))
  {
    assert us'[0] == us[0].(state := if IsLast(us, 0) then us[0].state else None);
  }

  lemma {:induction false} RecordsCons(us: seq<Update>, ls: seq<SnarkLog>, block: Option<BlockCommitment>)
    requires us != [] && |us| == |ls|
    ensures Records(block, us, ls).Ok? <==> MakeRecord(block, us[0], ls[0]).Ok? && Records(block, us[1..], ls[1..]).Ok?
    ensures Records(block, us, ls).Ok? ==>
              Records(block, us, ls).value
              == [(us[0].account, MakeRecord(block, us[0], ls[0]).value)] + Records(block, us[1..], ls[1..]).value
  {
  }

  lemma {:induction false} RowsDropRoots(us: seq<Update>, us': seq<Update>, ls: seq<SnarkLog>, a: AccountId)
    requires |us| == |ls| && LastRootsOnly(us, us')
    requires Records(None, us, ls).Ok?
    ensures Records(None, us', ls).Ok?
    ensures Select(Records(None, us', ls).value, a) == DropAllButLast(Select(Records(None, us, ls).value, a))
    decreases |us|
  {
    if us != [] {
      RecordsCons(us, ls, None);
      LastRootsTail(us, us');
      RowsDropRoots(us[1..], us'[1..], ls[1..], a);
      HeadDropsRoot(us, us', ls[0]);
      RecordsCons(us', ls, None);
      RowsConsDrop(us, us', ls, a);
    }
  }

  lemma {:induction false} RowsConsDrop(us: seq<Update>, us': seq<Update>, ls: seq<SnarkLog>, a: AccountId)
    requires us != [] && |us| == |ls| && LastRootsOnly(us, us')
    requires Records(None, us, ls).Ok? && Records(None, us', ls).Ok?
    requires Select(Records(None, us'[1..], ls[1..]).value, a)
          == DropAllButLast(Select(Records(None, us[1..], ls[1..]).value, a))
    ensures Select(Records(None, us', ls).value, a) == DropAllButLast(Select(Records(None, us, ls).value, a))
  {
    RecordsCons(us, ls, None);
    RecordsCons(us', ls, None);
    LastMeansNoneLater(us, ls);
    HeadDropsRoot(us, us', ls[0]);
    var r := MakeRecord(None, us[0], ls[0]).value;
    var r' := MakeRecord(None, us'[0], ls[0]).value;
    var rest := Records(None, us[1..], ls[1..]).value;
    var rest' := Records(None, us'[1..], ls[1..]).value;
    SelectCons((us[0].account, r), rest, a);
    SelectCons((us[0].account, r'), rest', a);
    if us[0].account == a {
      DropAllButLastCons(r, Select(rest, a));
    } else {
      AppendEmpty(Select(rest, a));
      AppendEmpty(Select(rest', a));
    }
  }

  /** The epoch's output as the state before it (`cursors`), its logs and the state after it
      (`roots`) determine it: the updates follow the cursors, and each account's last update
      leaves the account's final root. */
  ghost predicate Recoverable(
    cursors: map<nat, Cursor>, accounts: map<nat, AccountId>, roots: map<AccountId, nat>, o: Output)
  {
    && Decodable(o.logs)
    && Sequential(cursors, accounts, o.updates, SnarkLogs(o.logs))
    && (forall i :: 0 <= i < |o.updates| ==> o.updates[i].account in roots)
    && forall i :: 0 <= i < |o.updates| && IsLast(o.updates, i)
                   ==> o.updates[i].state == Some(roots[o.updates[i].account])
  }

  lemma {:induction false} LastLeavesRoot(roots: map<AccountId, nat>, us: seq<Update>, i: nat, n: nat)
    requires i < n <= |us| && forall j :: i < j < n ==> us[j].account != us[i].account
    ensures LatestRoot(roots, us, n, us[i].account) == us[i].state
    decreases n
  {
    if i < n - 1 {
      LastLeavesRoot(roots, us, i, n - 1);
    }
  }

  lemma {:induction false} RootLeft(roots: map<AccountId, nat>, us: seq<Update>, i: nat, n: nat)
    requires i < n <= |us| && forall j :: 0 <= j < |us| ==> us[j].state.Some?
    ensures LatestRoot(roots, us, n, us[i].account).Some?
    decreases n
  {
    if i < n - 1 {
      RootLeft(roots, us, i, n - 1);
    }
  }

  /** An executed epoch can be recovered from the cursors before it and the roots after it. */
  lemma {:induction false} ExecutedIsRecoverable(accounts: map<nat, AccountId>, s: Accounts, o: Output, t: Accounts)
    requires Decodable(o.logs) && Advances(accounts, s, o.updates, SnarkLogs(o.logs), t)
    requires forall j :: 0 <= j < |o.updates| ==> o.updates[j].state.Some?
    ensures Recoverable(s.cursors, accounts, t.roots, o)
  {
    var us := o.updates;
    forall i | 0 <= i < |us| ensures us[i].account in t.roots {
      RootLeft(s.roots, us, i, |us|);
      assert RootOf(t.roots, us[i].account).Some?;
    }
    forall i | 0 <= i < |us| && IsLast(us, i) ensures us[i].state == Some(t.roots[us[i].account]) {
      LastLeavesRoot(s.roots, us, i, |us|);
      assert RootOf(t.roots, us[i].account) == us[i].state;
    }
  }

  lemma {:induction false} RebuiltUpdates(
    cursors: map<nat, Cursor>, accounts: map<nat, AccountId>, roots: map<AccountId, nat>, o: Output)
    requires Recoverable(cursors, accounts, roots, o)
    ensures Rebuild(cursors, accounts, o.logs) == Ok(Strip(o.updates))
    ensures RootsKnown(roots, Strip(o.updates))
    ensures LastRootsOnly(o.updates, StampLast(roots, Strip(o.updates)))
  {
    RebuildRecovers(cursors, accounts, o.updates, o.logs);
    var bare := Strip(o.updates);
    forall i | 0 <= i < |bare| ensures IsLast(bare, i) <==> IsLast(o.updates, i) {
      assert forall j :: 0 <= j < |bare| ==> bare[j].account == o.updates[j].account;
    }
  }

  /** The output checkpoint sync indexes: the epoch's, with the updates rebuilt from the logs. */
  ghost function Rebuilt(
    cursors: map<nat, Cursor>, accounts: map<nat, AccountId>, roots: map<AccountId, nat>, o: Output): Output
    requires Recoverable(cursors, accounts, roots, o)
  {
    RebuiltUpdates(cursors, accounts, roots, o);
    o.(updates := StampLast(roots, Rebuild(cursors, accounts, o.logs).value))
  }

  /** Working from the logs and the post-epoch roots alone indexes the created accounts, the
      inbox rows and, for every account, the update rows of the executed epoch in the same
      order, except that only the account's last row keeps its state root. */
  lemma {:induction false} RebuiltRowsMatch(
    cursors: map<nat, Cursor>, accounts: map<nat, AccountId>, roots: map<AccountId, nat>, o: Output, a: AccountId)
    requires Recoverable(cursors, accounts, roots, o)
    requires Build(None, o).Ok?
    ensures Build(None, Rebuilt(cursors, accounts, roots, o)).Ok?
    ensures
      var executed, rebuilt := Build(None, o).value, Build(None, Rebuilt(cursors, accounts, roots, o)).value;
      && rebuilt.created == executed.created
      && rebuilt.inbox == executed.inbox
      && (a in rebuilt.updates <==> a in executed.updates)
      && At(rebuilt.updates, a) == DropAllButLast(At(executed.updates, a))
  {
    var ls := SnarkLogs(o.logs);
    RebuiltUpdates(cursors, accounts, roots, o);
    var us := Rebuilt(cursors, accounts, roots, o).updates;
    RowsDropRoots(o.updates, us, ls, a);
    var rows, rows' := Records(None, o.updates, ls).value, Records(None, us, ls).value;
    GroupAt(rows, a);
    GroupAt(rows', a);
    assert Select(rows, a) == [] <==> Select(rows', a) == [];
  }

  // ---------------------------------------------------------------- contiguous inbox ranges

  ghost predicate Contiguous(rs: seq<UpdateRecord>) {
    forall i :: 0 < i < |rs| ==> Follows(rs, i)
  }

  predicate Follows(rs: seq<UpdateRecord>, i: nat)
    requires 0 < i < |rs|
  {
    rs[i].prevIdx == rs[i - 1].nextIdx
  }

  lemma {:induction false} SequentialRanges(
    cursors: map<nat, Cursor>, accounts: map<nat, AccountId>, us: seq<Update>, ls: seq<SnarkLog>,
    block: Option<BlockCommitment>, serial: nat)
    requires Sequential(cursors, accounts, us, ls) && Records(block, us, ls).Ok?
    requires serial in accounts
    requires forall s, t :: s in accounts && t in accounts && accounts[s] == accounts[t] ==> s == t
    ensures
      var rs := Select(Records(block, us, ls).value, accounts[serial]);
      Contiguous(rs) && (rs != [] ==> rs[0].prevIdx == CursorOf(cursors, serial).nextIdx)
    decreases |us|
  {
    if us != [] {
      var next := cursors[ls[0].serial := Cursor(us[0].seqno, us[0].nextReadIdx)];
      assert Continues(cursors, accounts, us, ls, 0);
      SequentialTail(cursors, accounts, us, ls);
      SequentialRanges(next, accounts, us[1..], ls[1..], block, serial);
      RecordsCons(us, ls, block);
      var r := MakeRecord(block, us[0], ls[0]).value;
      var rest := Records(block, us[1..], ls[1..]).value;
      var rs := Select(rest, accounts[serial]);
      SelectCons((us[0].account, r), rest, accounts[serial]);
      AppendEmpty(rs);
      if ls[0].serial == serial {
        ContiguousCons(r, rs);
      }
    }
  }

  lemma {:induction false} ContiguousCons(r: UpdateRecord, rs: seq<UpdateRecord>)
    requires Contiguous(rs) && (rs != [] ==> rs[0].prevIdx == r.nextIdx)
    ensures Contiguous([r] + rs)
  {
    forall i | 0 < i < |[r] + rs| ensures Follows([r] + rs, i) {
      if i > 1 {
        assert Follows(rs, i - 1);
      }
    }
  }

  /** The ranges an account's records consume from its inbox follow one another without gap,
      starting at the account's cursor: the debug assertion of both builders never fires. */
  lemma {:induction false} RecordedRangesAreContiguous(
    cursors: map<nat, Cursor>, accounts: map<nat, AccountId>, block: Option<BlockCommitment>, o: Output,
    serial: nat)
    requires Build(block, o).Ok?
    requires Sequential(cursors, accounts, o.updates, SnarkLogs(o.logs))
    requires serial in accounts
    requires forall s, t :: s in accounts && t in accounts && accounts[s] == accounts[t] ==> s == t
    ensures
      var rs := At(Build(block, o).value.updates, accounts[serial]);
      Contiguous(rs) && (rs != [] ==> rs[0].prevIdx == CursorOf(cursors, serial).nextIdx)
  {
    SequentialRanges(cursors, accounts, o.updates, SnarkLogs(o.logs), block, serial);
    GroupAt(Records(block, o.updates, SnarkLogs(o.logs)).value, accounts[serial]);
  }
}
