/** Building guest programs after their dependencies, each with its dependencies' keys. */
module GuestBuild {
  import opened Chain

  datatype Program = Program(name: string)

  datatype Vk = Vk(hash: nat, text: string, programId: nat)

  /** The two constants written for one dependency. */
  datatype KeyLine = KeyLine(dep: Program, hash: nat, condition: nat)

  /** Compiling a program, which reads its key file if there is one, and the verifying-key
      condition of a program id. */
  datatype Toolchain = Toolchain(generate: (Program, Option<seq<KeyLine>>) -> Vk, condition: nat -> nat)

  type Dependencies = map<Program, seq<Program>>

  function DepsOf(deps: Dependencies, p: Program): seq<Program> {
    if p in deps then deps[p] else []
  }

  /** `q` is `n` dependency steps from `p`. */
  ghost predicate Steps(deps: Dependencies, p: Program, q: Program, n: nat)
    decreases n
  {
    if n == 0 then p == q else p in deps && exists d :: d in deps[p] && Steps(deps, d, q, n - 1)
  }

  ghost predicate Reaches(deps: Dependencies, p: Program, q: Program) {
    exists n: nat :: Steps(deps, p, q, n)
  }

  ghost predicate Acyclic(deps: Dependencies) {
    forall p, n: nat :: n > 0 ==> !Steps(deps, p, p, n)
  }

  lemma {:induction false} ReachesVia(deps: Dependencies, p: Program, d: Program, q: Program)
    requires d in DepsOf(deps, p) && Reaches(deps, d, q)
    ensures Reaches(deps, p, q)
  {
    var n: nat :| Steps(deps, d, q, n);
    assert Steps(deps, p, q, n + 1);
  }

  lemma {:induction false} StepsOn(deps: Dependencies, p: Program, q: Program, d: Program, n: nat)
    requires Steps(deps, p, q, n) && d in DepsOf(deps, q)
    ensures Steps(deps, p, d, n + 1)
    decreases n
  {
    if n > 0 {
      var e :| e in deps[p] && Steps(deps, e, q, n - 1);
      StepsOn(deps, e, q, d, n - 1);
    } else {
      assert Steps(deps, d, d, 0);
    }
  }

  /** Every program being built depends on `p`, directly or not. */
  ghost predicate Awaiting(deps: Dependencies, open: set<Program>, p: Program) {
    forall s :: s in open ==> Depends(deps, s, p)
  }

  ghost predicate Depends(deps: Dependencies, p: Program, q: Program) {
    exists n: nat :: n > 0 && Steps(deps, p, q, n)
  }

  /** So on an acyclic map `p` is not one of them. */
  lemma {:induction false} NotOpen(deps: Dependencies, open: set<Program>, p: Program)
    requires Acyclic(deps) && Awaiting(deps, open, p)
    ensures p !in open
  {
    assert !Depends(deps, p, p);
  }

  /** Every program being built depends on each dependency of `p`. */
  ghost predicate AllAwaiting(deps: Dependencies, open: set<Program>, p: Program) {
    forall d :: d in DepsOf(deps, p) ==> Awaiting(deps, open, d)
  }

  lemma {:induction false} AwaitingNext(deps: Dependencies, open: set<Program>, p: Program)
    requires Awaiting(deps, open, p) && p !in open && p in deps
    ensures AllAwaiting(deps, open + {p}, p)
    ensures |deps.Keys - (open + {p})| < |deps.Keys - open|
  {
    forall s, d | s in open + {p} && d in DepsOf(deps, p) ensures Depends(deps, s, d) {
      if s == p {
        assert Steps(deps, d, d, 0);
        assert Steps(deps, p, d, 1);
      } else {
        assert Depends(deps, s, p);
        var n: nat :| n > 0 && Steps(deps, s, p, n);
        StepsOn(deps, s, p, d, n);
      }
    }
    assert deps.Keys - (open + {p}) == (deps.Keys - open) - {p} && p in deps.Keys - open;
  }

  /** The key file of a program with these direct dependencies, given their keys. */
  function KeyLines(tc: Toolchain, vks: map<Program, Vk>, deps: seq<Program>): seq<KeyLine> {
    if deps == [] then []
    else (if deps[0] in vks then [KeyLine(deps[0], vks[deps[0]].hash, tc.condition(vks[deps[0]].programId))] else [])
         + KeyLines(tc, vks, deps[1..])
  }

  lemma {:induction false} KeyLinesComplete(tc: Toolchain, vks: map<Program, Vk>, deps: seq<Program>)
    requires forall d :: d in deps ==> d in vks
    ensures |KeyLines(tc, vks, deps)| == |deps|
    ensures forall i :: 0 <= i < |deps| ==>
                          KeyLines(tc, vks, deps)[i]
                          == KeyLine(deps[i], vks[deps[i]].hash, tc.condition(vks[deps[i]].programId))
  {
    if deps != [] {
      KeyLinesComplete(tc, vks, deps[1..]);
    }
  }

  lemma {:induction false} KeyLinesStable(
    tc: Toolchain, vks: map<Program, Vk>, more: map<Program, Vk>, deps: seq<Program>)
    requires forall d :: d in deps ==> d in vks && d in more && vks[d] == more[d]
    ensures KeyLines(tc, vks, deps) == KeyLines(tc, more, deps)
  {
    if deps != [] {
      KeyLinesStable(tc, vks, more, deps[1..]);
    }
  }

  /** The key file the program was compiled with. */
  function FileFor(
    tc: Toolchain, deps: Dependencies, before: map<Program, seq<KeyLine>>, vks: map<Program, Vk>, p: Program)
    : Option<seq<KeyLine>>
  {
    if DepsOf(deps, p) != [] then Some(KeyLines(tc, vks, DepsOf(deps, p)))
    else if p in before then Some(before[p])
    else None
  }

  /** The sets the recursion shares: what is built, its results and keys, and the key files. */
  datatype State = State(built: set<Program>, results: map<Program, (nat, string)>, vks: map<Program, Vk>,
                         files: map<Program, seq<KeyLine>>)

  /** What is fixed: the dependency map, the toolchain, and the key files found on disk. */
  datatype Setup = Setup(deps: Dependencies, tc: Toolchain, before: map<Program, seq<KeyLine>>)

  /** Program `log[i]` was compiled then and not before, after all its direct dependencies, with a key file that lists
      them in order with the keys they were built with. */
  ghost predicate Compiled(u: Setup, s: State, log: seq<Program>, i: nat)
    requires i < |log|
  {
    var p := log[i];
    && p !in log[..i]
    && p in s.vks && p in s.results && s.results[p] == (s.vks[p].hash, s.vks[p].text)
    && (forall d :: d in DepsOf(u.deps, p) ==> d in log[..i] && d in s.vks)
    && s.vks[p] == u.tc.generate(p, FileFor(u.tc, u.deps, u.before, s.vks, p))
    && (if DepsOf(u.deps, p) != [] then p in s.files && s.files[p] == KeyLines(u.tc, s.vks, DepsOf(u.deps, p))
        else AsFound(u, s, p))
  }

  /** The program's key file is the one found on disk, if any. */
  ghost predicate AsFound(u: Setup, s: State, p: Program) {
    (p in s.files <==> p in u.before) && (p in s.files ==> s.files[p] == u.before[p])
  }

  /** `log` is the order in which the built programs were compiled, each once; the files of the
      others are those found on disk. */
  ghost predicate Valid(u: Setup, s: State, log: seq<Program>) {
    && s.built == (set p | p in log) == s.vks.Keys == s.results.Keys
    && (forall i :: 0 <= i < |log| ==> Compiled(u, s, log, i))
    && (forall p {:trigger AsFound(u, s, p)} :: p !in s.built ==> AsFound(u, s, p))
  }

  /** Writing a program's key file, if it has dependencies, and compiling it. */
  function Finish(u: Setup, s: State, p: Program): State {
    var lines := KeyLines(u.tc, s.vks, DepsOf(u.deps, p));
    var files := if lines == [] then s.files else s.files[p := lines];
    var vk := u.tc.generate(p, if p in files then Some(files[p]) else None);
    State(s.built + {p}, s.results[p := (vk.hash, vk.text)], s.vks[p := vk], files)
  }

  lemma {:induction false} FinishOld(u: Setup, s: State, log: seq<Program>, p: Program, i: nat)
    requires Valid(u, s, log) && p !in s.built && i < |log|
    ensures Compiled(u, Finish(u, s, p), log + [p], i)
  {
    assert Compiled(u, s, log, i);
    assert (log + [p])[i] == log[i] && (log + [p])[..i] == log[..i];
    assert log[i] in s.built;
    KeyLinesStable(u.tc, s.vks, Finish(u, s, p).vks, DepsOf(u.deps, log[i]));
  }

  lemma {:induction false} FinishNew(u: Setup, s: State, log: seq<Program>, p: Program)
    requires Valid(u, s, log) && p !in s.built
    requires forall d :: d in DepsOf(u.deps, p) ==> d in s.built
    ensures Compiled(u, Finish(u, s, p), log + [p], |log|)
  {
    var ds := DepsOf(u.deps, p);
    assert (log + [p])[|log|] == p && (log + [p])[..|log|] == log;
    assert AsFound(u, s, p);
    KeyLinesComplete(u.tc, s.vks, ds);
    KeyLinesStable(u.tc, s.vks, Finish(u, s, p).vks, ds);
  }

  lemma {:induction false} FinishKeeps(u: Setup, s: State, log: seq<Program>, p: Program)
    requires Valid(u, s, log) && p !in s.built
    requires forall d :: d in DepsOf(u.deps, p) ==> d in s.built
    ensures Valid(u, Finish(u, s, p), log + [p])
  {
    var next, longer := Finish(u, s, p), log + [p];
    forall i | 0 <= i < |longer| ensures Compiled(u, next, longer, i) {
      if i < |log| {
        FinishOld(u, s, log, p, i);
      } else {
        FinishNew(u, s, log, p);
      }
    }
    forall q | q !in next.built ensures AsFound(u, next, q) {
      assert AsFound(u, s, q);
    }
    assert longer[|log|] == p;
    assert next.built == set q | q in longer;
  }

  /** From one log to a longer one, by programs reachable from `p`. */
  ghost predicate Grown(deps: Dependencies, p: Program, log: seq<Program>, longer: seq<Program>) {
    log <= longer && forall i :: |log| <= i < |longer| ==> Reaches(deps, p, longer[i])
  }

  lemma {:induction false} GrownVia(
    deps: Dependencies, p: Program, d: Program, a: seq<Program>, b: seq<Program>, c: seq<Program>)
    requires d in DepsOf(deps, p) && Grown(deps, p, a, b) && Grown(deps, d, b, c)
    ensures Grown(deps, p, a, c)
  {
    forall i | |a| <= i < |c| ensures Reaches(deps, p, c[i]) {
      if i >= |b| {
        ReachesVia(deps, p, d, c[i]);
      } else {
        assert c[i] == b[i];
      }
    }
  }

  lemma {:induction false} FinishGrown(deps: Dependencies, p: Program, log: seq<Program>, longer: seq<Program>)
    requires Grown(deps, p, log, longer)
    ensures Grown(deps, p, log, longer + [p])
  {
    assert Steps(deps, p, p, 0);
    assert forall i :: |log| <= i < |longer| ==> (longer + [p])[i] == longer[i];
  }

  class Builder {
    const setup: Setup
    var built: set<Program>
    var results: map<Program, (nat, string)>
    var vkHashes: map<Program, Vk>
    var files: map<Program, seq<KeyLine>>
    /** The programs in the order they were compiled. */
    ghost var log: seq<Program>

    constructor (setup: Setup)
      ensures this.setup == setup && log == [] && Ok()
    {
      this.setup := setup;
      built, results, vkHashes, files := {}, map[], map[], setup.before;
      log := [];
    }

    ghost function View(): State
      reads this
    {
      State(built, results, vkHashes, files)
    }

    ghost predicate Ok()
      reads this
    {
      Valid(setup, View(), log)
    }

    /** Writes the key file and compiles. */
    method FinishProgram(program: Program)
      modifies this
      ensures View() == Finish(setup, old(View()), program) && log == old(log) + [program]
    {
      var ds := DepsOf(setup.deps, program);
      var content: seq<KeyLine> := [];
      var i := 0;
      assert ds[0..] == ds;
      while i < |ds|
        invariant 0 <= i <= |ds|
        invariant KeyLines(setup.tc, vkHashes, ds) == content + KeyLines(setup.tc, vkHashes, ds[i..])
      {
        assert ds[i..][1..] == ds[i + 1..];
        if ds[i] in vkHashes {
          var vk := vkHashes[ds[i]];
          content := content + [KeyLine(ds[i], vk.hash, setup.tc.condition(vk.programId))];
        }
        i := i + 1;
      }
      assert ds[i..] == [] && content + [] == content;
      if content != [] {
        files := files[program := content];
      }
      var vk := setup.tc.generate(program, if program in files then Some(files[program]) else None);
      results := results[program := (vk.hash, vk.text)];
      vkHashes := vkHashes[program := vk];
      built := built + {program};
      log := log + [program];
    }

    /** Builds a program after its dependencies. `open` is the set of programs being built. */
    method BuildProgramWithDependencies(program: Program, ghost open: set<Program>)
      requires Acyclic(setup.deps) && Ok() && Awaiting(setup.deps, open, program)
      requires open !! built
      modifies this
      ensures Ok() && program in built && Grown(setup.deps, program, old(log), log)
      ensures open !! built
      decreases |setup.deps.Keys - open|, 0
    {
      if program in built {
        return;
      }
      NotOpen(setup.deps, open, program);
      if program in setup.deps {
        AwaitingNext(setup.deps, open, program);
        BuildDependencies(program, open + {program});
      }
      FinishKeeps(setup, View(), log, program);
      FinishGrown(setup.deps, program, old(log), log);
      FinishProgram(program);
    }

    /** Builds the direct dependencies in order. */
    method BuildDependencies(program: Program, ghost open: set<Program>)
      requires Acyclic(setup.deps) && Ok() && AllAwaiting(setup.deps, open, program)
      requires open !! built
      modifies this
      ensures Ok() && Grown(setup.deps, program, old(log), log)
      ensures open !! built
      ensures forall d :: d in DepsOf(setup.deps, program) ==> d in built
      decreases |setup.deps.Keys - open|, 1
    {
      var ds := DepsOf(setup.deps, program);
      var i := 0;
      while i < |ds|
        invariant 0 <= i <= |ds| && Ok() && Grown(setup.deps, program, old(log), log)
        invariant open !! built
        invariant forall k :: 0 <= k < i ==> ds[k] in built
      {
        ghost var sofar, had := log, View();
        BuildProgramWithDependencies(ds[i], open);
        GrownVia(setup.deps, program, ds[i], old(log), sofar, log);
        StillBuilt(setup, had, sofar, View(), log);
        i := i + 1;
      }
    }

    /** Builds the guest programs in turn. Exactly the programs they reach end up built. */
    method BuildAll(programs: seq<Program>)
      requires Acyclic(setup.deps) && Ok() && log == []
      modifies this
      ensures Ok()
      ensures forall q :: q in log <==> Asked(setup.deps, programs, q)
    {
      var i := 0;
      while i < |programs|
        invariant 0 <= i <= |programs| && Ok()
        invariant forall k :: 0 <= k < i ==> programs[k] in built
        invariant OnlyAsked(setup.deps, programs, log)
      {
        ghost var sofar, had := log, View();
        BuildProgramWithDependencies(programs[i], {});
        StillBuilt(setup, had, sofar, View(), log);
        AskedGrows(setup.deps, programs, i, sofar, log);
        i := i + 1;
      }
      AllAsked(setup, View(), log, programs);
    }
  }

  /** The program is one of those asked for, or one they depend on. */
  ghost predicate Asked(deps: Dependencies, programs: seq<Program>, q: Program) {
    exists p :: p in programs && Reaches(deps, p, q)
  }

  ghost predicate OnlyAsked(deps: Dependencies, programs: seq<Program>, log: seq<Program>) {
    forall k :: 0 <= k < |log| ==> Asked(deps, programs, log[k])
  }

  lemma {:induction false} AskedGrows(
    deps: Dependencies, programs: seq<Program>, i: nat, log: seq<Program>, longer: seq<Program>)
    requires i < |programs| && OnlyAsked(deps, programs, log) && Grown(deps, programs[i], log, longer)
    ensures OnlyAsked(deps, programs, longer)
  {
    forall k | 0 <= k < |longer| ensures Asked(deps, programs, longer[k]) {
      if k < |log| {
        assert longer[k] == log[k];
      }
    }
  }

  lemma {:induction false} AllAsked(u: Setup, s: State, log: seq<Program>, programs: seq<Program>)
    requires Valid(u, s, log) && OnlyAsked(u.deps, programs, log)
    requires forall k :: 0 <= k < |programs| ==> programs[k] in s.built
    ensures forall q :: q in log <==> Asked(u.deps, programs, q)
  {
    forall q | Asked(u.deps, programs, q) ensures q in log {
      var p :| p in programs && Reaches(u.deps, p, q);
      var k :| 0 <= k < |log| && log[k] == p;
      var n: nat :| Steps(u.deps, p, q, n);
      DependenciesFirst(u, s, log, k, q, n);
    }
  }

  lemma {:induction false} StillBuilt(u: Setup, s: State, log: seq<Program>, next: State, longer: seq<Program>)
    requires Valid(u, s, log) && Valid(u, next, longer) && log <= longer
    ensures s.built <= next.built
  {
    forall p | p in log ensures p in longer {
      var i :| 0 <= i < |log| && log[i] == p;
      assert longer[i] == p;
    }
  }

  /** Every program a built program reaches was compiled before it. */
  lemma {:induction false} DependenciesFirst(u: Setup, s: State, log: seq<Program>, i: nat, q: Program, n: nat)
    requires Valid(u, s, log) && i < |log| && Steps(u.deps, log[i], q, n)
    ensures if n == 0 then q == log[i] else q in log[..i]
    decreases n
  {
    if n > 0 {
      assert Compiled(u, s, log, i);
      var d :| d in DepsOf(u.deps, log[i]) && Steps(u.deps, d, q, n - 1);
      var j :| 0 <= j < i && log[j] == d;
      DependenciesFirst(u, s, log, j, q, n - 1);
      assert log[..j] <= log[..i];
    }
  }

  /** The key file of a built program lists every direct dependency, in order, with the key that
      dependency was built with; a program without dependencies keeps the file found on disk. The
      program's own key and result come from compiling it with that file. */
  lemma {:induction false} KeyFilesComplete(u: Setup, s: State, log: seq<Program>, p: Program)
    requires Valid(u, s, log) && p in s.built
    ensures
      if p in u.deps && u.deps[p] != [] then
        && p in s.files && |s.files[p]| == |u.deps[p]|
        && forall k :: 0 <= k < |u.deps[p]| ==>
                         && u.deps[p][k] in s.vks && s.files[p][k].dep == u.deps[p][k]
                         && s.files[p][k].hash == s.vks[u.deps[p][k]].hash
                         && s.files[p][k].condition == u.tc.condition(s.vks[u.deps[p][k]].programId)
      else (p in s.files <==> p in u.before) && (p in s.files ==> s.files[p] == u.before[p])
    ensures p in s.vks && s.vks[p] == u.tc.generate(p, if p in s.files then Some(s.files[p]) else None)
    ensures p in s.results && s.results[p] == (s.vks[p].hash, s.vks[p].text)
  {
    var i :| 0 <= i < |log| && log[i] == p;
    assert Compiled(u, s, log, i);
    KeyLinesComplete(u.tc, s.vks, DepsOf(u.deps, p));
  }

  /** The keys do not depend on the order: two builds of the same setup, whatever they were asked
      for and in whatever order, give a program they both built the same key. */
  lemma {:induction false} KeysDetermined(u: Setup, s: State, log: seq<Program>, s': State, log': seq<Program>, i: nat)
    requires Valid(u, s, log) && Valid(u, s', log') && i < |log| && log[i] in s'.built
    ensures log[i] in s.vks && log[i] in s'.vks && s.vks[log[i]] == s'.vks[log[i]]
    decreases i
  {
    var p := log[i];
    var j :| 0 <= j < |log'| && log'[j] == p;
    assert Compiled(u, s, log, i) && Compiled(u, s', log', j);
    var ds := DepsOf(u.deps, p);
    forall d | d in ds ensures d in s.vks && d in s'.vks && s.vks[d] == s'.vks[d] {
      var k :| 0 <= k < i && log[k] == d;
      assert d in log'[..j] && d in s'.built;
      KeysDetermined(u, s, log, s', log', k);
    }
    KeyLinesStable(u.tc, s.vks, s'.vks, ds);
  }

  const ALPEN_CHUNK: Program := Program("guest-alpen-chunk")
  const ALPEN_ACCT: Program := Program("guest-alpen-acct")

  /** The shipped dependency map. */
  const PROGRAM_DEPENDENCIES: Dependencies := map[ALPEN_ACCT := [ALPEN_CHUNK]]

  lemma {:induction false} ShippedMapIsAcyclic()
    ensures Acyclic(PROGRAM_DEPENDENCIES)
  {
    assert ALPEN_CHUNK.name[13] != ALPEN_ACCT.name[13];
    forall p, n: nat | n > 0 ensures !Steps(PROGRAM_DEPENDENCIES, p, p, n) {
      assert forall q, m: nat :: m > 0 ==> !Steps(PROGRAM_DEPENDENCIES, ALPEN_CHUNK, q, m);
      assert n > 1 || !Steps(PROGRAM_DEPENDENCIES, p, p, 1);
    }
  }
}
