/** Overrides of nested configuration tables by dotted path. */
module ConfigOverride {
  import opened Chain

  /** A TOML value; `Other` stands for floats, dates and arrays. */
  datatype Value = Integer(i: int) | Boolean(b: bool) | Str(s: string) | Other(id: nat)
                 | Table(entries: map<string, Value>)

  type Entries = map<string, Value>

  datatype ConfigError = TraverseNonTableAt(key: string, path: string) | MissingKey(key: string, path: string)

  // ---------------------------------------------------------------- dotted paths

  /** The parts before and after the first dot. */
  function SplitOnce(path: string): (r: Option<(string, string)>)
    ensures r.None? <==> '.' !in path
    ensures r.Some? ==> path == r.value.0 + "." + r.value.1 && '.' !in r.value.0
  {
    if path == "" then None
    else if path[0] == '.' then
      assert path == "" + "." + path[1..];
      Some(("", path[1..]))
    else
      match SplitOnce(path[1..])
      case None => None
      case Some((key, rest)) =>
        assert path == [path[0]] + path[1..];
        Some(([path[0]] + key, rest))
  }

  /** The parts with a dot between any two. */
  function Joined(parts: seq<string>): string
    requires parts != []
  {
    if |parts| == 1 then parts[0] else parts[0] + "." + Joined(parts[1..])
  }

  /** The path cut at every dot: the parts hold no dot, and joined they are the path. */
  function Segments(path: string): (s: seq<string>)
    ensures s != [] && Joined(s) == path
    ensures forall i :: 0 <= i < |s| ==> '.' !in s[i]
    decreases |path|
  {
    match SplitOnce(path)
    case None => [path]
    case Some((key, rest)) =>
      assert ([key] + Segments(rest))[1..] == Segments(rest);
      [key] + Segments(rest)
  }

  // ---------------------------------------------------------------- applying an override

  /** Inserts at the last segment, descending through existing tables. */
  function Apply(original: string, segs: seq<string>, v: Value, t: Entries): Result<Entries, ConfigError>
    requires segs != []
    decreases |segs|
  {
    var key := segs[0];
    if |segs| == 1 then Ok(t[key := v])
    else if key !in t then Err(MissingKey(key, original))
    else if !t[key].Table? then Err(TraverseNonTableAt(key, original))
    else
      match Apply(original, segs[1..], v, t[key].entries)
      case Err(e) => Err(e)
      case Ok(inner) => Ok(t[key := Table(inner)])
  }

  class Config {
    var table: Entries

    constructor (table: Entries)
      ensures this.table == table
    {
      this.table := table;
    }

    method ApplyOverride(path: string, v: Value) returns (r: Option<ConfigError>)
      modifies this
      ensures
        match Apply(path, Segments(path), v, old(table))
        case Ok(next) => r == None && table == next
        case Err(e) => r == Some(e) && table == old(table)
    {
      var next := ApplyOverrideInner(path, path, v, table);
      if next.Err? {
        return Some(next.error);
      }
      table := next.value;
      r := None;
    }
  }

  method ApplyOverrideInner(
    original: string, remaining: string, v: Value, t: Entries) returns (r: Result<Entries, ConfigError>)
    ensures r == Apply(original, Segments(remaining), v, t)
    decreases |remaining|
  {
    var split := SplitOnce(remaining);
    if split.None? {
      return Ok(t[remaining := v]);
    }
    var (key, rest) := split.value;
    assert Segments(remaining)[1..] == Segments(rest);
    if key !in t {
      return Err(MissingKey(key, original));
    }
    match t[key] {
      case Table(inner) =>
        var deeper := ApplyOverrideInner(original, rest, v, inner);
        r := if deeper.Ok? then Ok(t[key := Table(deeper.value)]) else Err(deeper.error);
      case _ =>
        r := Err(TraverseNonTableAt(key, original));
    }
  }

  // ---------------------------------------------------------------- what an override does

  function Lookup(t: Entries, path: seq<string>): Option<Value>
    requires path != []
    decreases |path|
  {
    if path[0] !in t then None
    else if |path| == 1 then Some(t[path[0]])
    else if !t[path[0]].Table? then None
    else Lookup(t[path[0]].entries, path[1..])
  }

  ghost predicate Apart(p: seq<string>, q: seq<string>) {
    !(p <= q) && !(q <= p)
  }

  lemma {:induction false} ApartTails(p: seq<string>, q: seq<string>)
    requires p != [] && q != [] && Apart(p, q) && p[0] == q[0]
    ensures |p| > 1 && |q| > 1 && Apart(p[1..], q[1..])
  {
    assert p == [p[0]] + p[1..] && q == [q[0]] + q[1..];
  }

  /** A successful override is found at its path, and no path apart from it looks up to anything
      else than before. */
  lemma {:induction false} OverrideSets(original: string, p: seq<string>, v: Value, t: Entries, q: seq<string>)
    requires p != [] && q != []
    requires Apply(original, p, v, t).Ok?
    ensures Lookup(Apply(original, p, v, t).value, p) == Some(v)
    ensures Apart(p, q) ==> Lookup(Apply(original, p, v, t).value, q) == Lookup(t, q)
    decreases |p|
  {
    var next := Apply(original, p, v, t).value;
    if |p| == 1 {
      if Apart(p, q) && p[0] == q[0] {
        ApartTails(p, q);
      }
    } else {
      var inner := t[p[0]].entries;
      OverrideSets(original, p[1..], v, inner, if |q| > 1 then q[1..] else p[1..]);
      if Apart(p, q) && p[0] == q[0] {
        ApartTails(p, q);
      }
    }
  }

  /** An override succeeds exactly when every proper prefix of its path is a table; otherwise it
      names the first key that is missing or not a table. */
  lemma {:induction false} OverrideSucceeds(original: string, p: seq<string>, v: Value, t: Entries)
    requires p != []
    ensures Apply(original, p, v, t).Ok? <==> forall k :: 0 < k < |p| ==> IsTable(t, p[..k])
    ensures Apply(original, p, v, t).Err? ==> exists k :: FailsAt(original, p, t, k, Apply(original, p, v, t).error)
    decreases |p|
  {
    if |p| > 1 {
      assert p[..1] == [p[0]];
      if p[0] !in t || !t[p[0]].Table? {
        assert !IsTable(t, p[..1]);
        assert FailsAt(original, p, t, 1, Apply(original, p, v, t).error);
      } else {
        var inner := t[p[0]].entries;
        OverrideSucceeds(original, p[1..], v, inner);
        forall k | 1 < k < |p| ensures IsTable(t, p[..k]) <==> IsTable(inner, p[1..][..k - 1]) {
          assert p[..k][1..] == p[1..][..k - 1];
        }
        if Apply(original, p, v, t).Err? {
          var j :| FailsAt(original, p[1..], inner, j, Apply(original, p, v, t).error);
          FailsDeeper(original, p, t, j, Apply(original, p, v, t).error);
        } else {
          forall k | 1 < k < |p| ensures IsTable(t, p[..k]) {
            assert IsTable(inner, p[1..][..k - 1]);
          }
        }
        if forall k :: 0 < k < |p| ==> IsTable(t, p[..k]) {
          forall k | 0 < k < |p[1..]| ensures IsTable(inner, p[1..][..k]) {
            assert IsTable(t, p[..k + 1]);
          }
        }
      }
    }
  }

  predicate IsTable(t: Entries, path: seq<string>) {
    path != [] && Lookup(t, path).Some? && Lookup(t, path).value.Table?
  }

  /** Below `k` the path leads through tables, at `k` it does not, and the error says so. */
  ghost predicate FailsAt(original: string, p: seq<string>, t: Entries, k: nat, e: ConfigError) {
    && 0 < k < |p|
    && (forall j :: 0 < j < k ==> IsTable(t, p[..j]))
    && !IsTable(t, p[..k])
    && e == if Lookup(t, p[..k]).None? then MissingKey(p[k - 1], original) else TraverseNonTableAt(p[k - 1], original)
  }

  lemma {:induction false} FailsDeeper(original: string, p: seq<string>, t: Entries, j: nat, e: ConfigError)
    requires |p| > 1 && p[0] in t && t[p[0]].Table?
    requires FailsAt(original, p[1..], t[p[0]].entries, j, e)
    ensures FailsAt(original, p, t, j + 1, e)
  {
    var inner := t[p[0]].entries;
    assert p[..1] == [p[0]];
    forall i | 1 < i <= j + 1 ensures Lookup(t, p[..i]) == Lookup(inner, p[1..][..i - 1]) {
      assert p[..i][1..] == p[1..][..i - 1];
    }
    forall i | 0 < i < j + 1 ensures IsTable(t, p[..i]) {
      if i > 1 {
        assert IsTable(inner, p[1..][..i - 1]);
      }
    }
  }

  /** Overrides of paths apart from each other commute: if one order succeeds, so does the other,
      with the same table. */
  lemma {:induction false} OverridesCommute(
    a: string, p: seq<string>, v: Value, b: string, q: seq<string>, w: Value, t: Entries)
    requires p != [] && q != [] && Apart(p, q)
    requires Apply(a, p, v, t).Ok? && Apply(b, q, w, Apply(a, p, v, t).value).Ok?
    ensures Apply(b, q, w, t).Ok?
    ensures Apply(a, p, v, Apply(b, q, w, t).value) == Apply(b, q, w, Apply(a, p, v, t).value)
    decreases |p|
  {
    if p[0] == q[0] {
      ApartTails(p, q);
      var first := Apply(a, p, v, t).value;
      assert first[p[0]] == Table(Apply(a, p[1..], v, t[p[0]].entries).value);
      OverridesCommute(a, p[1..], v, b, q[1..], w, t[p[0]].entries);
      InSameTable(a, p, v, b, q, w, t);
      InSameTable(b, q, w, a, p, v, t);
    } else {
      InApartKeys(a, p, v, b, q, w, t);
    }
  }

  /** Two overrides below one key: the second acts on what the first left there. */
  lemma {:induction false} InSameTable(
    a: string, p: seq<string>, v: Value, b: string, q: seq<string>, w: Value, t: Entries)
    requires |p| > 1 && |q| > 1 && p[0] == q[0] && p[0] in t && t[p[0]].Table?
    requires Apply(a, p[1..], v, t[p[0]].entries).Ok?
    requires Apply(b, q[1..], w, Apply(a, p[1..], v, t[p[0]].entries).value).Ok?
    ensures Apply(a, p, v, t).Ok?
    ensures
      Apply(b, q, w, Apply(a, p, v, t).value)
      == Ok(t[p[0] := Table(Apply(b, q[1..], w, Apply(a, p[1..], v, t[p[0]].entries).value).value)])
  {
    var first := Apply(a, p, v, t).value;
    var both := Apply(b, q[1..], w, first[p[0]].entries).value;
    assert first[p[0] := Table(both)] == t[p[0] := Table(both)];
  }

  lemma {:induction false} InApartKeys(
    a: string, p: seq<string>, v: Value, b: string, q: seq<string>, w: Value, t: Entries)
    requires p != [] && q != [] && p[0] != q[0]
    requires Apply(a, p, v, t).Ok? && Apply(b, q, w, Apply(a, p, v, t).value).Ok?
    ensures Apply(b, q, w, t).Ok?
    ensures Apply(a, p, v, Apply(b, q, w, t).value) == Apply(b, q, w, Apply(a, p, v, t).value)
  {
    var first := Apply(a, p, v, t).value;
    OneKey(a, p, v, t);
    OneKey(b, q, w, first);
    OneKey(b, q, w, t);
    OtherKey(b, q, w, t, first);
    var second := Apply(b, q, w, t).value;
    OtherKey(a, p, v, second, t);
    OneKey(a, p, v, second);
    assert first[q[0] := second[q[0]]] == second[p[0] := first[p[0]]];
  }

  /** An override changes one top-level key. */
  lemma {:induction false} OneKey(original: string, p: seq<string>, v: Value, t: Entries)
    requires p != []
    ensures Apply(original, p, v, t).Ok? ==>
              var next := Apply(original, p, v, t).value; p[0] in next && next == t[p[0] := next[p[0]]]
  {
  }

  /** Its outcome and the new value of that key depend on the key's old value only. */
  lemma {:induction false} OtherKey(original: string, p: seq<string>, v: Value, t: Entries, u: Entries)
    requires p != []
    requires p[0] in t <==> p[0] in u
    requires p[0] in t ==> t[p[0]] == u[p[0]]
    ensures Apply(original, p, v, t).Ok? <==> Apply(original, p, v, u).Ok?
    ensures Apply(original, p, v, t).Ok?
            ==> Apply(original, p, v, t).value[p[0]] == Apply(original, p, v, u).value[p[0]]
  {
  }
}
