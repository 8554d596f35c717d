/** Facts about sequences that the proofs name rather than rediscover, and a few shared functions. */
module Seqs {
  import opened Chain

  lemma {:induction false} AppendAssoc<T>(a: seq<T>, b: seq<T>, c: seq<T>)
    ensures (a + b) + c == a + (b + c)
  {
  }

  lemma {:induction false} AppendCancel<T>(a: seq<T>, b: seq<T>, c: seq<T>, d: seq<T>)
    requires |a| == |c| && a + b == c + d
    ensures a == c && b == d
  {
    assert (a + b)[..|a|] == a && (c + d)[..|c|] == c;
    assert (a + b)[|a|..] == b && (c + d)[|c|..] == d;
  }

  lemma {:induction false} AppendEmpty<T>(a: seq<T>)
    ensures a + [] == a && [] + a == a
  {
  }

  lemma {:induction false} ConsAppend<T>(a: seq<T>, b: seq<T>)
    requires a != []
    ensures (a + b)[0] == a[0] && (a + b)[1..] == a[1..] + b
  {
  }

  lemma {:induction false} SuffixCons<T>(s: seq<T>, i: nat)
    requires i < |s|
    ensures s[i..] == [s[i]] + s[i + 1..] && s[i..][0] == s[i] && s[i..][1..] == s[i + 1..]
  {
  }

  lemma {:induction false} PrefixSplit<T>(s: seq<T>, n: nat, m: nat)
    requires n <= m <= |s|
    ensures s[..m] == s[..n] + s[n..m] && (n < m ==> s[n..m][0] == s[n])
  {
  }

  lemma {:induction false} PrefixTail<T>(s: seq<T>, n: nat)
    requires 0 < n <= |s|
    ensures s[..n][0] == s[0] && s[..n][1..] == s[1..][..n - 1]
  {
  }

  function Reverse<T>(s: seq<T>): seq<T> {
    if s == [] then [] else Reverse(s[1..]) + [s[0]]
  }

  lemma {:induction false} ReverseSnoc<T>(s: seq<T>, x: T)
    ensures Reverse(s + [x]) == [x] + Reverse(s)
  {
    if s == [] {
      AppendEmpty([x]);
    } else {
      ConsAppend(s, [x]);
      ReverseSnoc(s[1..], x);
      AppendAssoc([x], Reverse(s[1..]), [s[0]]);
    }
  }

  ghost predicate Increasing(s: seq<nat>) {
    forall i, j :: 0 <= i < j < |s| ==> s[i] < s[j]
  }

  /** Positions in a sequence from positions in its tail. */
  function Positions(first: bool, tail: seq<nat>): seq<nat> {
    (if first then [0] else []) + seq(|tail|, i requires 0 <= i < |tail| => tail[i] + 1)
  }

  lemma {:induction false} PositionsAre(first: bool, tail: seq<nat>)
    requires Increasing(tail)
    ensures Increasing(Positions(first, tail))
    ensures forall i: nat :: i in Positions(first, tail) <==> (i == 0 && first) || (i > 0 && i - 1 in tail)
  {
    var n, all := if first then 1 else 0, Positions(first, tail);
    forall i: nat | i > 0 && i - 1 in tail ensures i in all {
      var k :| 0 <= k < |tail| && tail[k] == i - 1;
      assert all[n + k] == i;
    }
    forall i: nat | i in all ensures (i == 0 && first) || (i > 0 && i - 1 in tail) {
      var k :| 0 <= k < |all| && all[k] == i;
      assert k >= n ==> tail[k - n] == i - 1;
    }
  }

  /** The whole is what is done so far followed by what is left, or fails as what is left. */
  ghost predicate Onto<V, E>(done: seq<V>, left: Result<seq<V>, E>, whole: Result<seq<V>, E>) {
    match left
    case Ok(rest) => whole == Ok(done + rest)
    case Err(e) => whole == Err(e)
  }

  function Max(a: nat, b: nat): nat {
    if a < b then b else a
  }

  function Min(a: nat, b: nat): nat {
    if a < b then a else b
  }
}
