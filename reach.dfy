/** What the recursion of `hideWithSubfields` reaches, over a bare graph:
    `succ[e]` lists the targets that hiding `e` goes on to hide, and a rank
    that drops along every edge shows the recursion ends. */
module Reach {
  /** Every edge stays in the graph and lowers the rank. */
  ghost predicate Ranked(succ: seq<seq<int>>, rank: seq<nat>)
  {
    && |rank| == |succ|
    && forall e, k :: 0 <= e < |succ| && 0 <= k < |succ[e]| ==> 0 <= succ[e][k] < |succ| && rank[succ[e][k]] < rank[e]
  }

  /** Everything hiding `e` hides: `e`, and the reach of each of its
      targets in turn. */
  ghost function ReachSet(succ: seq<seq<int>>, rank: seq<nat>, e: int): set<int>
    requires Ranked(succ, rank) && 0 <= e < |succ|
    decreases rank[e], 1
  {
    {e} + ReachList(succ, rank, succ[e], rank[e])
  }

  /** Everything hiding each of `ts` in turn hides; `bound` exceeds the rank
      of every one of them. */
  ghost function ReachList(succ: seq<seq<int>>, rank: seq<nat>, ts: seq<int>, bound: nat): set<int>
    requires Ranked(succ, rank)
    requires forall k :: 0 <= k < |ts| ==> 0 <= ts[k] < |succ| && rank[ts[k]] < bound
    decreases bound, 0, |ts|
  {
    if ts == [] then {}
    else ReachList(succ, rank, ts[..|ts| - 1], bound) + ReachSet(succ, rank, ts[|ts| - 1])
  }

  /** A number above every rank. */
  function RankBound(rank: seq<nat>): (b: nat)
    ensures forall k :: 0 <= k < |rank| ==> rank[k] < b
  {
    if rank == [] then 0
    else
      var b := RankBound(rank[..|rank| - 1]);
      if rank[|rank| - 1] < b then b else rank[|rank| - 1] + 1
  }

  /** Everything hiding each of `ts` in turn hides. */
  ghost function ReachAll(succ: seq<seq<int>>, rank: seq<nat>, ts: seq<int>): set<int>
    requires Ranked(succ, rank)
    requires forall k :: 0 <= k < |ts| ==> 0 <= ts[k] < |succ|
  {
    ReachList(succ, rank, ts, RankBound(rank))
  }

  /** The reach of a list is the union of the reaches of its members. */
  lemma {:induction false} ReachListMembers(succ: seq<seq<int>>, rank: seq<nat>, ts: seq<int>, bound: nat, x: int)
    requires Ranked(succ, rank)
    requires forall k :: 0 <= k < |ts| ==> 0 <= ts[k] < |succ| && rank[ts[k]] < bound
    ensures x in ReachList(succ, rank, ts, bound) <==> exists k :: 0 <= k < |ts| && x in ReachSet(succ, rank, ts[k])
    decreases |ts|
  {
    if ts != [] {
      var n := |ts| - 1;
      var front := ts[..n];
      ReachListMembers(succ, rank, front, bound, x);
      if exists k :: 0 <= k < |ts| && x in ReachSet(succ, rank, ts[k]) {
        var k :| 0 <= k < |ts| && x in ReachSet(succ, rank, ts[k]);
        if k < n {
          assert front[k] == ts[k];
        }
      }
      if x in ReachList(succ, rank, front, bound) {
        var k :| 0 <= k < n && x in ReachSet(succ, rank, front[k]);
        assert front[k] == ts[k];
      }
    }
  }

  /** Hiding each of a list hides each member. */
  lemma ReachAllHolds(succ: seq<seq<int>>, rank: seq<nat>, ts: seq<int>, k: int)
    requires Ranked(succ, rank)
    requires forall i :: 0 <= i < |ts| ==> 0 <= ts[i] < |succ|
    requires 0 <= k < |ts|
    ensures ts[k] in ReachAll(succ, rank, ts)
  {
    assert ts[k] in ReachSet(succ, rank, ts[k]);
    ReachListMembers(succ, rank, ts, RankBound(rank), ts[k]);
  }

  /** The reach of `e` holds `e`, and holds the reach of each of its
      targets. */
  lemma ReachSetClosed(succ: seq<seq<int>>, rank: seq<nat>, e: int, t: int)
    requires Ranked(succ, rank) && 0 <= e < |succ|
    requires t in succ[e]
    ensures e in ReachSet(succ, rank, e)
    ensures 0 <= t < |succ| && ReachSet(succ, rank, t) <= ReachSet(succ, rank, e)
  {
    var ts := succ[e];
    var k :| 0 <= k < |ts| && ts[k] == t;
    forall x | x in ReachSet(succ, rank, t) ensures x in ReachSet(succ, rank, e) {
      ReachListMembers(succ, rank, ts, rank[e], x);
    }
  }

  /** ... and it holds nothing more: any set that holds `e` and is closed
      under following edges contains the whole reach. */
  lemma {:induction false} ReachSetLeast(succ: seq<seq<int>>, rank: seq<nat>, e: int, s: set<int>)
    requires Ranked(succ, rank) && 0 <= e < |succ|
    requires e in s
    requires forall y, t :: y in s && 0 <= y < |succ| && t in succ[y] ==> t in s
    ensures ReachSet(succ, rank, e) <= s
    decreases rank[e]
  {
    var ts := succ[e];
    forall x | x in ReachSet(succ, rank, e) ensures x in s {
      if x != e {
        ReachListMembers(succ, rank, ts, rank[e], x);
        var k :| 0 <= k < |ts| && x in ReachSet(succ, rank, ts[k]);
        assert ts[k] in ts;
        ReachSetLeast(succ, rank, ts[k], s);
      }
    }
  }

  /** The reach of a non-empty list: that of all but its last member, and
      that of its last. */
  lemma ReachListLast(succ: seq<seq<int>>, rank: seq<nat>, ts: seq<int>, bound: nat, i: int)
    requires Ranked(succ, rank)
    requires forall k :: 0 <= k < |ts| ==> 0 <= ts[k] < |succ| && rank[ts[k]] < bound
    requires 0 <= i < |ts|
    ensures ReachList(succ, rank, ts[..i + 1], bound) == ReachList(succ, rank, ts[..i], bound) + ReachSet(succ, rank, ts[i])
  {
    var next := ts[..i + 1];
    assert next[..|next| - 1] == ts[..i] && next[|next| - 1] == ts[i];
  }
}
