/**
 Levelling the graph: level 0 for the leaves, one more than the higher successor otherwise.
 Every analysis of the optimizer visits the blocks level by level.
 */
module Levels {
  import opened Machine
  import opened FlowGraph

  function Max(a: nat, b: nat): nat {
    if a > b then a else b
  }

  ghost function Level(g: Graph, b: nat): nat
    requires Acyclic(g) && b < |g|
    decreases RankOf(g)[b]
  {
    if g[b].Ret? then 0 else 1 + Max(Level(g, g[b].jt), Level(g, g[b].jf))
  }

  /** The blocks of every level, as the lists found by following the link fields from levels[]. */
  ghost predicate Leveled(g: Graph, root: nat, levels: seq<seq<nat>>)
    requires Acyclic(g) && root < |g|
  {
    && |levels| == |g|
    && (forall l, k :: 0 <= l < |levels| && 0 <= k < |levels[l]| ==> OnLevel(g, root, levels[l][k], l))
    && (forall b: nat :: Reachable(g, root, b) && b < |g| ==> Level(g, b) < |levels| && b in levels[Level(g, b)])
    && (forall l :: 0 <= l < |levels| ==> NoRepeats(levels[l]))
  }

  ghost predicate OnLevel(g: Graph, root: nat, b: nat, l: nat)
    requires Acyclic(g)
  {
    b < |g| && Level(g, b) == l && Reachable(g, root, b)
  }

  lemma LevelCount(g: Graph, root: nat, levels: seq<seq<nat>>)
    requires Acyclic(g) && root < |g| && Leveled(g, root, levels)
    ensures |levels| == |g|
  {
  }

  lemma LeveledAt(g: Graph, root: nat, levels: seq<seq<nat>>, i: nat, k: nat)
    requires Acyclic(g) && root < |g| && Leveled(g, root, levels) && i < |levels| && k < |levels[i]|
    ensures levels[i][k] < |g| && Level(g, levels[i][k]) == i && Reachable(g, root, levels[i][k])
  {
    assert OnLevel(g, root, levels[i][k], i);
  }

  ghost predicate NoRepeats(s: seq<nat>) {
    forall i, j :: 0 <= i < j < |s| ==> s[i] != s[j]
  }

  /** There are no more levels than blocks. */
  lemma LevelBound(g: Graph, b: nat)
    requires Acyclic(g) && b < |g|
    ensures Level(g, b) < |g|
  {
    var s := LevelChain(g, b);
    BoundedCardinality(s, |g|);
  }

  lemma {:induction false} LevelChain(g: Graph, b: nat) returns (s: set<nat>)
    requires Acyclic(g) && b < |g|
    ensures |s| == Level(g, b) + 1
    ensures forall x :: x in s ==> x < |g| && Level(g, x) <= Level(g, b)
    decreases RankOf(g)[b]
  {
    if g[b].Ret? {
      s := {b};
    } else {
      var c := if Level(g, g[b].jt) > Level(g, g[b].jf) then g[b].jt else g[b].jf;
      var t := LevelChain(g, c);
      s := t + {b};
    }
  }

  lemma {:induction false} BoundedCardinality(s: set<nat>, n: nat)
    requires forall x :: x in s ==> x < n
    ensures |s| <= n
  {
    if n == 0 {
      assert s == {};
    } else {
      BoundedCardinality(s - {n - 1}, n - 1);
      assert s <= (s - {n - 1}) + {n - 1};
      assert |(s - {n - 1}) + {n - 1}| == |s - {n - 1}| + 1;
      if n - 1 !in s {
        assert s - {n - 1} == s;
      } else {
        assert (s - {n - 1}) + {n - 1} == s;
      }
    }
  }

  /** The blocks in done have their level, and levels lists exactly them. */
  ghost predicate Filed(g: Graph, root: nat, done: set<nat>, level: seq<nat>, levels: seq<seq<nat>>)
    requires Acyclic(g)
  {
    && |level| == |levels| == |g|
    && (forall x :: x in done ==> x < |g| && Reachable(g, root, x))
    && (forall x :: x in done ==> level[x] == Level(g, x) && Level(g, x) < |g| && x in levels[Level(g, x)])
    && (forall x :: x in done && g[x].Br? ==> g[x].jt in done && g[x].jf in done)
    && (forall l, x :: 0 <= l < |g| && x in levels[l] ==> x in done && Level(g, x) == l)
    && (forall l :: 0 <= l < |g| ==> NoRepeats(levels[l]))
  }

  lemma FileBlock(g: Graph, root: nat, done: set<nat>, level: seq<nat>, levels: seq<seq<nat>>, b: nat)
    requires Acyclic(g) && Filed(g, root, done, level, levels)
    requires b < |g| && b !in done && Reachable(g, root, b) && Level(g, b) < |g|
    requires g[b].Br? ==> g[b].jt in done && g[b].jf in done
    ensures Filed(g, root, done + {b}, level[b := Level(g, b)],
                  levels[Level(g, b) := [b] + levels[Level(g, b)]])
  {
    hide Level, Acyclic, RankOf, Reachable;
    var l := Level(g, b);
    var done', level', levels' := done + {b}, level[b := l], levels[l := [b] + levels[l]];
    assert b !in levels[l];
    forall x | x in done' ensures Level(g, x) < |g| && x in levels'[Level(g, x)] {
      FiledAt(levels, l, b, x, Level(g, x));
    }
    forall m, x | 0 <= m < |g| && x in levels'[m] ensures x in done' && Level(g, x) == m {
      if m == l && x != b {
        assert x in levels[l];
      }
    }
    forall m | 0 <= m < |g| ensures NoRepeats(levels'[m]) {
      NoRepeatsCons(levels[l], b);
      assert NoRepeats(levels[m]);
    }
  }

  lemma NoRepeatsCons(s: seq<nat>, b: nat)
    requires NoRepeats(s) && b !in s
    ensures NoRepeats([b] + s)
  {
  }

  lemma FiledAt(levels: seq<seq<nat>>, l: nat, b: nat, x: nat, m: nat)
    requires l < |levels| && m < |levels| && ((x == b && m == l) || x in levels[m])
    ensures x in levels[l := [b] + levels[l]][m]
  {
    if m == l {
      assert x in [b] + levels[l];
    }
  }

  lemma RankFalls(g: Graph, b: nat)
    requires Acyclic(g) && b < |g| && g[b].Br?
    ensures g[b].jt < |g| && g[b].jf < |g|
    ensures RankOf(g)[g[b].jt] < RankOf(g)[b] && RankOf(g)[g[b].jf] < RankOf(g)[b]
    ensures Edge(g, b, g[b].jt) && Edge(g, b, g[b].jf)
  {
  }

  /** Blocks reached from b are not above it. */
  lemma LevelFalls(g: Graph, b: nat, path: seq<nat>)
    requires Acyclic(g) && IsPath(g, path) && path[0] == b
    ensures b < |g| && path[|path| - 1] < |g| && Level(g, path[|path| - 1]) <= Level(g, b)
    ensures |path| > 1 ==> Level(g, path[|path| - 1]) < Level(g, b)
    decreases |path|
  {
    if |path| > 1 {
      assert Edge(g, path[0], path[1]);
      LevelFalls(g, path[1], path[1..]);
    }
  }

  /** The level of a block is the number of edges on the longest path from it. */
  lemma {:induction false} LongestPath(g: Graph, b: nat) returns (path: seq<nat>)
    requires Acyclic(g) && b < |g|
    ensures IsPath(g, path) && path[0] == b && |path| == Level(g, b) + 1
    ensures forall other :: IsPath(g, other) && other[0] == b ==> |other| <= Level(g, b) + 1
    decreases RankOf(g)[b]
  {
    if g[b].Ret? {
      path := [b];
    } else {
      var rest := LongestPath(g, if Level(g, g[b].jt) > Level(g, g[b].jf) then g[b].jt else g[b].jf);
      path := [b] + rest;
      forall k | 0 <= k < |path| - 1 ensures Edge(g, path[k], path[k + 1]) {
        if k > 0 {
          var j := k - 1;
          assert path[k] == rest[j] && path[k + 1] == rest[j + 1];
        }
      }
    }
    forall other | IsPath(g, other) && other[0] == b ensures |other| <= Level(g, b) + 1 {
      PathLevels(g, other);
    }
  }

  lemma {:induction false} PathLevels(g: Graph, path: seq<nat>)
    requires Acyclic(g) && IsPath(g, path)
    ensures path[0] < |g| && |path| <= Level(g, path[0]) + 1
    decreases |path|
  {
    if |path| > 1 {
      assert Edge(g, path[0], path[1]);
      PathLevels(g, path[1..]);
    }
  }

  lemma NotAboveRoot(g: Graph, root: nat, a: nat)
    requires Acyclic(g) && root < |g| && a < |g| && Reachable(g, root, a)
    ensures Level(g, a) <= Level(g, root) && (a != root ==> Level(g, a) < Level(g, root))
    ensures !Edge(g, a, root)
  {
    var path :| PathTo(g, root, a, path);
    LevelFalls(g, root, path);
  }

  class Leveler {
    const g: Graph
    const root: nat
    var marks: set<nat>
    var level: seq<nat>
    var levels: seq<seq<nat>>
    ghost var done: set<nat>

    constructor (g: Graph, root: nat)
      ensures this.g == g && this.root == root
    {
      this.g, this.root := g, root;
    }

    /** Levels the blocks below b; the marked blocks not done are the ones b was reached through. */
    method FindLevelsR(b: nat)
      requires Acyclic(g) && b < |g| && Reachable(g, root, b)
      requires Filed(g, root, done, level, levels) && done <= marks
      requires forall x :: x in marks && x !in done ==> x < |g| && RankOf(g)[x] > RankOf(g)[b]
      modifies this
      ensures Filed(g, root, done, level, levels) && done <= marks
      ensures b in done && old(done) <= done && old(marks) <= marks
      ensures forall x :: x in marks && x !in done ==> x in old(marks) && x !in old(done)
      ensures forall x :: x in old(marks) && x !in old(done) ==> x !in done
      decreases RankOf(g)[b]
    {
      hide Filed;
      FiledSize(g, root, done, level, levels);
      if b in marks {
        return;
      }
      marks := marks + {b};
      var l := 0;
      if g[b].Br? {
        RankFalls(g, b);
        ReachableStep(g, root, b, g[b].jt);
        ReachableStep(g, root, b, g[b].jf);
        FindLevelsR(g[b].jt);
        FindLevelsR(g[b].jf);
        FiledLevel(g, root, done, level, levels, g[b].jt);
        FiledLevel(g, root, done, level, levels, g[b].jf);
        l := Max(level[g[b].jt], level[g[b].jf]) + 1;
        FiledSize(g, root, done, level, levels);
      }
      LevelBound(g, b);
      FileBlock(g, root, done, level, levels, b);
      FiledLevel(g, root, done + {b}, level[b := l], levels[l := [b] + levels[l]], b);
      level := level[b := l];
      levels := levels[l := [b] + levels[l]];
      done := done + {b};
    }

    method FindLevels()
      requires Acyclic(g) && root < |g|
      modifies this
      ensures Leveled(g, root, levels)
      ensures |level| == |g|
      ensures forall b: nat :: b < |g| && Reachable(g, root, b) ==> level[b] == Level(g, b)
    {
      levels := seq(|g|, i => []);
      level := seq(|g|, i => 0);
      marks, done := {}, {};
      ReachableSelf(g, root);
      FindLevelsR(root);
      FiledAll(g, root, done, level, levels);
    }
  }

  lemma FiledSize(g: Graph, root: nat, done: set<nat>, level: seq<nat>, levels: seq<seq<nat>>)
    requires Acyclic(g) && Filed(g, root, done, level, levels)
    ensures |level| == |levels| == |g|
  {
  }

  lemma FiledAll(g: Graph, root: nat, done: set<nat>, level: seq<nat>, levels: seq<seq<nat>>)
    requires Acyclic(g) && root < |g| && Filed(g, root, done, level, levels) && root in done
    ensures Leveled(g, root, levels)
    ensures forall b: nat :: b < |g| && Reachable(g, root, b) ==> level[b] == Level(g, b)
  {
    forall b: nat | Reachable(g, root, b) ensures b in done {
      ClosedReaches(g, root, done, b);
    }
  }

  lemma FiledLevel(g: Graph, root: nat, done: set<nat>, level: seq<nat>, levels: seq<seq<nat>>, x: nat)
    requires Acyclic(g) && Filed(g, root, done, level, levels) && x in done
    ensures |level| == |levels| == |g| && x < |g| && level[x] == Level(g, x) && Level(g, x) < |g|
  {
  }
}
