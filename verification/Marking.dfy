/**
 Walks over the graph that mark each block once, as count_stmts, convert_code_r and make_marks
 do. A walk is inside the blocks it has marked and not yet finished; those are all above the
 block it is looking at, so a marked block it meets again is finished.
 */
module Marking {
  import opened Machine
  import opened FlowGraph
  import opened Levels

  /** done holds reachable blocks, and with each of them its successors. */
  ghost predicate Explored(g: Graph, root: nat, done: set<nat>) {
    forall x :: x in done ==> x < |g| && Reachable(g, root, x) && (g[x].Br? ==> g[x].jt in done && g[x].jf in done)
  }

  lemma ExploredAll(g: Graph, root: nat, done: set<nat>, all: set<nat>)
    requires Explored(g, root, done) && Explored(g, root, all) && root in done && root in all
    ensures done == all
  {
    forall x | x in all ensures x in done {
      ClosedReaches(g, root, done, x);
    }
    forall x | x in done ensures x in all {
      ClosedReaches(g, root, all, x);
    }
  }

  /** The blocks marked but not done are those the walk is inside of, all above b. */
  ghost predicate Inside(g: Graph, marks: set<nat>, done: set<nat>, b: nat)
    requires Acyclic(g) && b < |g|
  {
    done <= marks && forall x :: x in marks && x !in done ==> x < |g| && Level(g, x) > Level(g, b)
  }

  /** What a walk from b leaves: b done, and no block done or left open that it did not visit. */
  ghost predicate Walked(marks0: set<nat>, done0: set<nat>, marks: set<nat>, done: set<nat>, b: nat) {
    && b in done && done0 <= done && done <= marks && marks0 <= marks
    && (forall x :: x in marks && x !in done ==> x in marks0 && x !in done0)
    && (forall x :: x in marks0 && x !in done0 ==> x !in done)
  }

  lemma WalkDown(g: Graph, root: nat, marks: set<nat>, done: set<nat>, b: nat, c: nat)
    requires Acyclic(g) && b < |g| && Inside(g, marks, done, b) && b !in marks && Edge(g, b, c) && Reachable(g, root, b)
    ensures c < |g| && Level(g, c) < Level(g, b) && Reachable(g, root, c) && Inside(g, marks + {b}, done, c)
  {
    assert Ranked(g, RankOf(g));
    ReachableStep(g, root, b, c);
  }

  /** After the first successor has been walked the second one can be. */
  lemma WalkAcross(g: Graph, root: nat, marks: set<nat>, done: set<nat>, marks1: set<nat>, done1: set<nat>, b: nat,
          c: nat, d: nat)
    requires Acyclic(g) && b < |g| && Inside(g, marks, done, b) && b !in marks && Edge(g, b, d) && Reachable(g, root, b)
    requires Walked(marks + {b}, done, marks1, done1, c)
    ensures d < |g| && Level(g, d) < Level(g, b) && Reachable(g, root, d) && Inside(g, marks1, done1, d)
  {
    assert Ranked(g, RankOf(g));
    ReachableStep(g, root, b, d);
  }

  lemma WalkUp(marks: set<nat>, done: set<nat>, marks1: set<nat>, done1: set<nat>, marks2: set<nat>,
          done2: set<nat>, b: nat, c: nat, d: nat)
    requires b !in marks && done <= marks
    requires Walked(marks + {b}, done, marks1, done1, c) && Walked(marks1, done1, marks2, done2, d)
    ensures b !in done2 && c in done2 && d in done2 && Walked(marks, done, marks2, done2 + {b}, b)
  {
  }

  lemma WalkedMore(marks0: set<nat>, done0: set<nat>, marks1: set<nat>, done1: set<nat>, b: nat)
    requires Walked(marks0, done0, marks1, done1, b)
    ensures b in done1 && done0 <= done1
  {
  }

  lemma BranchEdges(g: Graph, b: nat)
    requires b < |g| && g[b].Br?
    ensures Edge(g, b, g[b].jt) && Edge(g, b, g[b].jf)
  {
  }

  lemma ExploredMore(g: Graph, root: nat, done: set<nat>, b: nat)
    requires Explored(g, root, done) && b < |g| && Reachable(g, root, b)
    requires g[b].Br? ==> g[b].jt in done && g[b].jf in done
    ensures Explored(g, root, done + {b})
  {
  }

  /** The start of a walk: nothing is marked. */
  lemma WalkStart(g: Graph, root: nat)
    requires Acyclic(g) && root < |g|
    ensures Reachable(g, root, root) && Explored(g, root, {}) && Inside(g, {}, {}, root) && Valid(g)
  {
    ReachableSelf(g, root);
    assert Ranked(g, RankOf(g));
  }

  /** A marked block is finished; an unmarked leaf can be finished at once. */
  lemma WalkHere(g: Graph, marks: set<nat>, done: set<nat>, b: nat)
    requires Acyclic(g) && b < |g| && Inside(g, marks, done, b)
    ensures done <= marks && (b in marks ==> b in done && Walked(marks, done, marks, done, b))
    ensures b !in marks && g[b].Ret? ==> Walked(marks, done, marks + {b}, done + {b}, b)
  {
  }
}
