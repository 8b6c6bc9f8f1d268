/**
 Merging equal blocks. Rounds of marking, comparing and redirecting, until a round redirects
 nothing; an edge is only ever moved to a block with a higher number.
 */
module Interning {
  import opened Machine
  import opened FlowGraph
  import opened Levels
  import opened Marking

  // ----- equal blocks -----

  /** eq_blk: the same exit, and the same statements but for NOPs. */
  predicate EqBlk(b: Block, c: Block) {
    && Kept(b.stmts) == Kept(c.stmts)
    && match (b, c)
       case (Ret(_, rv), Ret(_, rv')) => rv == rv'
       case (Br(_, t, jt, jf), Br(_, t', jt', jf')) => t == t' && jt == jt' && jf == jf'
       case _ => false
  }

  lemma EqBlkRuns(g: Graph, b: nat, c: nat, r: Regs, p: Packet)
    requires Acyclic(g) && b < |g| && c < |g| && EqBlk(g[b], g[c])
    ensures Run(g, b, r, p) == Run(g, c, r, p)
  {
    KeptRuns(g[b].stmts, r, p);
    KeptRuns(g[c].stmts, r, p);
  }

  lemma EqBlkLevel(g: Graph, b: nat, c: nat)
    requires Acyclic(g) && b < |g| && c < |g| && EqBlk(g[b], g[c])
    ensures Level(g, b) == Level(g, c)
  {
  }

  // ----- links -----

  type Links = seq<Option<nat>>

  ghost predicate LinkAt(g: Graph, link: Links, b: nat)
    requires |link| == |g| && b < |g|
  {
    link[b].Some? ==> b < link[b].value < |g| && EqBlk(g[b], g[link[b].value])
  }

  /** Every link leads to a later block that is equal. */
  ghost predicate LinksOk(g: Graph, link: Links) {
    |link| == |g| && forall b :: 0 <= b < |g| ==> LinkAt(g, link, b)
  }

  function Canon(link: Links, b: nat): nat
    requires b < |link|
  {
    if link[b].Some? then link[b].value else b
  }

  function Relinked(b: Block, link: Links): Block {
    match b
    case Ret(_, _) => b
    case Br(ss, t, jt, jf) =>
      Br(ss, t, if jt < |link| then Canon(link, jt) else jt, if jf < |link| then Canon(link, jf) else jf)
  }

  /** The graph with every edge moved along its target's link. */
  function AllRelinked(g: Graph, link: Links): (r: Graph)
    ensures |r| == |g|
  {
    seq(|g|, b requires 0 <= b < |g| => Relinked(g[b], link))
  }

  lemma CanonLevel(g: Graph, link: Links, b: nat)
    requires Acyclic(g) && LinksOk(g, link) && b < |g|
    ensures b <= Canon(link, b) < |g| && Level(g, Canon(link, b)) == Level(g, b)
    ensures forall r, p :: Run(g, Canon(link, b), r, p) == Run(g, b, r, p)
  {
    assert LinkAt(g, link, b);
    EqBlkLevel(g, b, Canon(link, b));
    forall r, p ensures Run(g, Canon(link, b), r, p) == Run(g, b, r, p) {
      EqBlkRuns(g, b, Canon(link, b), r, p);
    }
  }

  lemma RelinkedAcyclic(g: Graph, link: Links)
    requires Acyclic(g) && LinksOk(g, link)
    ensures Acyclic(AllRelinked(g, link))
  {
    var g' := AllRelinked(g, link);
    assert Ranked(g, RankOf(g));
    var rank := seq(|g|, b requires 0 <= b < |g| => Level(g, b));
    forall b: nat | b < |g| && g'[b].Br?
      ensures g'[b].jt < |g| && g'[b].jf < |g| && rank[g'[b].jt] < rank[b] && rank[g'[b].jf] < rank[b]
    {
      CanonLevel(g, link, g[b].jt);
      CanonLevel(g, link, g[b].jf);
    }
    assert Ranked(g', rank);
  }

  /** Redirecting keeps every verdict, faults included, whatever block a run starts from. */
  lemma {:induction false} RelinkedRuns(g: Graph, link: Links, b: nat, r: Regs, p: Packet)
    requires Acyclic(g) && LinksOk(g, link) && Acyclic(AllRelinked(g, link)) && b < |g|
    ensures Run(AllRelinked(g, link), b, r, p) == Run(g, b, r, p)
    decreases Level(g, b)
  {
    var m := RunStmts(g[b].stmts, r, p);
    if m.Some? && g[b].Br? {
      assert Ranked(g, RankOf(g));
      var c := if Taken(g[b].test, m.value) then g[b].jt else g[b].jf;
      CanonLevel(g, link, c);
      RelinkedRuns(g, link, Canon(link, c), m.value, p);
    }
  }

  /** What interning keeps: the verdict of every run from every block. */
  ghost predicate SameRuns(g: Graph, g': Graph)
    requires Acyclic(g) && Acyclic(g')
  {
    && |g| == |g'|
    && forall b: nat, r, p :: b < |g| ==> Run(g', b, r, p) == Run(g, b, r, p)
  }

  lemma RelinkedSameRuns(g: Graph, link: Links)
    requires Acyclic(g) && LinksOk(g, link)
    ensures Acyclic(AllRelinked(g, link)) && SameRuns(g, AllRelinked(g, link))
  {
    RelinkedAcyclic(g, link);
    forall b: nat, r, p | b < |g| ensures Run(AllRelinked(g, link), b, r, p) == Run(g, b, r, p) {
      RelinkedRuns(g, link, b, r, p);
    }
  }

  lemma SameRunsChain(g: Graph, g1: Graph, g2: Graph)
    requires Acyclic(g) && Acyclic(g1) && Acyclic(g2) && SameRuns(g, g1) && SameRuns(g1, g2)
    ensures SameRuns(g, g2)
  {
  }

  // ----- every round that goes on makes progress -----

  /** How far the edges of the blocks below n can still be moved up. */
  function Slack(g: Graph, n: nat): nat
    requires Valid(g) && n <= |g|
  {
    if n == 0 then 0
    else Slack(g, n - 1) + (if g[n - 1].Br? then |g| - g[n - 1].jt + |g| - g[n - 1].jf else 0)
  }

  lemma {:induction false} SlackFalls(g: Graph, link: Links, n: nat)
    requires Acyclic(g) && LinksOk(g, link) && Valid(g) && Valid(AllRelinked(g, link)) && n <= |g|
    ensures Slack(AllRelinked(g, link), n) <= Slack(g, n)
    ensures (exists b :: 0 <= b < n && AllRelinked(g, link)[b] != g[b]) ==> Slack(AllRelinked(g, link), n) < Slack(g, n)
  {
    if n > 0 {
      SlackFalls(g, link, n - 1);
      if g[n - 1].Br? {
        CanonLevel(g, link, g[n - 1].jt);
        CanonLevel(g, link, g[n - 1].jf);
      }
    }
  }

  // ----- when nothing is left to redirect -----

  /**
   No two reachable blocks have the same statements but for NOPs and return the same, or make the
   same test and have the same two successors.
   */
  ghost predicate NoTwins(g: Graph, root: nat) {
    forall b: nat, c: nat ::
      b < |g| && c < |g| && b != c && Reachable(g, root, b) && Reachable(g, root, c)
      && Kept(g[b].stmts) == Kept(g[c].stmts) ==>
        && !(g[b].Ret? && g[c].Ret? && g[b].rv == g[c].rv)
        && !(g[b].Br? && g[c].Br? && g[b].test == g[c].test && g[b].jt == g[c].jt && g[b].jf == g[c].jf)
  }

  lemma DistinctExactly(g: Graph, root: nat)
    ensures AllDistinct(g, root) <==> NoTwins(g, root)
  {
  }

  /** No two different blocks that a run can come to are equal. */
  ghost predicate AllDistinct(g: Graph, root: nat) {
    forall i: nat, j: nat ::
      i < |g| && j < |g| && Reachable(g, root, i) && Reachable(g, root, j) && EqBlk(g[i], g[j]) ==> i == j
  }

  /** The links found in a round: a reachable block has one just when a later reachable block is equal. */
  ghost predicate LinksComplete(g: Graph, root: nat, link: Links)
    requires |link| == |g|
  {
    forall i: nat, j: nat :: i < j < |g| && Reachable(g, root, i) && Reachable(g, root, j) && EqBlk(g[i], g[j]) ==>
      link[i].Some?
  }

  /** A reachable block other than the root is the successor of a reachable one. */
  lemma Entered(g: Graph, root: nat, b: nat) returns (a: nat)
    requires root < |g| && b < |g| && b != root && Reachable(g, root, b)
    ensures a < |g| && Reachable(g, root, a) && Edge(g, a, b)
  {
    var path :| PathTo(g, root, b, path);
    a := path[|path| - 2];
    assert Edge(g, path[|path| - 2], path[|path| - 1]);
    assert PathTo(g, root, a, path[..|path| - 1]);
  }

  lemma NothingLeft(g: Graph, root: nat, link: Links)
    requires Acyclic(g) && root < |g| && LinksOk(g, link) && LinksComplete(g, root, link)
    requires forall b :: 0 <= b < |g| && g[b].Br? ==>
      g[b].jt < |g| && g[b].jf < |g| && link[g[b].jt].None? && link[g[b].jf].None?
    ensures AllDistinct(g, root)
  {
    forall i: nat, j: nat | i < j < |g| && Reachable(g, root, i) && Reachable(g, root, j) && EqBlk(g[i], g[j])
      ensures false
    {
      EqBlkLevel(g, i, j);
      NotAboveRoot(g, root, i);
      NotAboveRoot(g, root, j);
      var a := Entered(g, root, i);
    }
    forall i: nat, j: nat | i < |g| && j < |g| && Reachable(g, root, i) && Reachable(g, root, j) && EqBlk(g[i], g[j])
      ensures i == j
    {
      assert EqBlk(g[j], g[i]);
    }
  }

  // ----- the passes -----

  /** eq_slist: walks both lists at once, skipping NOPs. */
  method EqSlist(x: seq<Stmt>, y: seq<Stmt>) returns (r: bool)
    ensures r <==> Kept(x) == Kept(y)
  {
    var i, j := 0, 0;
    while true
      invariant i <= |x| && j <= |y| && (Kept(x) == Kept(y) <==> Kept(x[i..]) == Kept(y[j..]))
      decreases |x| - i
    {
      while i < |x| && x[i].Nop?
        invariant i <= |x| && (Kept(x) == Kept(y) <==> Kept(x[i..]) == Kept(y[j..]))
      {
        assert x[i..][1..] == x[i + 1..];
        i := i + 1;
      }
      while j < |y| && y[j].Nop?
        invariant j <= |y| && (Kept(x) == Kept(y) <==> Kept(x[i..]) == Kept(y[j..]))
      {
        assert y[j..][1..] == y[j + 1..];
        j := j + 1;
      }
      if i == |x| {
        return j == |y|;
      }
      if j == |y| {
        return false;
      }
      assert x[i..][1..] == x[i + 1..] && y[j..][1..] == y[j + 1..];
      if x[i] != y[j] {
        assert Kept(x[i..])[0] == x[i] && Kept(y[j..])[0] == y[j];
        return false;
      }
      assert Kept(x[i..])[1..] == Kept(x[i + 1..]) && Kept(y[j..])[1..] == Kept(y[j + 1..]);
      i, j := i + 1, j + 1;
    }
  }

  method SameBlk(b: Block, c: Block) returns (r: bool)
    ensures r <==> EqBlk(b, c)
  {
    r := match (b, c)
      case (Ret(_, rv), Ret(_, rv')) => rv == rv'
      case (Br(_, t, jt, jf), Br(_, t', jt', jf')) => t == t' && jt == jt' && jf == jf'
      case _ => false;
    if r {
      r := EqSlist(b.stmts, c.stmts);
    }
  }

  class Interner {
    const root: nat
    var g: Graph
    var marks: set<nat>
    var link: Links
    ghost var done: set<nat>

    constructor (g: Graph, root: nat)
      ensures this.g == g && this.root == root
    {
      this.g, this.root, marks, link, done := g, root, {}, [], {};
    }

    /** make_marks: marks the blocks below b. */
    method MakeMarks(b: nat)
      requires Acyclic(g) && b < |g| && Reachable(g, root, b) && Explored(g, root, done) && Inside(g, marks, done, b)
      modifies this`marks, this`done
      ensures Explored(g, root, done) && Walked(old(marks), old(done), marks, done, b)
      decreases Level(g, b)
    {
      hide *;
      WalkHere(g, marks, done, b);
      if b in marks {
        return;
      }
      ghost var marks0, done0 := marks, done;
      marks := marks + {b};
      if g[b].Br? {
        BranchEdges(g, b);
        WalkDown(g, root, marks0, done0, b, g[b].jt);
        MakeMarks(g[b].jt);
        ghost var marks1, done1 := marks, done;
        WalkAcross(g, root, marks0, done0, marks, done, b, g[b].jt, g[b].jf);
        MakeMarks(g[b].jf);
        WalkUp(marks0, done0, marks1, done1, marks, done, b, g[b].jt, g[b].jf);
      }
      ExploredMore(g, root, done, b);
      done := done + {b};
    }

    /** mark_code: marks exactly the blocks the root reaches. */
    method MarkCode()
      requires Acyclic(g) && root < |g|
      modifies this`marks, this`done
      ensures forall b: nat :: b in marks <==> b < |g| && Reachable(g, root, b)
    {
      marks, done := {}, {};
      WalkStart(g, root);
      MakeMarks(root);
      forall b: nat | b < |g| && Reachable(g, root, b) ensures b in done {
        ClosedReaches(g, root, done, b);
      }
    }

    /** Compares every marked block with the later marked ones, from the last block down. */
    method FindLinks()
      requires forall b: nat :: b in marks <==> b < |g| && Reachable(g, root, b)
      modifies this`link
      ensures LinksOk(g, link) && LinksComplete(g, root, link)
    {
      link := seq(|g|, b => None);
      var i := |g| - 1;
      while i > 0
        invariant -1 <= i < |g| && LinksOk(g, link)
        invariant forall a :: 0 <= a < i ==> link[a].None?
        invariant forall a: nat, c: nat :: a >= i && a < c < |g| && a in marks && c in marks && EqBlk(g[a], g[c]) ==>
          link[a].Some?
      {
        i := i - 1;
        if i in marks {
          FindLink(i);
        }
      }
    }

    method FindLink(i: nat)
      requires i < |g| && LinksOk(g, link) && link[i].None?
      modifies this`link
      ensures LinksOk(g, link) && forall a :: 0 <= a < |g| && a != i ==> link[a] == old(link)[a]
      ensures (exists c: nat :: i < c < |g| && c in marks && EqBlk(g[i], g[c])) ==> link[i].Some?
    {
      for j := i + 1 to |g|
        invariant link == old(link)
        invariant forall c: nat :: i < c < j && c in marks ==> !EqBlk(g[i], g[c])
      {
        if j in marks {
          var same := SameBlk(g[i], g[j]);
          if same {
            assert LinkAt(g, link, j);
            link := link[i := Some(if link[j].Some? then link[j].value else j)];
            forall a | 0 <= a < |g| ensures LinkAt(g, link, a) {
              if a != i {
                assert LinkAt(g, old(link), a);
              }
            }
            return;
          }
        }
      }
    }

    /** Moves the edges of block i along their targets' links, if those have any. */
    method RedirectBlock(i: nat) returns (moved: bool)
      requires i < |g| && g[i].Br? && g[i].jt < |link| && g[i].jf < |link| && |link| == |g|
      requires forall c :: c in [g[i].jt, g[i].jf] && link[c].Some? ==> c < link[c].value
      modifies this`g
      ensures g == old(g)[i := Relinked(old(g)[i], link)]
      ensures moved <==> link[old(g)[i].jt].Some? || link[old(g)[i].jf].Some?
      ensures moved ==> g[i] != old(g)[i]
    {
      var p := g[i];
      moved := false;
      if link[p.jt].Some? {
        moved := true;
        g := g[i := Br(p.stmts, p.test, link[p.jt].value, p.jf)];
      }
      if link[p.jf].Some? {
        moved := true;
        g := g[i := Br(p.stmts, p.test, g[i].jt, link[p.jf].value)];
      }
    }

    /** Moves every edge along its target's link; done1 is cleared when there was one to move. */
    method Redirect() returns (done1: bool)
      requires Acyclic(g) && LinksOk(g, link)
      modifies this`g
      ensures g == AllRelinked(old(g), link)
      ensures done1 ==> forall b :: 0 <= b < |old(g)| && old(g)[b].Br? ==>
        old(g)[b].jt < |link| && old(g)[b].jf < |link| && link[old(g)[b].jt].None? && link[old(g)[b].jf].None?
      ensures !done1 ==> exists b :: 0 <= b < |g| && AllRelinked(old(g), link)[b] != old(g)[b]
    {
      ghost var g0 := g;
      assert Ranked(g0, RankOf(g0));
      hide Ranked, Acyclic, RankOf;
      done1 := true;
      ghost var at := 0;
      for i := 0 to |g|
        invariant |g| == |g0|
        invariant forall b :: 0 <= b < |g| ==> g[b] == if b < i then Relinked(g0[b], link) else g0[b]
        invariant done1 ==> forall b :: 0 <= b < i && g0[b].Br? ==> link[g0[b].jt].None? && link[g0[b].jf].None?
        invariant !done1 ==> at < i && Relinked(g0[at], link) != g0[at]
      {
        if g[i].Br? {
          assert LinkAt(g0, link, g[i].jt) && LinkAt(g0, link, g[i].jf);
          var moved := RedirectBlock(i);
          if moved {
            done1, at := false, i;
          }
        }
      }
      assert g == AllRelinked(g0, link);
    }

    /** intern_blocks: ends with every verdict as before and no two reachable blocks equal. */
    method InternBlocks()
      requires Acyclic(g) && root < |g|
      modifies this
      ensures Acyclic(g) && SameRuns(old(g), g) && NoTwins(g, root)
    {
      var done1 := false;
      while !done1
        invariant Acyclic(g) && Valid(g) && |g| == |old(g)| && SameRuns(old(g), g)
        invariant done1 ==> AllDistinct(g, root)
        decreases Slack(g, |g|), if done1 then 0 else 1
      {
        ghost var g0 := g;
        MarkCode();
        FindLinks();
        done1 := Redirect();
        RelinkedSameRuns(g0, link);
        SameRunsChain(old(g), g0, g);
        SlackFalls(g0, link, |g0|);
        if done1 {
          NothingLeft(g0, root, link);
          assert g == g0;
        }
      }
      DistinctExactly(g, root);
    }
  }
}
