/**
 The first half of opt_blks: predecessor lists, the meet over them, and one visit of every block
 from the root's level down, with or without rewriting its statements.
 */
module NumberingPass {
  import opened Machine
  import opened FlowGraph
  import opened Levels
  import opened Dominators
  import opened EdgeDominators
  import opened ValueNumbering
  import opened ValueTable
  import opened BlockNumbering
  import opened Rewriting
  import opened Sums
  import LivenessLaws
  import DeadStores

  // ----- predecessor lists -----

  /** in_edges: each block's list holds exactly the edges that reach it from reachable blocks, each once. */
  ghost predicate Inedges(g: Graph, root: nat, ins: seq<seq<nat>>) {
    && |ins| == |g|
    && (forall b :: 0 <= b < |g| ==> NoRepeats(ins[b]))
    && forall b: nat, e: nat :: b < |g| ==> (e in ins[b] <==> Into(g, e, b) && Reachable(g, root, Pred(g, e)))
  }

  /** The same, for the predecessors visited so far. */
  ghost predicate InedgesSoFar(g: Graph, root: nat, levels: seq<seq<nat>>, i: nat, k: nat, ins: seq<seq<nat>>)
    requires Acyclic(g) && i < |levels| && k <= |levels[i]|
  {
    && |ins| == |g|
    && (forall b :: 0 <= b < |g| ==> NoRepeats(ins[b]))
    && forall b: nat, e: nat :: b < |g| ==>
         (e in ins[b] <==> Into(g, e, b) && Visited(g, root, levels, i, k, Pred(g, e)))
  }

  /** link_inedge, for the edge e. */
  function Linked(g: Graph, ins: seq<seq<nat>>, e: nat): (r: seq<seq<nat>>)
    requires Valid(g) && |ins| == |g| && RealEdge(g, e)
    ensures |r| == |ins|
  {
    ins[Succ(g, e) := [e] + ins[Succ(g, e)]]
  }

  lemma LinkedAt(g: Graph, ins: seq<seq<nat>>, e: nat, b: nat, x: nat)
    requires Valid(g) && |ins| == |g| && RealEdge(g, e) && b < |g|
    ensures x in Linked(g, ins, e)[b] <==> x in ins[b] || (x == e && Succ(g, e) == b)
    ensures NoRepeats(ins[b]) && e !in ins[b] ==> NoRepeats(Linked(g, ins, e)[b])
  {
    if Succ(g, e) == b {
      if NoRepeats(ins[b]) && e !in ins[b] {
        NoRepeatsCons(ins[b], e);
      }
      assert x in [e] + ins[b] <==> x == e || x in ins[b];
    }
  }

  lemma VisitedNext(g: Graph, root: nat, levels: seq<seq<nat>>, i: nat, k: nat, a: nat)
    requires Acyclic(g) && root < |g| && Leveled(g, root, levels) && i < |levels| && k < |levels[i]|
    ensures Visited(g, root, levels, i, k + 1, a) <==> Visited(g, root, levels, i, k, a) || a == levels[i][k]
  {
    LeveledAt(g, root, levels, i, k);
    assert levels[i][..k + 1] == levels[i][..k] + [levels[i][k]];
    assert a in levels[i][..k + 1] <==> a in levels[i][..k] || a == levels[i][k];
  }

  /** The edges of the block about to be visited are on no list yet. */
  lemma LinkFresh(g: Graph, root: nat, levels: seq<seq<nat>>, i: nat, k: nat, ins: seq<seq<nat>>, b: nat)
    requires Acyclic(g) && root < |g| && Leveled(g, root, levels) && i < |levels| && k < |levels[i]|
    requires InedgesSoFar(g, root, levels, i, k, ins) && b < |g|
    ensures levels[i][k] !in ins[b] && |g| + levels[i][k] !in ins[b]
  {
    LeveledAt(g, root, levels, i, k);
    assert NoRepeats(levels[i]);
    assert !Visited(g, root, levels, i, k, levels[i][k]);
    assert Pred(g, levels[i][k]) == levels[i][k] && Pred(g, |g| + levels[i][k]) == levels[i][k];
  }

  lemma LinkBlock(g: Graph, root: nat, levels: seq<seq<nat>>, i: nat, k: nat, ins: seq<seq<nat>>)
    requires Acyclic(g) && root < |g| && Leveled(g, root, levels) && 0 < i < |levels| && k < |levels[i]|
    requires InedgesSoFar(g, root, levels, i, k, ins)
    ensures Valid(g) && |ins| == |g| && levels[i][k] < |g| && RealEdge(g, levels[i][k])
    ensures RealEdge(g, |g| + levels[i][k])
    ensures InedgesSoFar(g, root, levels, i, k + 1,
              Linked(g, Linked(g, ins, levels[i][k]), |g| + levels[i][k]))
  {
    var p := levels[i][k];
    LeveledAt(g, root, levels, i, k);
    assert Ranked(g, RankOf(g));
    var r := Linked(g, Linked(g, ins, p), |g| + p);
    forall b: nat | b < |g| ensures NoRepeats(r[b]) {
      LinkFresh(g, root, levels, i, k, ins, b);
      LinkedAt(g, ins, p, b, |g| + p);
      LinkedAt(g, Linked(g, ins, p), |g| + p, b, p);
    }
    forall b: nat, e: nat | b < |g|
      ensures e in r[b] <==> Into(g, e, b) && Visited(g, root, levels, i, k + 1, Pred(g, e))
    {
      LinkedAt(g, ins, p, b, e);
      LinkedAt(g, Linked(g, ins, p), |g| + p, b, e);
      VisitedNext(g, root, levels, i, k, Pred(g, e));
    }
  }

  lemma InedgesDown(g: Graph, root: nat, levels: seq<seq<nat>>, i: nat, ins: seq<seq<nat>>)
    requires Acyclic(g) && root < |g| && Leveled(g, root, levels) && 0 < i < |levels|
    requires InedgesSoFar(g, root, levels, i, |levels[i]|, ins)
    ensures InedgesSoFar(g, root, levels, i - 1, 0, ins)
  {
    assert levels[i][..|levels[i]|] == levels[i];
    forall b: nat ensures Visited(g, root, levels, i, |levels[i]|, b) <==> Visited(g, root, levels, i - 1, 0, b) {
    }
  }

  lemma InedgesStart(g: Graph, root: nat, levels: seq<seq<nat>>)
    requires Acyclic(g) && root < |g| && Leveled(g, root, levels)
    ensures Level(g, root) < |g| && InedgesSoFar(g, root, levels, Level(g, root), 0, seq(|g|, b => []))
  {
    LevelBound(g, root);
    forall a: nat ensures !Visited(g, root, levels, Level(g, root), 0, a) {
      if a < |g| && Reachable(g, root, a) {
        NotAboveRoot(g, root, a);
      }
    }
  }

  /** Leaves have no edges, so stopping above level 0 misses nothing. */
  lemma InedgesEnd(g: Graph, root: nat, levels: seq<seq<nat>>, ins: seq<seq<nat>>)
    requires Acyclic(g) && root < |g| && Leveled(g, root, levels) && |levels| > 0
    requires InedgesSoFar(g, root, levels, 0, 0, ins)
    ensures Inedges(g, root, ins)
  {
    forall b: nat, e: nat | b < |g| && Into(g, e, b)
      ensures Visited(g, root, levels, 0, 0, Pred(g, e)) <==> Reachable(g, root, Pred(g, e))
    {
    }
  }

  method FindInedges(g: Graph, root: nat, level: seq<nat>, levels: seq<seq<nat>>) returns (ins: seq<seq<nat>>)
    requires Acyclic(g) && root < |g| && Leveled(g, root, levels)
    requires |level| == |g| && level[root] == Level(g, root)
    ensures Inedges(g, root, ins)
  {
    hide *;
    LevelCount(g, root, levels);
    ins := seq(|g|, b => []);
    InedgesStart(g, root, levels);
    var i: int := level[root];
    while i > 0
      invariant 0 <= i < |levels|
      invariant InedgesSoFar(g, root, levels, i, 0, ins)
    {
      for k := 0 to |levels[i]|
        invariant InedgesSoFar(g, root, levels, i, k, ins)
      {
        LinkBlock(g, root, levels, i, k, ins);
        ins := Linked(g, ins, levels[i][k]);
        ins := Linked(g, ins, |g| + levels[i][k]);
      }
      InedgesDown(g, root, levels, i, ins);
      i := i - 1;
    }
    InedgesEnd(g, root, levels, ins);
  }

  // ----- the meet -----

  ghost predicate AllAlong(g: Graph, ns: seq<Numbers>, es: seq<nat>, a: nat, v: nat)
    requires |ns| == |g| && a < N_ATOMS
  {
    forall k :: 0 <= k < |es| ==> es[k] < 2 * |g| && ns[Pred(g, es[k])].val[a] == v
  }

  /** Number v is what the predecessors along es agree on for atom a; 0 when they do not agree. */
  ghost predicate MeetAt(g: Graph, ns: seq<Numbers>, es: seq<nat>, a: nat, v: nat)
    requires |ns| == |g| && a < N_ATOMS
  {
    && (v != 0 ==> AllAlong(g, ns, es, a, v))
    && (forall w: nat :: AllAlong(g, ns, es, a, w) ==> v == w)
  }

  method InheritNumbers(g: Graph, ns: seq<Numbers>, es: seq<nat>) returns (val: Vals)
    requires |ns| == |g| && forall k :: 0 <= k < |es| ==> es[k] < 2 * |g|
    ensures es == [] ==> forall a :: 0 <= a < N_ATOMS ==> val[a] == 0
    ensures es != [] ==> forall a :: 0 <= a < N_ATOMS ==> MeetAt(g, ns, es, a, val[a])
  {
    val := seq(N_ATOMS, a => 0);
    if es == [] {
      return;
    }
    val := ns[Pred(g, es[0])].val;
    assert es[..1] == [es[0]];
    for k := 1 to |es|
      invariant forall a :: 0 <= a < N_ATOMS ==> MeetAt(g, ns, es[..k], a, val[a])
    {
      ghost var val0 := val;
      for i := 0 to N_ATOMS
        invariant forall a :: 0 <= a < N_ATOMS ==>
          val[a] == if a < i && val0[a] != ns[Pred(g, es[k])].val[a] then 0 else val0[a]
      {
        if val[i] != ns[Pred(g, es[k])].val[i] {
          val := val[i := 0];
        }
      }
      forall a | 0 <= a < N_ATOMS ensures MeetAt(g, ns, es[..k + 1], a, val[a]) {
        MeetOneMore(g, ns, es, k, a, val0[a]);
      }
    }
    assert es[..|es|] == es;
  }

  lemma MeetOneMore(g: Graph, ns: seq<Numbers>, es: seq<nat>, k: nat, a: nat, v: nat)
    requires |ns| == |g| && a < N_ATOMS && 0 < k < |es| && es[k] < 2 * |g|
    requires MeetAt(g, ns, es[..k], a, v)
    ensures MeetAt(g, ns, es[..k + 1], a, if v == ns[Pred(g, es[k])].val[a] then v else 0)
  {
    var u := ns[Pred(g, es[k])].val[a];
    var more := es[..k + 1];
    AlongOneMore(g, ns, es, k, a, v);
    forall w: nat | AllAlong(g, ns, more, a, w) ensures w == if v == u then v else 0 {
      AlongOneMore(g, ns, es, k, a, w);
    }
  }

  lemma AlongOneMore(g: Graph, ns: seq<Numbers>, es: seq<nat>, k: nat, a: nat, w: nat)
    requires |ns| == |g| && a < N_ATOMS && k < |es| && es[k] < 2 * |g|
    ensures AllAlong(g, ns, es[..k + 1], a, w) <==>
            AllAlong(g, ns, es[..k], a, w) && ns[Pred(g, es[k])].val[a] == w
  {
    assert es[..k + 1][k] == es[k];
    assert forall j :: 0 <= j < k ==> es[..k + 1][j] == es[..k][j];
    if AllAlong(g, ns, es[..k + 1], a, w) {
      forall j | 0 <= j < k ensures es[..k][j] < 2 * |g| && ns[Pred(g, es[..k][j])].val[a] == w {
        assert es[..k][j] == es[..k + 1][j];
      }
    }
  }

  /** The meet over the predecessor list is what the block is to inherit. */
  lemma MeetIsEntry(g: Graph, root: nat, ins: seq<seq<nat>>, ns: seq<Numbers>, b: nat)
    requires Acyclic(g) && root < |g| && Inedges(g, root, ins) && |ns| == |g|
    requires b < |g| && Reachable(g, root, b)
    requires ins[b] == [] ==> forall a :: 0 <= a < N_ATOMS ==> ns[b].entry[a] == 0
    requires ins[b] != [] ==> forall a :: 0 <= a < N_ATOMS ==> MeetAt(g, ns, ins[b], a, ns[b].entry[a])
    ensures EntryMeets(g, root, ns, b)
  {
    if b == root {
      RootHasNoPredecessor(g, root, ins);
    } else {
      HasPredecessor(g, root, ins, b);
      forall a | 0 <= a < N_ATOMS
        ensures ns[b].entry[a] != 0 ==> AllLeave(g, root, ns, b, a, ns[b].entry[a])
        ensures forall v: nat :: AllLeave(g, root, ns, b, a, v) ==> ns[b].entry[a] == v
      {
        forall v: nat ensures AllAlong(g, ns, ins[b], a, v) <==> AllLeave(g, root, ns, b, a, v) {
          AlongIsLeave(g, root, ins, ns, b, a, v);
        }
        assert MeetAt(g, ns, ins[b], a, ns[b].entry[a]);
      }
    }
  }

  lemma AlongIsLeave(g: Graph, root: nat, ins: seq<seq<nat>>, ns: seq<Numbers>, b: nat, a: nat, v: nat)
    requires Valid(g) && root < |g| && Inedges(g, root, ins) && |ns| == |g| && b < |g| && a < N_ATOMS
    ensures AllAlong(g, ns, ins[b], a, v) <==> AllLeave(g, root, ns, b, a, v)
  {
    if AllAlong(g, ns, ins[b], a, v) {
      forall c: nat | Edge(g, c, b) && Reachable(g, root, c) ensures ns[c].val[a] == v {
        var e := if g[c].jt == b then c else |g| + c;
        assert Into(g, e, b) && e in ins[b];
      }
    }
    if AllLeave(g, root, ns, b, a, v) {
      forall k | 0 <= k < |ins[b]| ensures ins[b][k] < 2 * |g| && ns[Pred(g, ins[b][k])].val[a] == v {
        assert ins[b][k] in ins[b];
        assert Edge(g, Pred(g, ins[b][k]), b);
      }
    }
  }

  lemma RootHasNoPredecessor(g: Graph, root: nat, ins: seq<seq<nat>>)
    requires Acyclic(g) && root < |g| && Inedges(g, root, ins)
    ensures ins[root] == []
  {
    if ins[root] != [] {
      var e := ins[root][0];
      assert e in ins[root];
      NotAboveRoot(g, root, Pred(g, e));
    }
  }

  lemma HasPredecessor(g: Graph, root: nat, ins: seq<seq<nat>>, b: nat)
    requires Valid(g) && root < |g| && Inedges(g, root, ins) && b < |g| && b != root && Reachable(g, root, b)
    ensures ins[b] != []
  {
    var path :| PathTo(g, root, b, path);
    var n := |path| - 1;
    var c := path[n - 1];
    assert Edge(g, c, path[n]);
    assert PathTo(g, root, c, path[..n]);
    var e := if g[c].jt == b then c else |g| + c;
    assert Into(g, e, b);
  }

  // ----- one block -----

  /** The block as opt_blk leaves it. */
  function Left(b: Block, n: Numbers, alter: bool, out: set<nat>): Block {
    DeadStores.WithStmts(b, Finished(b, n, out, alter))
  }

  /**
   What that comes to: only the statements change. In a rewriting pass a return loses them all, and so
   does a branch with nothing in use after it that leaves in A and X the known numbers it found there.
   Elsewhere just those statements become NOPs whose result nothing reads: the statements after it
   write it before they read it, or they leave it alone and neither the branch nor anything later
   uses it.
   */
  lemma LeftExactly(b: Block, n: Numbers, alter: bool, out: set<nat>)
    ensures var b' := Left(b, n, alter, out);
      && (b'.Ret? <==> b.Ret?) && (b.Ret? ==> b'.rv == b.rv)
      && (b.Br? ==> b'.test == b.test && b'.jt == b.jt && b'.jf == b.jf)
      && if alter && (b.Ret? || (out == {} && n.entry[16] == n.val[16] != 0 && n.entry[17] == n.val[17] != 0))
         then b'.stmts == []
         else
           && |b'.stmts| == |n.ss|
           && forall i :: 0 <= i < |n.ss| ==>
                b'.stmts[i] == if Unread(n.ss, i, DeadStores.EndUses(b) + out) then Nop else n.ss[i]
  {
    if !(alter && Emptied(b, n, out)) {
      forall i | 0 <= i < |n.ss|
        ensures DeadStores.Dead(n.ss, i, DeadStores.EndUses(b) + out) <==>
                Unread(n.ss, i, DeadStores.EndUses(b) + out)
      {
        if Def(n.ss[i]).Some? {
          LivenessLaws.LiveIsReadFirst(n.ss[i + 1..], DeadStores.EndUses(b) + out, Def(n.ss[i]).value);
        }
      }
    }
  }

  /** Statement i writes an atom that the statements after it do not read before writing it again, if ever. */
  predicate Unread(ss: seq<Stmt>, i: nat, last: set<nat>)
    requires i < |ss|
  {
    Def(ss[i]).Some? &&
    var a, rest := Def(ss[i]).value, ss[i + 1..];
    !LivenessLaws.ReadFirst(rest, a) && (a in last ==> !LivenessLaws.NotWritten(rest, a, |rest|))
  }

  /** opt_blk: entry numbers in, exit numbers, operand number and the block out, unless opt_stmt stops the compiler. */
  method NumberBlock(values: Values, b: Block, entry: Vals, alter: bool, out: set<nat>)
    returns (n: Numbers, b': Block, stop: Stop)
    requires values.Valid() && Within(values.nodes, entry)
    modifies values
    ensures values.Valid()
    ensures stop.Continue? <==> OptStmts(old(values.nodes), entry, b.stmts, alter).Listed?
    ensures n.entry == entry
    ensures stop.Continue? ==>
      && NumberedFrom(old(values.nodes), values.nodes, b, n, alter)
      && b' == Left(b, n, alter, out)
      && old(values.nodes) <= values.nodes && Within(values.nodes, n.val)
    ensures |values.nodes| <= |old(values.nodes)| + 2 * |Kept(b.stmts)| + 1
  {
    ghost var t0, l := values.nodes, OptStmts(values.nodes, entry, b.stmts, alter);
    var val, ss;
    val, ss, stop := NumberStmts(values, b.stmts, entry, alter);
    n, b' := Numbers(entry, val, 0, ss), b;
    if !stop.Continue? {
      return;
    }
    OptStmtsTable(t0, entry, b.stmts, alter);
    assert values.nodes == l.t && val == l.val && ss == l.ss;
    var o;
    if b.Br? && b.test.JmpX? {
      o := val[X_ATOM];
    } else {
      o := values.F(KImm(if b.Br? then b.test.k else if b.rv.RetK? then b.rv.k else 0));
    }
    n := Numbers(entry, val, o, ss);
    b' := FinishBlock(b, n, out, alter);
  }

  /** The statement loop of opt_blk. */
  method NumberStmts(values: Values, ss: seq<Stmt>, entry: Vals, alter: bool)
    returns (val: Vals, ss': seq<Stmt>, stop: Stop)
    requires values.Valid() && Within(values.nodes, entry)
    modifies values
    ensures values.Valid()
    ensures var l := OptStmts(old(values.nodes), entry, ss, alter);
      (stop.Continue? <==> l.Listed?) && (l.Listed? ==> l == Listed(values.nodes, val, ss'))
    ensures |values.nodes| <= |old(values.nodes)| + 2 * |Kept(ss)|
  {
    hide *;
    ghost var l, n0 := OptStmts(values.nodes, entry, ss, alter), |values.nodes|;
    var cur := new nat[N_ATOMS](a requires 0 <= a < N_ATOMS => entry[a]);
    assert cur[..] == entry;
    ss', val, stop := [], entry, Continue;
    assert ss[..0] == [] && ss[0..] == ss;
    for i := 0 to |ss|
      invariant values.Valid() && cur.Length == N_ATOMS && Within(values.nodes, cur[..])
      invariant fresh(cur) && stop.Continue?
      invariant |values.nodes| <= n0 + 2 * |Kept(ss[..i])|
      invariant var rest := OptStmts(values.nodes, cur[..], ss[i..], alter);
        rest.Listed? == l.Listed? && (l.Listed? ==> l == Listed(rest.t, rest.val, ss' + rest.ss))
    {
      ghost var t, v := values.nodes, cur[..];
      ValidTable(values);
      OneMore(t, v, ss, i, alter);
      var s';
      s', stop := values.OptStmt(ss[i], cur, alter);
      if !stop.Continue? {
        KeptPrefix(ss, i + 1);
        return;
      }
      ss' := ss' + [s'];
    }
    assert ss[..|ss|] == ss && ss[|ss|..] == [];
    NothingLeft(values.nodes, cur[..], alter);
    val := cur[..];
  }

  lemma ValidTable(values: Values)
    requires values.Valid()
    ensures WellFormed(values.nodes)
  {
  }

  lemma NothingLeft(t: Table, v: Vals, alter: bool)
    ensures OptStmts(t, v, [], alter) == Listed(t, v, [])
  {
  }

  /** One statement more: what is left to do, and what it may cost. */
  lemma OneMore(t: Table, v: Vals, ss: seq<Stmt>, i: nat, alter: bool)
    requires WellFormed(t) && Within(t, v) && i < |ss|
    ensures |Kept(ss[..i + 1])| == |Kept(ss[..i])| + (if ss[i].Nop? then 0 else 1)
    ensures var rw, all := OptStmt(t, v, ss[i], alter), OptStmts(t, v, ss[i..], alter);
      && (StopOf(rw).Continue? <==> rw.Rewritten?)
      && (!rw.Rewritten? ==> !all.Listed? && !ss[i].Nop?)
      && (rw.Rewritten? ==>
            var rest := OptStmts(rw.t, rw.val, ss[i + 1..], alter);
            && |rw.t| <= |t| + (if ss[i].Nop? then 0 else 2) && Within(rw.t, rw.val)
            && all.Listed? == rest.Listed?
            && (all.Listed? ==> all == Listed(rest.t, rest.val, [rw.s] + rest.ss)))
  {
    OptStmtTable(t, v, ss[i], alter);
    assert ss[..i + 1] == ss[..i] + [ss[i]];
    KeptAppend(ss[..i], ss[i]);
    assert ss[i..][1..] == ss[i + 1..] && ss[i..][0] == ss[i];
    assert ss[i].Nop? ==> OptStmt(t, v, ss[i], alter).Rewritten?;
    hide OptStmt;
  }

  /** The end of opt_blk: the whole list goes, or its dead stores do. */
  method FinishBlock(b: Block, n: Numbers, out: set<nat>, alter: bool) returns (b': Block)
    ensures b' == Left(b, n, alter, out)
  {
    if alter && (b.Ret? || (out == {} && n.entry[A_ATOM] != 0 && n.val[A_ATOM] == n.entry[A_ATOM]
                            && n.entry[X_ATOM] != 0 && n.val[X_ATOM] == n.entry[X_ATOM])) {
      return DeadStores.WithStmts(b, []);
    }
    var stmts := new Stmt[|n.ss|](j requires 0 <= j < |n.ss| => n.ss[j]);
    assert stmts[..] == n.ss;
    DeadStores.OptDeadstores(stmts, DeadStores.WithStmts(b, n.ss), out);
    b' := DeadStores.WithStmts(b, stmts[..]);
  }

  // ----- the whole pass -----

  /** The blocks visited so far are numbered, from what their predecessors left. */
  ghost predicate NumberedSoFar(t: Table, g: Graph, root: nat, levels: seq<seq<nat>>, i: nat, k: nat, ns: seq<Numbers>,
                                alter: bool)
    requires Acyclic(g) && i < |levels| && k <= |levels[i]|
  {
    && WellFormed(t) && |ns| == |g|
    && forall b: nat :: Visited(g, root, levels, i, k, b) ==> BlockDone(t, g, root, ns, b, alter)
  }

  ghost predicate BlockDone(t: Table, g: Graph, root: nat, ns: seq<Numbers>, b: nat, alter: bool)
    requires |ns| == |g|
  {
    b < |g| && NumberedBlock(t, g[b], ns[b], alter) && Within(t, ns[b].val) && EntryMeets(g, root, ns, b)
  }

  /** Giving another block its numbers, and growing the table, leaves a finished block finished. */
  lemma DoneKept(t: Table, t': Table, g: Graph, root: nat, ns: seq<Numbers>, ns': seq<Numbers>, b: nat, p: nat,
          alter: bool)
    requires |ns| == |ns'| == |g| && p < |g| && p != b && BlockDone(t, g, root, ns, b, alter)
    requires WellFormed(t') && t <= t' && ns' == ns[p := ns'[p]]
    requires !(Edge(g, p, b) && Reachable(g, root, p))
    ensures BlockDone(t', g, root, ns', b, alter)
  {
    var t0 :| NumberedFrom(t0, t, g[b], ns[b], alter);
    assert NumberedFrom(t0, t', g[b], ns'[b], alter);
    forall a: nat, v: nat | a < N_ATOMS
      ensures AllLeave(g, root, ns', b, a, v) <==> AllLeave(g, root, ns, b, a, v)
    {
    }
  }

  lemma NumberStep(t: Table, t': Table, g: Graph, root: nat, levels: seq<seq<nat>>, i: nat, k: nat,
          ns: seq<Numbers>, n: Numbers, alter: bool)
    requires Acyclic(g) && root < |g| && Leveled(g, root, levels) && i < |levels| && k < |levels[i]|
    requires NumberedSoFar(t, g, root, levels, i, k, ns, alter) && levels[i][k] < |g|
    requires NumberedFrom(t, t', g[levels[i][k]], n, alter) && t <= t' && Within(t', n.val)
    requires EntryMeets(g, root, ns[levels[i][k] := n], levels[i][k])
    ensures NumberedSoFar(t', g, root, levels, i, k + 1, ns[levels[i][k] := n], alter)
  {
    var p := levels[i][k];
    LeveledAt(g, root, levels, i, k);
    var ns' := ns[p := n];
    forall b: nat | Visited(g, root, levels, i, k + 1, b) ensures BlockDone(t', g, root, ns', b, alter) {
      VisitedNext(g, root, levels, i, k, b);
      if b != p {
        assert !Edge(g, p, b);
        DoneKept(t, t', g, root, ns, ns', b, p, alter);
      }
    }
  }

  /** Before a block is visited all its predecessors have been; its own old numbers do not matter. */
  lemma EntryFromList(g: Graph, root: nat, ins: seq<seq<nat>>, ns: seq<Numbers>, b: nat, n: Numbers)
    requires Acyclic(g) && root < |g| && Inedges(g, root, ins) && |ns| == |g|
    requires b < |g| && Reachable(g, root, b)
    requires ins[b] == [] ==> forall a :: 0 <= a < N_ATOMS ==> n.entry[a] == 0
    requires ins[b] != [] ==> forall a :: 0 <= a < N_ATOMS ==> MeetAt(g, ns, ins[b], a, n.entry[a])
    ensures EntryMeets(g, root, ns[b := n], b)
  {
    var ns' := ns[b := n];
    assert Ranked(g, RankOf(g));
    forall a: nat, v: nat | a < N_ATOMS
      ensures AllAlong(g, ns', ins[b], a, v) <==> AllAlong(g, ns, ins[b], a, v)
    {
      assert forall k :: 0 <= k < |ins[b]| ==> ins[b][k] in ins[b];
      assert forall k :: 0 <= k < |ins[b]| ==> Into(g, ins[b][k], b) && Pred(g, ins[b][k]) != b;
    }
    forall a | 0 <= a < N_ATOMS && ins[b] != [] ensures MeetAt(g, ns', ins[b], a, n.entry[a]) {
      assert MeetAt(g, ns, ins[b], a, n.entry[a]);
    }
    MeetIsEntry(g, root, ins, ns', b);
  }

  lemma EntryWithin(t: Table, g: Graph, root: nat, levels: seq<seq<nat>>, i: nat, k: nat, ins: seq<seq<nat>>,
          ns: seq<Numbers>, alter: bool, entry: Vals)
    requires Acyclic(g) && root < |g| && Leveled(g, root, levels) && i < |levels| && k < |levels[i]|
    requires NumberedSoFar(t, g, root, levels, i, k, ns, alter) && Inedges(g, root, ins) && levels[i][k] < |g|
    requires var es := ins[levels[i][k]];
      && (es == [] ==> forall a :: 0 <= a < N_ATOMS ==> entry[a] == 0)
      && (es != [] ==> forall a :: 0 <= a < N_ATOMS ==> MeetAt(g, ns, es, a, entry[a]))
    ensures Within(t, entry)
  {
    var b := levels[i][k];
    if ins[b] != [] {
      var e := ins[b][0];
      assert e in ins[b] && Into(g, e, b);
      PredecessorsVisited(g, root, levels, i, k, Pred(g, e), b);
      assert BlockDone(t, g, root, ns, Pred(g, e), alter);
      forall a | 0 <= a < N_ATOMS ensures entry[a] <= |t| {
        assert MeetAt(g, ns, ins[b], a, entry[a]);
      }
    }
  }

  // ----- how many numbers a pass gives out -----

  /** At most this many numbers for block b: two a statement and one for the branch operand. */
  function NumberCost(g: Graph): (w: seq<nat>)
    ensures |w| == |g|
  {
    seq(|g|, b requires 0 <= b < |g| => 2 * |Kept(g[b].stmts)| + 1)
  }

  /** The statements and branches of all blocks: max_stmts. */
  function StmtCount(g: Graph): (w: seq<nat>)
    ensures |w| == |g|
  {
    seq(|g|, b requires 0 <= b < |g| => |Kept(g[b].stmts)| + 1)
  }

  /** The size opt_init allocates for the table. */
  function MaxVal(g: Graph): nat {
    3 * SumOver(StmtCount(g), Below(|g|), |g|)
  }

  lemma {:induction false} CostBelowMax(g: Graph, n: nat)
    requires n <= |g|
    ensures SumOver(NumberCost(g), Below(|g|), n) + n <= 3 * SumOver(StmtCount(g), Below(|g|), n)
  {
    if n > 0 {
      CostBelowMax(g, n - 1);
    }
  }

  lemma TableFits(g: Graph, visited: set<nat>)
    requires |g| > 0 && forall b :: b in visited ==> b < |g|
    ensures SumOver(NumberCost(g), visited, |g|) < MaxVal(g)
  {
    SumLess(NumberCost(g), NumberCost(g), visited, Below(|g|), |g|);
    CostBelowMax(g, |g|);
  }

  lemma NumberStart(g: Graph, root: nat, levels: seq<seq<nat>>, ns: seq<Numbers>, alter: bool,
          out: seq<set<nat>>)
    requires Acyclic(g) && root < |g| && Leveled(g, root, levels) && |ns| == |out| == |g|
    ensures Level(g, root) < |g| && NumberedSoFar([], g, root, levels, Level(g, root), 0, ns, alter)
    ensures LeftSoFar(g, g, root, levels, Level(g, root), 0, ns, alter, out)
    ensures SumOver(NumberCost(g), {}, |g|) == 0
  {
    LevelBound(g, root);
    SumNone(NumberCost(g), |g|);
    forall a: nat ensures !Visited(g, root, levels, Level(g, root), 0, a) {
      if a < |g| && Reachable(g, root, a) {
        NotAboveRoot(g, root, a);
      }
    }
  }

  lemma NumberDown(t: Table, g: Graph, h: Graph, root: nat, levels: seq<seq<nat>>, i: nat, ns: seq<Numbers>,
          alter: bool, out: seq<set<nat>>)
    requires Acyclic(g) && root < |g| && Leveled(g, root, levels) && 0 < i < |levels|
    requires NumberedSoFar(t, g, root, levels, i, |levels[i]|, ns, alter)
    requires LeftSoFar(g, h, root, levels, i, |levels[i]|, ns, alter, out)
    ensures NumberedSoFar(t, g, root, levels, i - 1, 0, ns, alter)
    ensures LeftSoFar(g, h, root, levels, i - 1, 0, ns, alter, out)
  {
    assert levels[i][..|levels[i]|] == levels[i];
    forall b: nat ensures Visited(g, root, levels, i, |levels[i]|, b) <==> Visited(g, root, levels, i - 1, 0, b) {
    }
  }

  lemma NumberEnd(t: Table, g: Graph, h: Graph, root: nat, levels: seq<seq<nat>>, ns: seq<Numbers>, alter: bool,
          out: seq<set<nat>>)
    requires Acyclic(g) && root < |g| && Leveled(g, root, levels) && |levels| > 0
    requires NumberedSoFar(t, g, root, levels, 0, |levels[0]|, ns, alter)
    requires LeftSoFar(g, h, root, levels, 0, |levels[0]|, ns, alter, out)
    ensures Numbered(t, g, root, ns, alter)
    ensures FinishedGraph(t, g, h, root, ns, out, alter)
  {
    assert levels[0][..|levels[0]|] == levels[0];
    forall b: nat | b < |g| && Reachable(g, root, b) ensures BlockDone(t, g, root, ns, b, alter) {
      assert Visited(g, root, levels, 0, |levels[0]|, b);
    }
    forall b: nat | b < |g|
      ensures h[b] == if Reachable(g, root, b) then Left(g[b], ns[b], alter, out[b]) else g[b]
    {
      assert Visited(g, root, levels, 0, |levels[0]|, b) <==> Reachable(g, root, b);
    }
  }

  /** The blocks counted so far are all visited ones. */
  ghost predicate OnlyVisited(g: Graph, root: nat, levels: seq<seq<nat>>, i: nat, k: nat, visited: set<nat>)
    requires Acyclic(g) && i < |levels| && k <= |levels[i]|
  {
    forall b :: b in visited ==> Visited(g, root, levels, i, k, b)
  }

  lemma CountBlock(g: Graph, root: nat, levels: seq<seq<nat>>, i: nat, k: nat, visited: set<nat>)
    requires Acyclic(g) && root < |g| && Leveled(g, root, levels) && i < |levels| && k < |levels[i]|
    requires OnlyVisited(g, root, levels, i, k, visited)
    ensures levels[i][k] < |g| && OnlyVisited(g, root, levels, i, k + 1, visited + {levels[i][k]})
    ensures SumOver(NumberCost(g), visited + {levels[i][k]}, |g|) ==
            SumOver(NumberCost(g), visited, |g|) + 2 * |Kept(g[levels[i][k]].stmts)| + 1
  {
    var p := levels[i][k];
    LeveledAt(g, root, levels, i, k);
    assert NoRepeats(levels[i]);
    forall b | b in visited + {p} ensures Visited(g, root, levels, i, k + 1, b) {
      VisitedNext(g, root, levels, i, k, b);
    }
    SumAdd(NumberCost(g), visited, p, |g|);
  }

  lemma NoneVisited(g: Graph, root: nat, levels: seq<seq<nat>>, i: nat)
    requires Acyclic(g) && i < |levels|
    ensures OnlyVisited(g, root, levels, i, 0, {})
  {
  }

  lemma CountDown(g: Graph, root: nat, levels: seq<seq<nat>>, i: nat, visited: set<nat>)
    requires Acyclic(g) && root < |g| && Leveled(g, root, levels) && 0 < i < |levels|
    requires OnlyVisited(g, root, levels, i, |levels[i]|, visited)
    ensures OnlyVisited(g, root, levels, i - 1, 0, visited)
  {
    assert levels[i][..|levels[i]|] == levels[i];
  }

  /**
   The first half of opt_blks. Unless opt_stmt stops the compiler, it ends with every reachable
   block numbered and finished; whatever happens, fewer numbers are given out than opt_init has
   made room for.
   */
  method NumberBlocks(g: Graph, root: nat, level: seq<nat>, levels: seq<seq<nat>>, values: Values, alter: bool,
                      outUse: seq<set<nat>>)
    returns (ns: seq<Numbers>, h: Graph, stop: Stop)
    requires Acyclic(g) && root < |g| && Leveled(g, root, levels)
    requires |level| == |outUse| == |g| && level[root] == Level(g, root)
    requires values.Valid() && values.nodes == []
    modifies values
    ensures values.Valid() && |values.nodes| < MaxVal(g)
    ensures stop.Continue? ==> FinishedGraph(values.nodes, g, h, root, ns, outUse, alter)
    ensures !alter ==> stop.Continue?
    ensures !stop.Continue? ==> exists p :: Stopped(g, root, p)
  {
    hide *;
    LevelCount(g, root, levels);
    var ins := FindInedges(g, root, level, levels);
    var zero: Vals := seq(N_ATOMS, a => 0);
    ns, h, stop := seq(|g|, b => Numbers(zero, zero, 0, [])), g, Continue;
    NumberStart(g, root, levels, ns, alter, outUse);
    ghost var visited := {};
    var i: int := level[root];
    NoneVisited(g, root, levels, level[root]);
    while i >= 0
      invariant -1 <= i < |levels| && |levels| == |g|
      invariant values.Valid()
      invariant if i >= 0 then
          && NumberedSoFar(values.nodes, g, root, levels, i, 0, ns, alter)
          && LeftSoFar(g, h, root, levels, i, 0, ns, alter, outUse)
          && OnlyVisited(g, root, levels, i, 0, visited)
        else
          FinishedGraph(values.nodes, g, h, root, ns, outUse, alter) && |values.nodes| < MaxVal(g)
      invariant i >= 0 ==> |values.nodes| <= SumOver(NumberCost(g), visited, |g|)
      invariant stop.Continue?
    {
      ns, h, stop, visited := NumberLevel(g, root, levels, i, ins, values, alter, outUse, ns, h, visited);
      VisitedAreBlocks(g, root, levels, i, visited);
      TableFits(g, visited);
      if !stop.Continue? {
        return;
      }
      if i > 0 {
        NumberDown(values.nodes, g, h, root, levels, i, ns, alter, outUse);
        CountDown(g, root, levels, i, visited);
      } else {
        NumberEnd(values.nodes, g, h, root, levels, ns, alter, outUse);
      }
      i := i - 1;
    }
  }

  lemma VisitedAreBlocks(g: Graph, root: nat, levels: seq<seq<nat>>, i: nat, visited: set<nat>)
    requires Acyclic(g) && i < |levels| && OnlyVisited(g, root, levels, i, |levels[i]|, visited)
    ensures forall b :: b in visited ==> b < |g|
  {
  }

  /** One level of the pass. */
  method NumberLevel(g: Graph, root: nat, levels: seq<seq<nat>>, i: nat, ins: seq<seq<nat>>, values: Values,
                     alter: bool, outUse: seq<set<nat>>, ns0: seq<Numbers>, h0: Graph, ghost visited0: set<nat>)
    returns (ns: seq<Numbers>, h: Graph, stop: Stop, ghost visited: set<nat>)
    requires Acyclic(g) && root < |g| && Leveled(g, root, levels) && i < |levels| && Inedges(g, root, ins)
    requires values.Valid() && NumberedSoFar(values.nodes, g, root, levels, i, 0, ns0, alter)
    requires LeftSoFar(g, h0, root, levels, i, 0, ns0, alter, outUse)
    requires OnlyVisited(g, root, levels, i, 0, visited0)
    requires |values.nodes| <= SumOver(NumberCost(g), visited0, |g|)
    modifies values
    ensures values.Valid() && (!alter ==> stop.Continue?)
    ensures !stop.Continue? ==> exists p :: Stopped(g, root, p)
    ensures stop.Continue? ==>
      && NumberedSoFar(values.nodes, g, root, levels, i, |levels[i]|, ns, alter)
      && LeftSoFar(g, h, root, levels, i, |levels[i]|, ns, alter, outUse)
    ensures OnlyVisited(g, root, levels, i, |levels[i]|, visited)
    ensures |values.nodes| <= SumOver(NumberCost(g), visited, |g|)
  {
    hide *;
    ns, h, stop, visited := ns0, h0, Continue, visited0;
    for k := 0 to |levels[i]|
      invariant values.Valid() && NumberedSoFar(values.nodes, g, root, levels, i, k, ns, alter)
      invariant LeftSoFar(g, h, root, levels, i, k, ns, alter, outUse)
      invariant OnlyVisited(g, root, levels, i, k, visited)
      invariant |values.nodes| <= SumOver(NumberCost(g), visited, |g|)
      invariant stop.Continue?
    {
      var p := levels[i][k];
      Sizes(values.nodes, g, h, root, levels, i, k, ins, ns, alter, outUse);
      var entry := InheritNumbers(g, ns, ins[p]);
      EntryWithin(values.nodes, g, root, levels, i, k, ins, ns, alter, entry);
      ghost var t := values.nodes;
      var n, b;
      n, b, stop := NumberBlock(values, h[p], entry, alter, outUse[p]);
      CountBlock(g, root, levels, i, k, visited);
      visited := visited + {p};
      NeverGivesUp(t, entry, g[p].stmts);
      EntryFromList(g, root, ins, ns, p, n);
      if !stop.Continue? {
        StopHere(t, g, root, levels, i, k, ns, n);
        VisitedGrows(g, root, levels, i, k + 1, visited);
        return;
      }
      NumberStep(t, values.nodes, g, root, levels, i, k, ns, n, alter);
      LeftStep(g, h, root, levels, i, k, ns, n, alter, outUse);
      ns, h := ns[p := n], h[p := b];
    }
  }

  lemma StopHere(t: Table, g: Graph, root: nat, levels: seq<seq<nat>>, i: nat, k: nat, ns: seq<Numbers>, n: Numbers)
    requires Acyclic(g) && root < |g| && Leveled(g, root, levels) && i < |levels| && k < |levels[i]|
    requires NumberedSoFar(t, g, root, levels, i, k, ns, true) && levels[i][k] < |g| && Within(t, n.entry)
    requires EntryMeets(g, root, ns[levels[i][k] := n], levels[i][k])
    requires !OptStmts(t, n.entry, g[levels[i][k]].stmts, true).Listed?
    ensures Stopped(g, root, levels[i][k])
  {
    var p := levels[i][k];
    LeveledAt(g, root, levels, i, k);
    var ns' := ns[p := n];
    forall b: nat | b < |g| && Reachable(g, root, b) && Level(g, b) > i
      ensures NumberedBlock(t, g[b], ns'[b], true) && EntryMeets(g, root, ns', b)
    {
      assert Visited(g, root, levels, i, k, b) && Ranked(g, RankOf(g));
      DoneKept(t, t, g, root, ns, ns', b, p, true);
    }
    assert StopsAt(t, g, root, ns', p);
  }

  lemma NeverGivesUp(t: Table, v: Vals, ss: seq<Stmt>)
    ensures OptStmts(t, v, ss, false).Listed?
  {
    PlainList(t, v, v, ss, {});
  }

  lemma VisitedGrows(g: Graph, root: nat, levels: seq<seq<nat>>, i: nat, k: nat, visited: set<nat>)
    requires Acyclic(g) && i < |levels| && k <= |levels[i]| && OnlyVisited(g, root, levels, i, k, visited)
    ensures OnlyVisited(g, root, levels, i, |levels[i]|, visited)
  {
    assert forall b :: b in levels[i][..k] ==> b in levels[i][..|levels[i]|];
  }

  /** Visited blocks are as opt_blk leaves them, the others as they were. */
  ghost predicate LeftSoFar(g: Graph, h: Graph, root: nat, levels: seq<seq<nat>>, i: nat, k: nat, ns: seq<Numbers>,
                            alter: bool, out: seq<set<nat>>)
    requires Acyclic(g) && i < |levels| && k <= |levels[i]|
  {
    && |h| == |ns| == |out| == |g|
    && forall b: nat :: b < |g| ==>
         h[b] == if Visited(g, root, levels, i, k, b) then Left(g[b], ns[b], alter, out[b]) else g[b]
  }

  lemma LeftStep(g: Graph, h: Graph, root: nat, levels: seq<seq<nat>>, i: nat, k: nat, ns: seq<Numbers>, n: Numbers,
          alter: bool, out: seq<set<nat>>)
    requires Acyclic(g) && root < |g| && Leveled(g, root, levels) && i < |levels| && k < |levels[i]|
    requires LeftSoFar(g, h, root, levels, i, k, ns, alter, out)
    ensures levels[i][k] < |g| && levels[i][k] < |ns| && levels[i][k] < |h| && levels[i][k] < |out|
    ensures var p := levels[i][k];
      LeftSoFar(g, h[p := Left(g[p], n, alter, out[p])], root, levels, i, k + 1, ns[p := n], alter, out)
  {
    var p := levels[i][k];
    LeveledAt(g, root, levels, i, k);
    forall b: nat | b < |g|
      ensures Visited(g, root, levels, i, k + 1, b) <==> Visited(g, root, levels, i, k, b) || b == p
    {
      VisitedNext(g, root, levels, i, k, b);
    }
  }

  lemma Sizes(t: Table, g: Graph, h: Graph, root: nat, levels: seq<seq<nat>>, i: nat, k: nat, ins: seq<seq<nat>>,
          ns: seq<Numbers>, alter: bool, out: seq<set<nat>>)
    requires Acyclic(g) && root < |g| && Leveled(g, root, levels) && i < |levels| && k < |levels[i]|
    requires Inedges(g, root, ins) && NumberedSoFar(t, g, root, levels, i, k, ns, alter)
    requires LeftSoFar(g, h, root, levels, i, k, ns, alter, out)
    ensures |ns| == |ins| == |h| == |out| == |g| && levels[i][k] < |g| && Reachable(g, root, levels[i][k])
    ensures h[levels[i][k]] == g[levels[i][k]]
    ensures forall j :: 0 <= j < |ins[levels[i][k]]| ==> ins[levels[i][k]][j] < 2 * |g|
  {
    assert NoRepeats(levels[i]);
    LeveledAt(g, root, levels, i, k);
    var es := ins[levels[i][k]];
    assert forall j :: 0 <= j < |es| ==> es[j] in es;
    assert forall e :: e in es ==> Into(g, e, levels[i][k]);
  }
}
