/**
 Numbering the blocks of the graph: every block inherits the numbers its predecessors agree on, and
 its exit numbers and the number of its branch operand are recorded. When branches are to be moved
 opt_stmt changes no statement, and the recorded numbers are true of every run of the numbered lists.

 The blocks considered carry nothing from one to the next but the shared atoms, which the root
 sets and nothing else writes. Containment says which generated programs are of that kind, with the
 lengths of variable-length headers as the shared atoms, and RegisterReuse shows one that is not.
 */
module BlockNumbering {
  import opened Machine
  import opened FlowGraph
  import opened Liveness
  import opened DeadStores
  import opened ValueNumbering
  import Levels

  // ----- self-contained blocks -----

  /** The atoms a block reads before it has set them. */
  function Inherits(b: Block): set<nat> {
    LiveBefore(b.stmts, EndUses(b))
  }

  ghost predicate SelfContained(g: Graph, root: nat, shared: set<nat>) {
    && root < |g| && Inherits(g[root]) == {} && shared <= Writes(g[root].stmts)
    && forall b: nat :: b < |g| && b != root && Reachable(g, root, b) ==> Contained(g[b], shared)
  }

  predicate Contained(b: Block, shared: set<nat>) {
    Inherits(b) <= shared && Writes(b.stmts) !! shared
  }

  /** Moving edges among the reachable blocks reaches no others. */
  lemma NoneAdded(g: Graph, g': Graph, root: nat, b: nat)
    requires |g'| == |g| && root < |g| && b < |g| && Reachable(g', root, b)
    requires forall x: nat, y: nat :: x < |g| && Reachable(g, root, x) && Edge(g', x, y) ==>
      y < |g| && Reachable(g, root, y)
    ensures Reachable(g, root, b)
  {
    var s := set c: nat | c < |g| && Reachable(g, root, c);
    ReachableSelf(g, root);
    assert forall x :: x in s && x < |g'| && g'[x].Br? ==> Edge(g', x, g'[x].jt) && Edge(g', x, g'[x].jf);
    ClosedReaches(g', root, s, b);
  }

  lemma SelfContainedKept(g: Graph, g': Graph, root: nat, shared: set<nat>)
    requires SelfContained(g, root, shared) && SameBlocks(g, g')
    requires forall x: nat, y: nat :: x < |g| && Reachable(g, root, x) && Edge(g', x, y) ==>
      y < |g| && Reachable(g, root, y)
    ensures SelfContained(g', root, shared)
  {
    assert SameBlock(g[root], g'[root]);
    forall b: nat | b < |g'| && b != root && Reachable(g', root, b) ensures Contained(g'[b], shared) {
      NoneAdded(g, g', root, b);
      assert SameBlock(g[b], g'[b]);
    }
  }

  /** A contained block behaves the same on all states that agree on the shared atoms. */
  lemma ContainedRuns(b: Block, shared: set<nat>, r: Regs, s: Regs, p: Packet)
    requires Contained(b, shared) && Agree(r, s, shared)
    ensures var x, y := RunStmts(b.stmts, r, p), RunStmts(b.stmts, s, p);
      x.Some? == y.Some? && (x.Some? ==> Agree(x.value, y.value, EndUses(b)) && Agree(x.value, y.value, shared))
  {
    RunAgree(b.stmts, r, s, p, EndUses(b));
    var x, y := RunStmts(b.stmts, r, p), RunStmts(b.stmts, s, p);
    if x.Some? {
      WritesOnly(b.stmts, r, p);
      WritesOnly(b.stmts, s, p);
    }
  }

  // ----- numbering without rewriting -----

  predicate SameOn(v: Vals, w: Vals, atoms: set<nat>) {
    forall a :: a in atoms && a < N_ATOMS ==> v[a] == w[a]
  }

  predicate KnownOn(v: Vals, atoms: set<nat>) {
    forall a :: a in atoms && a < N_ATOMS ==> v[a] != 0
  }

  /** Without rewriting, a statement is kept, and only what it reads affects its numbers. */
  lemma PlainStmt(t: Table, v: Vals, w: Vals, s: Stmt, out: set<nat>)
    requires SameOn(v, w, (out - Defs(s)) + Uses(s))
    ensures var x, y := OptStmt(t, v, s, false), OptStmt(t, w, s, false);
      && x.Rewritten? && y.Rewritten? && x.s == s && x.t == y.t && SameOn(x.val, y.val, out)
  {
    assert forall a :: a in Uses(s) ==> v[a] == w[a];
  }

  /** Numbers of atoms that are not written stay, and known operands give known results. */
  lemma KnownStmt(t: Table, v: Vals, s: Stmt, alter: bool, out: set<nat>)
    requires KnownOn(v, (out - Defs(s)) + Uses(s))
    ensures var x := OptStmt(t, v, s, alter);
      && ReadsKnown(v, s)
      && (x.Rewritten? ==> KnownOn(x.val, out))
  {
    KnownResult(t, v, s, alter);
    UnwrittenNumber(t, v, s, alter);
    assert forall a :: a in Uses(s) ==> v[a] != 0;
    hide OptStmt;
  }

  lemma {:induction false} PlainList(t: Table, v: Vals, w: Vals, ss: seq<Stmt>, out: set<nat>)
    requires SameOn(v, w, LiveBefore(ss, out))
    ensures var x, y := OptStmts(t, v, ss, false), OptStmts(t, w, ss, false);
      && x.Listed? && y.Listed? && x.t == y.t && SameOn(x.val, y.val, out)
    decreases |ss|
  {
    if ss != [] {
      PlainStmt(t, v, w, ss[0], LiveBefore(ss[1..], out));
      var x, y := OptStmt(t, v, ss[0], false), OptStmt(t, w, ss[0], false);
      PlainList(x.t, x.val, y.val, ss[1..], out);
    }
  }

  /** When the atoms a list inherits have known numbers, it never reads one that has not. */
  lemma {:induction false} KnownList(t: Table, v: Vals, ss: seq<Stmt>, alter: bool, out: set<nat>)
    requires KnownOn(v, LiveBefore(ss, out))
    ensures AllReadsKnown(t, v, ss, alter)
    ensures var x := OptStmts(t, v, ss, alter); x.Listed? ==> KnownOn(x.val, out)
    decreases |ss|
  {
    if ss != [] {
      KnownStmt(t, v, ss[0], alter, LiveBefore(ss[1..], out));
      var x := OptStmt(t, v, ss[0], alter);
      if x.Rewritten? {
        KnownList(x.t, x.val, ss[1..], alter, out);
      }
    }
  }

  // ----- the numbers of a block -----

  /**
   The numbers a block starts from, the ones it ends with, that of its branch operand, and what
   opt_stmt left of its statements.
   */
  datatype Numbers = Numbers(entry: Vals, val: Vals, oval: nat, ss: seq<Stmt>)

  /** The branch operand: the number of the constant, or what X holds. A return counts as constant. */
  function Operand(t: Table, b: Block, val: Vals): (Table, nat) {
    match b
    case Br(_, JmpX(_), _, _) => (t, val[X_ATOM])
    case Br(_, JmpK(_, k), _, _) => Intern(t, KImm(k))
    case Ret(_, rv) => Intern(t, KImm(if rv.RetK? then rv.k else 0))
  }

  /**
   n are the numbers opt_blk gives block b, starting from table t0, when it rewrites statements and
   when it does not.
   */
  ghost predicate NumberedFrom(t0: Table, t: Table, b: Block, n: Numbers, alter: bool) {
    && WellFormed(t0) && WellFormed(t) && Within(t0, n.entry)
    && var l := OptStmts(t0, n.entry, b.stmts, alter);
       && l.Listed? && n.val == l.val && n.ss == l.ss && n.oval == Operand(l.t, b, l.val).1
       && t0 <= l.t && Operand(l.t, b, l.val).0 <= t
  }

  ghost predicate NumberedBlock(t: Table, b: Block, n: Numbers, alter: bool) {
    exists t0 :: NumberedFrom(t0, t, b, n, alter)
  }

  ghost predicate AllLeave(g: Graph, root: nat, ns: seq<Numbers>, b: nat, a: nat, v: nat)
    requires |ns| == |g| && a < N_ATOMS
  {
    forall c: nat :: Edge(g, c, b) && Reachable(g, root, c) ==> ns[c].val[a] == v
  }

  /** A block inherits number v for an atom when all its predecessors leave v there, else 0. */
  ghost predicate EntryMeets(g: Graph, root: nat, ns: seq<Numbers>, b: nat)
    requires |ns| == |g| && b < |g|
  {
    forall a :: 0 <= a < N_ATOMS ==>
      if b == root then ns[b].entry[a] == 0
      else
        && (ns[b].entry[a] != 0 ==> AllLeave(g, root, ns, b, a, ns[b].entry[a]))
        && (forall v: nat :: AllLeave(g, root, ns, b, a, v) ==> ns[b].entry[a] == v)
  }

  ghost predicate Numbered(t: Table, g: Graph, root: nat, ns: seq<Numbers>, alter: bool) {
    && WellFormed(t) && |ns| == |g|
    && forall b: nat :: b < |g| && Reachable(g, root, b) ==>
         NumberedBlock(t, g[b], ns[b], alter) && EntryMeets(g, root, ns, b)
  }

  // ----- what the numbers say about runs -----

  lemma {:induction false} UnwrittenNumbers(t: Table, v: Vals, ss: seq<Stmt>, alter: bool)
    requires OptStmts(t, v, ss, alter).Listed?
    ensures forall a :: 0 <= a < N_ATOMS && a !in Writes(ss) ==> OptStmts(t, v, ss, alter).val[a] == v[a]
    decreases |ss|
  {
    if ss != [] {
      UnwrittenNumber(t, v, ss[0], alter);
      var x := OptStmt(t, v, ss[0], alter);
      UnwrittenNumbers(x.t, x.val, ss[1..], alter);
    }
  }

  lemma UnwrittenNumber(t: Table, v: Vals, s: Stmt, alter: bool)
    ensures var x := OptStmt(t, v, s, alter);
      x.Rewritten? ==> forall a :: 0 <= a < N_ATOMS && a !in Defs(s) ==> x.val[a] == v[a]
  {
  }

  /** The blocks above p are numbered, and p has inherited its numbers. */
  ghost predicate NumberedAbove(t: Table, g: Graph, root: nat, ns: seq<Numbers>, alter: bool, p: nat) {
    && Acyclic(g) && WellFormed(t) && |ns| == |g| && root < |g|
    && p < |g| && Reachable(g, root, p) && EntryMeets(g, root, ns, p)
    && forall b: nat :: b < |g| && Reachable(g, root, b) && Levels.Level(g, b) > Levels.Level(g, p) ==>
         NumberedBlock(t, g[b], ns[b], alter) && EntryMeets(g, root, ns, b)
  }

  /** Wherever the numbers have come to below the root, a shared atom has the number the root left. */
  lemma {:induction false} SharedAbove(t: Table, g: Graph, root: nat, ns: seq<Numbers>, alter: bool,
          shared: set<nat>, p: nat, b: nat, a: nat)
    requires SelfContained(g, root, shared) && NumberedAbove(t, g, root, ns, alter, p)
    requires b < |g| && Reachable(g, root, b) && (b == p || Levels.Level(g, b) > Levels.Level(g, p))
    requires a in shared && a < N_ATOMS
    ensures b != root ==> ns[b].entry[a] == ns[root].val[a]
    ensures b != p ==> ns[b].val[a] == ns[root].val[a]
    decreases |g| - Levels.Level(g, b)
  {
    Levels.LevelBound(g, b);
    if b != root {
      forall c: nat | Edge(g, c, b) && Reachable(g, root, c) ensures ns[c].val[a] == ns[root].val[a] {
        SharedAbove(t, g, root, ns, alter, shared, p, c, a);
      }
      assert AllLeave(g, root, ns, b, a, ns[root].val[a]);
    }
    if b != p {
      var t0 :| NumberedFrom(t0, t, g[b], ns[b], alter);
      UnwrittenNumbers(t0, ns[b].entry, g[b].stmts, alter);
    }
  }

  /** Everywhere below the root a shared atom has the number the root left. */
  lemma SharedNumber(t: Table, g: Graph, root: nat, ns: seq<Numbers>, alter: bool, shared: set<nat>, b: nat, a: nat)
    requires Acyclic(g) && SelfContained(g, root, shared) && Numbered(t, g, root, ns, alter)
    requires b < |g| && Reachable(g, root, b) && a in shared && a < N_ATOMS
    ensures b != root ==> ns[b].entry[a] == ns[root].val[a]
    ensures ns[b].val[a] == ns[root].val[a]
  {
    SharedAbove(t, g, root, ns, alter, shared, b, b, a);
    var t0 :| NumberedFrom(t0, t, g[b], ns[b], alter);
    UnwrittenNumbers(t0, ns[b].entry, g[b].stmts, alter);
  }

  /** The shared atoms hold what the root's numbers say. */
  ghost predicate SharedHolds(t: Table, ns: seq<Numbers>, root: nat, shared: set<nat>, r: Regs, p: Packet)
    requires WellFormed(t) && root < |ns|
  {
    forall a :: a in shared && a < N_ATOMS ==>
      ns[root].val[a] != 0 && Den(t, ns[root].val[a], p) == Some(r[a])
  }

  lemma {:induction false} LiveBeforeWritten(ss: seq<Stmt>, o: set<nat>, s: set<nat>)
    ensures LiveBefore(ss, o + s) <= LiveBefore(ss, o) + (s - Writes(ss))
  {
    if ss != [] {
      LiveBeforeWritten(ss[1..], o, s);
    }
  }

  /**
   Running a list whose inherited atoms hold their numbers: afterwards the atoms in out do.
   w is the entry numbering with everything that is not inherited forgotten.
   */
  lemma ListTellsTruth(t0: Table, t: Table, b: Block, n: Numbers, out: set<nat>, r: Regs, x: Regs, p: Packet)
    requires NumberedFrom(t0, t, b, n, false) && RunStmts(b.stmts, r, p) == Some(x)
    requires forall a :: a in LiveBefore(b.stmts, out) && a < N_ATOMS ==>
      n.entry[a] != 0 && Den(t, n.entry[a], p) == Some(r[a])
    ensures forall a :: a in out && a < N_ATOMS ==> n.val[a] != 0 && Den(t, n.val[a], p) == Some(x[a])
  {
    var w: Vals := seq(N_ATOMS, a requires 0 <= a < N_ATOMS => if a in LiveBefore(b.stmts, out) then n.entry[a] else 0);
    forall a | 0 <= a < N_ATOMS && w[a] != 0 ensures Den(t0, w[a], p) == Some(r[a]) {
      DenKept(t0, t, w[a], p);
    }
    PlainList(t0, n.entry, w, b.stmts, out);
    KnownList(t0, w, b.stmts, false, out);
    OptStmtsFaithful(t0, w, b.stmts, false, r, x, p);
    var l := OptStmts(t0, w, b.stmts, false);
    assert Operand(l.t, b, n.val).0 <= t && l.t <= t;
    forall a | a in out && a < N_ATOMS ensures n.val[a] != 0 && Den(t, n.val[a], p) == Some(x[a]) {
      assert l.val[a] == n.val[a];
      DenKept(l.t, t, l.val[a], p);
    }
  }

  /** A block entered with the shared atoms as the root left them ends with its numbers true where it matters. */
  lemma BlockTellsTruth(t: Table, g: Graph, root: nat, ns: seq<Numbers>, shared: set<nat>, b: nat, r: Regs,
          x: Regs, p: Packet)
    requires Acyclic(g) && SelfContained(g, root, shared) && Numbered(t, g, root, ns, false)
    requires b < |g| && Reachable(g, root, b) && RunStmts(g[b].stmts, r, p) == Some(x)
    requires b == root || SharedHolds(t, ns, root, shared, r, p)
    ensures SharedHolds(t, ns, root, shared, x, p)
    ensures forall a :: a in EndUses(g[b]) && a < N_ATOMS ==> ns[b].val[a] != 0 && Den(t, ns[b].val[a], p) == Some(x[a])
  {
    var t0 :| NumberedFrom(t0, t, g[b], ns[b], false);
    if b == root {
      LiveBeforeWritten(g[b].stmts, EndUses(g[b]), shared);
      ListTellsTruth(t0, t, g[b], ns[b], EndUses(g[b]) + shared, r, x, p);
    } else {
      forall a | a in Inherits(g[b]) && a < N_ATOMS
        ensures ns[b].entry[a] != 0 && Den(t, ns[b].entry[a], p) == Some(r[a])
      {
        SharedNumber(t, g, root, ns, false, shared, b, a);
      }
      ListTellsTruth(t0, t, g[b], ns[b], EndUses(g[b]), r, x, p);
      WritesOnly(g[b].stmts, r, p);
    }
  }

  // ----- the outcome of a block's test -----

  function OpOf(t: Test): JmpOp {
    t.op
  }

  /** What the numbers say the test of block b comes out as on packet p. */
  ghost function Outcome(t: Table, g: Graph, ns: seq<Numbers>, b: nat, p: Packet): Option<bool>
    requires WellFormed(t) && b < |g| && b < |ns| && g[b].Br?
  {
    var a, o := Den(t, ns[b].val[A_ATOM], p), Den(t, ns[b].oval, p);
    if a.None? || o.None? then None else Some(Compare(OpOf(g[b].test), a.value, o.value))
  }

  /** It comes out that way on every run that gets there, whatever the registers were. */
  lemma OutcomeIsTaken(t: Table, g: Graph, root: nat, ns: seq<Numbers>, shared: set<nat>, b: nat, r: Regs, x: Regs,
          p: Packet)
    requires Acyclic(g) && SelfContained(g, root, shared) && Numbered(t, g, root, ns, false)
    requires b < |g| && Reachable(g, root, b) && g[b].Br? && RunStmts(g[b].stmts, r, p) == Some(x)
    requires b == root || SharedHolds(t, ns, root, shared, r, p)
    ensures SharedHolds(t, ns, root, shared, x, p)
    ensures Outcome(t, g, ns, b, p) == Some(Taken(g[b].test, x))
    ensures ns[b].val[A_ATOM] != 0 && ns[b].oval != 0
  {
    BlockTellsTruth(t, g, root, ns, shared, b, r, x, p);
    assert A_ATOM in EndUses(g[b]);
    match g[b].test
    case JmpX(_) =>
      assert X_ATOM in EndUses(g[b]);
    case JmpK(_, k) =>
      ConstantOperand(t, g[b], ns[b]);
      ConstDen(t, ns[b].oval, p);
  }

  /** The number of a constant branch operand is the number of that constant. */
  lemma ConstantOperand(t: Table, b: Block, n: Numbers)
    requires WellFormed(t) && NumberedBlock(t, b, n, false) && b.Br? && b.test.JmpK?
    ensures ConstOf(t, n.oval) == Some(b.test.k)
  {
    var t0 :| NumberedFrom(t0, t, b, n, false);
    var l := OptStmts(t0, n.entry, b.stmts, false);
    var (t1, v) := Intern(l.t, KImm(b.test.k));
    assert t[v - 1] == t1[v - 1];
  }

  /** A constant has one number: two that stand for the same constant are the same. */
  lemma ConstantsDistinct(t: Table, v: nat, w: nat)
    requires WellFormed(t) && ConstOf(t, v).Some? && ConstOf(t, v) == ConstOf(t, w)
    ensures v == w
  {
    assert t[v - 1] == t[w - 1];
  }
}
