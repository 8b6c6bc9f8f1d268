/**
 or_pullup and and_pullup themselves: the search along the chain and the splice. They are run
 with dominators and predecessor lists of the current graph; whatever the numbers of A are,
 the result is sound.
 */
module PullupPass {
  import opened Machine
  import opened FlowGraph
  import opened Levels
  import opened Dominators
  import opened EdgeDominators
  import opened BlockNumbering
  import opened NumberingPass
  import opened Pullup

  // ----- the search -----

  /** c is another test of the chain that starts at b. */
  predicate Stays(g: Graph, dom: seq<set<nat>>, side: bool, b: nat, c: nat)
    requires |dom| == |g| && b < |g| && c < |g| && g[b].Br?
  {
    g[c].Br? && Share(g[c], side) == Share(g[b], side) && b in dom[c]
  }

  ghost predicate Searchable(g: Graph, root: nat, dom: seq<set<nat>>, side: bool, ch: seq<nat>) {
    && Acyclic(g) && root < |g| && DomExact(g, root, dom)
    && ch != [] && (forall i :: 0 <= i < |ch| ==> ch[i] < |g|) && g[ch[0]].Br? && Reachable(g, root, ch[0])
    && Reachable(g, root, ch[|ch| - 1])
  }

  lemma SearchOn(g: Graph, root: nat, dom: seq<set<nat>>, side: bool, ch: seq<nat>)
    requires Searchable(g, root, dom, side, ch) && Stays(g, dom, side, ch[0], ch[|ch| - 1])
    ensures Next(g[ch[|ch| - 1]], side) < |g| && Level(g, Next(g[ch[|ch| - 1]], side)) < Level(g, ch[|ch| - 1])
    ensures Searchable(g, root, dom, side, ch + [Next(g[ch[|ch| - 1]], side)])
  {
    NextReachable(g, root, ch[|ch| - 1], Next(g[ch[|ch| - 1]], side));
  }

  /**
   Follows the chain ch on, as long as its tests stay on the chain of its first block, to the
   first one whose value in A is val, when same is set, or is not, when it is clear.
   */
  ghost function Find(g: Graph, root: nat, dom: seq<set<nat>>, aval: seq<nat>, side: bool, same: bool, val: nat,
          ch: seq<nat>): (r: Option<seq<nat>>)
    requires Searchable(g, root, dom, side, ch) && |aval| == |g|
    decreases Level(g, ch[|ch| - 1])
  {
    var c := ch[|ch| - 1];
    if !Stays(g, dom, side, ch[0], c) then None
    else if (aval[c] == val) == same then Some(ch)
    else
      SearchOn(g, root, dom, side, ch);
      Find(g, root, dom, aval, side, same, val, ch + [Next(g[c], side)])
  }

  /** ch is a chain but for its last block, which is only known to come next. */
  ghost predicate Candidate(g: Graph, root: nat, side: bool, ch: seq<nat>) {
    && ch != [] && ch[0] < |g| && g[ch[0]].Br?
    && (|ch| > 1 ==> Chain(g, root, side, ch[..|ch| - 1]) && ch[|ch| - 1] == Next(g[ch[|ch| - 2]], side))
  }

  lemma Promoted(g: Graph, root: nat, dom: seq<set<nat>>, side: bool, ch: seq<nat>)
    requires Searchable(g, root, dom, side, ch) && Candidate(g, root, side, ch)
    requires Stays(g, dom, side, ch[0], ch[|ch| - 1])
    ensures Chain(g, root, side, ch)
    ensures Candidate(g, root, side, ch + [Next(g[ch[|ch| - 1]], side)])
  {
    var c := ch[|ch| - 1];
    assert OnChain(g, root, side, ch[0], c);
    if |ch| == 1 {
      ChainStart(g, root, side, ch[0]);
      assert ch == [ch[0]];
    } else {
      var front := ch[..|ch| - 1];
      assert OnChain(g, root, side, front[0], front[|front| - 1]);
      ChainMore(g, root, side, front, c);
      assert front + [c] == ch;
    }
    assert (ch + [Next(g[c], side)])[..|ch|] == ch;
  }

  lemma {:induction false} FindFinds(g: Graph, root: nat, dom: seq<set<nat>>, aval: seq<nat>, side: bool,
          same: bool, val: nat, ch: seq<nat>)
    requires Searchable(g, root, dom, side, ch) && |aval| == |g| && Candidate(g, root, side, ch)
    ensures var r := Find(g, root, dom, aval, side, same, val, ch);
      r.Some? ==>
        && Chain(g, root, side, r.value) && r.value != [] && |ch| <= |r.value| && r.value[..|ch|] == ch
        && Searchable(g, root, dom, side, r.value) && |dom| == |g|
        && r.value[0] < |g| && g[r.value[0]].Br? && r.value[|r.value| - 1] < |g|
        && Stays(g, dom, side, r.value[0], r.value[|r.value| - 1])
        && (aval[r.value[|r.value| - 1]] == val) == same
    decreases Level(g, ch[|ch| - 1])
  {
    var c := ch[|ch| - 1];
    if Stays(g, dom, side, ch[0], c) {
      Promoted(g, root, dom, side, ch);
      if (aval[c] == val) != same {
        SearchOn(g, root, dom, side, ch);
        FindFinds(g, root, dom, aval, side, same, val, ch + [Next(g[c], side)]);
      }
    }
  }

  /** What the search comes to: the chain up to the test to pull, and the place to put it. */
  ghost function Search(g: Graph, root: nat, dom: seq<set<nat>>, aval: seq<nat>, side: bool, val: nat,
          b: nat): (r: Option<(seq<nat>, nat)>)
    requires Acyclic(g) && root < |g| && DomExact(g, root, dom) && |aval| == |g|
    requires b < |g| && g[b].Br? && Reachable(g, root, b)
  {
    FindFinds(g, root, dom, aval, side, false, val, [b]);
    var up := Find(g, root, dom, aval, side, false, val, [b]);
    if up.None? then None
    else
      SearchOn(g, root, dom, side, up.value);
      var all := Find(g, root, dom, aval, side, true, val, up.value + [Next(g[up.value[|up.value| - 1]], side)]);
      if all.None? then None else Some((all.value, |up.value| - 1))
  }

  lemma SearchFinds(g: Graph, root: nat, dom: seq<set<nat>>, aval: seq<nat>, side: bool, val: nat, b: nat)
    requires Acyclic(g) && root < |g| && DomExact(g, root, dom) && |aval| == |g|
    requires b < |g| && g[b].Br? && Reachable(g, root, b)
    ensures var r := Search(g, root, dom, aval, side, val, b);
      r.Some? ==> CanPull(g, root, side, r.value.0, r.value.1) && r.value.0[0] == b
  {
    hide *;
    SearchStart(g, root, dom, side, b);
    FindFinds(g, root, dom, aval, side, false, val, [b]);
    var up := Find(g, root, dom, aval, side, false, val, [b]);
    if up.None? {
      SearchEnds(g, root, dom, aval, side, val, b);
    } else {
      AfterFirst(g, root, dom, side, up.value);
      SearchTurns(g, root, dom, aval, side, val, b, up.value);
      var more := up.value + [Next(g[up.value[|up.value| - 1]], side)];
      FindFinds(g, root, dom, aval, side, true, val, more);
      var all := Find(g, root, dom, aval, side, true, val, more);
      if all.Some? {
        FirstSame(up.value, [b]);
        FirstSame(all.value, more);
        PullableIs(g, root, side, all.value, |up.value| - 1);
      }
    }
  }

  lemma FirstSame(s: seq<nat>, t: seq<nat>)
    requires t != [] && |t| <= |s| && s[..|t|] == t
    ensures s[0] == t[0]
  {
  }

  lemma PullableIs(g: Graph, root: nat, side: bool, ch: seq<nat>, k: nat)
    requires Acyclic(g) && root < |g| && Chain(g, root, side, ch) && k < |ch| - 1
    ensures CanPull(g, root, side, ch, k)
  {
  }

  /** The chain found by the first search, and the block after it, for the second to start from. */
  lemma AfterFirst(g: Graph, root: nat, dom: seq<set<nat>>, side: bool, ch: seq<nat>)
    requires Searchable(g, root, dom, side, ch) && Chain(g, root, side, ch) && |dom| == |g| && ch != []
    requires ch[0] < |g| && g[ch[0]].Br?
    requires ch[|ch| - 1] < |g| && Stays(g, dom, side, ch[0], ch[|ch| - 1])
    ensures g[ch[|ch| - 1]].Br? && Next(g[ch[|ch| - 1]], side) < |g|
    ensures Searchable(g, root, dom, side, ch + [Next(g[ch[|ch| - 1]], side)])
    ensures Candidate(g, root, side, ch + [Next(g[ch[|ch| - 1]], side)])
  {
    SearchOn(g, root, dom, side, ch);
    var more := ch + [Next(g[ch[|ch| - 1]], side)];
    assert more[..|more| - 1] == ch;
  }

  // ----- one call -----

  ghost predicate AllLoad(g: Graph, aval: seq<nat>, es: seq<nat>, val: nat)
    requires |aval| == |g|
  {
    forall i :: 0 <= i < |es| ==> es[i] < 2 * |g| && aval[Pred(g, es[i])] == val
  }

  /** What a call is to find: nothing unless all predecessors of b load the same value into A. */
  ghost function Target(g: Graph, root: nat, dom: seq<set<nat>>, aval: seq<nat>, ins: seq<seq<nat>>, side: bool,
          b: nat): Option<(seq<nat>, nat)>
    requires Acyclic(g) && root < |g| && DomExact(g, root, dom) && |aval| == |g| && Inedges(g, root, ins)
    requires b < |g| && g[b].Br?
  {
    if ins[b] == [] then None
    else
      FromReachable(g, root, ins, b, 0);
      var val := aval[Pred(g, ins[b][0])];
      if !AllLoad(g, aval, ins[b], val) then None else Search(g, root, dom, aval, side, val, b)
  }

  ghost function AfterPullup(g: Graph, root: nat, dom: seq<set<nat>>, aval: seq<nat>, ins: seq<seq<nat>>,
          side: bool, b: nat): Graph
    requires Acyclic(g) && root < |g| && DomExact(g, root, dom) && |aval| == |g| && Inedges(g, root, ins)
    requires b < |g| && g[b].Br?
  {
    var r := Target(g, root, dom, aval, ins, side, b);
    if r.None? then g
    else
      TargetFinds(g, root, dom, aval, ins, side, b);
      PulledChain(g, root, side, r.value.0, r.value.1)
  }

  lemma FromReachable(g: Graph, root: nat, ins: seq<seq<nat>>, b: nat, i: nat)
    requires Acyclic(g) && root < |g| && Inedges(g, root, ins) && b < |g| && i < |ins[b]|
    ensures RealEdge(g, ins[b][i]) && Succ(g, ins[b][i]) == b && Pred(g, ins[b][i]) < |g|
    ensures Reachable(g, root, Pred(g, ins[b][i]))
    ensures Reachable(g, root, b) && b != root
  {
    var e := ins[b][i];
    assert e in ins[b] && Into(g, e, b);
    NextReachable(g, root, Pred(g, e), b);
  }

  lemma TargetFinds(g: Graph, root: nat, dom: seq<set<nat>>, aval: seq<nat>, ins: seq<seq<nat>>, side: bool, b: nat)
    requires Acyclic(g) && root < |g| && DomExact(g, root, dom) && |aval| == |g| && Inedges(g, root, ins)
    requires b < |g| && g[b].Br?
    ensures var r := Target(g, root, dom, aval, ins, side, b);
      r.Some? ==> CanPull(g, root, side, r.value.0, r.value.1) && r.value.0[0] == b && b != root
  {
    if ins[b] != [] {
      FromReachable(g, root, ins, b, 0);
      SearchFinds(g, root, dom, aval, side, aval[Pred(g, ins[b][0])], b);
    }
  }

  // ----- what is pulled, in terms of exits, dominance and numbers -----

  /** Block c branches, has an exit of block b as its own on this side, and is reached through b only. */
  ghost predicate InLine(g: Graph, root: nat, side: bool, b: nat, c: nat) {
    && b < |g| && c < |g| && g[b].Br? && g[c].Br? && Dominates(g, root, b, c)
    && if side then g[c].jt == g[b].jt else g[c].jf == g[b].jf
  }

  /** Block c is where block a leads on the other side. */
  predicate Follows(g: Graph, side: bool, a: nat, c: nat) {
    a < |g| && g[a].Br? && c == if side then g[a].jf else g[a].jt
  }

  /** From every reachable block with an edge into b, A leaves with the number val. */
  ghost predicate AllLeave(g: Graph, root: nat, aval: seq<nat>, b: nat, val: nat) {
    forall q: nat :: q < |aval| && Reachable(g, root, q) && Edge(g, q, b) ==> aval[q] == val
  }

  /**
   Where a pull is due: ch follows the chain that starts at b. The predecessors of b all leave the
   same number in A, and so do the tests before ch[k]; ch[k] is the first that leaves another one,
   and the last test of ch is the first after it that leaves that number again.
   */
  ghost predicate PullSite(g: Graph, root: nat, aval: seq<nat>, side: bool, b: nat, ch: seq<nat>, k: nat) {
    && Reachable(g, root, b) && b != root && k + 1 < |ch| && ch[0] == b
    && (forall i :: 0 <= i < |ch| ==> InLine(g, root, side, b, ch[i]))
    && (forall i :: 0 <= i < |ch| - 1 ==> Follows(g, side, ch[i], ch[i + 1]))
    && exists val :: AllLeave(g, root, aval, b, val)
                     && forall i :: 0 <= i < |ch| && ch[i] < |aval| ==>
                          (aval[ch[i]] == val <==> i < k || i == |ch| - 1)
  }

  /** r goes on from the end of ch along the chain of b, to the first test with, or without, number val. */
  ghost predicate Stretch(g: Graph, root: nat, aval: seq<nat>, side: bool, same: bool, val: nat, b: nat,
                          ch: seq<nat>, r: seq<nat>) {
    && 0 < |ch| <= |r| && r[..|ch|] == ch
    && (forall i :: |ch| - 1 <= i < |r| ==> InLine(g, root, side, b, r[i]))
    && (forall i :: |ch| - 1 <= i < |r| - 1 ==> Follows(g, side, r[i], r[i + 1]))
    && forall i :: |ch| - 1 <= i < |r| && r[i] < |aval| ==> ((aval[r[i]] == val) == same <==> i == |r| - 1)
  }

  /** The two stretches that make up ch: up to ch[k], and from the test after it on. */
  ghost predicate Stretches(g: Graph, root: nat, aval: seq<nat>, side: bool, val: nat, b: nat, ch: seq<nat>, k: nat) {
    && k + 1 < |ch| && Follows(g, side, ch[k], ch[k + 1])
    && Stretch(g, root, aval, side, false, val, b, [b], ch[..k + 1])
    && Stretch(g, root, aval, side, true, val, b, ch[..k + 2], ch)
  }

  lemma StaysExactly(g: Graph, root: nat, dom: seq<set<nat>>, side: bool, b: nat, c: nat)
    requires DomExact(g, root, dom) && b < |g| && c < |g| && g[b].Br? && Reachable(g, root, c)
    ensures |dom| == |g| && (Stays(g, dom, side, b, c) <==> InLine(g, root, side, b, c))
  {
  }

  lemma {:induction false} FindExact(g: Graph, root: nat, dom: seq<set<nat>>, aval: seq<nat>, side: bool,
                                     same: bool, val: nat, ch: seq<nat>, r: seq<nat>)
    requires Searchable(g, root, dom, side, ch) && |aval| == |g|
    ensures Find(g, root, dom, aval, side, same, val, ch) == Some(r) <==>
            Stretch(g, root, aval, side, same, val, ch[0], ch, r)
    decreases Level(g, ch[|ch| - 1])
  {
    var n := |ch| - 1;
    var b, c := ch[0], ch[n];
    StaysExactly(g, root, dom, side, b, c);
    if Stays(g, dom, side, b, c) {
      if (aval[c] == val) == same {
        if Stretch(g, root, aval, side, same, val, b, ch, r) {
          assert r[n] == c && r == ch;
        }
      } else {
        SearchOn(g, root, dom, side, ch);
        var more := ch + [Next(g[c], side)];
        FindExact(g, root, dom, aval, side, same, val, more, r);
        if Stretch(g, root, aval, side, same, val, b, ch, r) {
          assert r[n] == c && |r| > |ch| && Follows(g, side, r[n], r[n + 1]);
          assert r[..|more|] == more;
        }
        if Stretch(g, root, aval, side, same, val, b, more, r) {
          StretchBack(g, root, aval, side, same, val, b, ch, r);
        }
      }
    }
  }

  lemma StretchBack(g: Graph, root: nat, aval: seq<nat>, side: bool, same: bool, val: nat, b: nat,
                    ch: seq<nat>, r: seq<nat>)
    requires |ch| > 0 && |r| > |ch| && InLine(g, root, side, b, ch[|ch| - 1]) && |aval| == |g|
    requires (aval[ch[|ch| - 1]] == val) != same
    requires Stretch(g, root, aval, side, same, val, b, ch + [Next(g[ch[|ch| - 1]], side)], r)
    ensures Stretch(g, root, aval, side, same, val, b, ch, r)
  {
    var more := ch + [Next(g[ch[|ch| - 1]], side)];
    assert more[..|ch|] == ch && r[..|ch|] == r[..|more|][..|ch|];
    assert r[|ch| - 1] == ch[|ch| - 1] && r[|ch|] == more[|ch|];
  }

  /** The two searches find ch and k just when ch is the chain they describe. */
  lemma SearchExact(g: Graph, root: nat, dom: seq<set<nat>>, aval: seq<nat>, side: bool, val: nat, b: nat,
                    ch: seq<nat>, k: nat)
    requires Acyclic(g) && root < |g| && DomExact(g, root, dom) && |aval| == |g|
    requires b < |g| && g[b].Br? && Reachable(g, root, b)
    ensures Search(g, root, dom, aval, side, val, b) == Some((ch, k)) <==>
            Stretches(g, root, aval, side, val, b, ch, k)
  {
    hide *;
    SearchStart(g, root, dom, side, b);
    FindFinds(g, root, dom, aval, side, false, val, [b]);
    var up := Find(g, root, dom, aval, side, false, val, [b]);
    if up.None? {
      SearchEnds(g, root, dom, aval, side, val, b);
      if Stretches(g, root, aval, side, val, b, ch, k) {
        StretchesParts(g, root, aval, side, val, b, ch, k);
        FindExact(g, root, dom, aval, side, false, val, [b], ch[..k + 1]);
      }
    } else {
      var first := up.value;
      AfterFirst(g, root, dom, side, first);
      SearchTurns(g, root, dom, aval, side, val, b, first);
      FirstSame(first, [b]);
      FindExact(g, root, dom, aval, side, false, val, [b], first);
      var more := first + [Next(g[first[|first| - 1]], side)];
      SecondExact(g, root, dom, aval, side, val, b, first, more, ch, k);
    }
  }

  lemma SecondExact(g: Graph, root: nat, dom: seq<set<nat>>, aval: seq<nat>, side: bool, val: nat, b: nat,
                    first: seq<nat>, more: seq<nat>, ch: seq<nat>, k: nat)
    requires |first| > 0 && first[0] == b && first[|first| - 1] < |g| && g[first[|first| - 1]].Br? && |aval| == |g|
    requires more == first + [Next(g[first[|first| - 1]], side)] && Searchable(g, root, dom, side, more)
    requires Searchable(g, root, dom, side, [b]) && Acyclic(g) && root < |g| && DomExact(g, root, dom)
    requires b < |g| && g[b].Br? && Reachable(g, root, b)
    requires Find(g, root, dom, aval, side, false, val, [b]) == Some(first)
    requires Search(g, root, dom, aval, side, val, b) ==
             var all := Find(g, root, dom, aval, side, true, val, more);
             if all.None? then None else Some((all.value, |first| - 1))
    ensures Search(g, root, dom, aval, side, val, b) == Some((ch, k)) <==>
            Stretches(g, root, aval, side, val, b, ch, k)
  {
    hide Find, Search, Searchable, Stretch;
    FindExact(g, root, dom, aval, side, false, val, [b], first);
    FindExact(g, root, dom, aval, side, true, val, more, ch);
    if Search(g, root, dom, aval, side, val, b) == Some((ch, k)) {
      StretchParts(g, root, aval, side, true, val, b, more, ch);
      assert ch[..k + 2] == more && ch[..k + 1] == ch[..k + 2][..k + 1] == first;
    }
    if Stretches(g, root, aval, side, val, b, ch, k) {
      FindExact(g, root, dom, aval, side, false, val, [b], ch[..k + 1]);
      assert ch[..k + 1] == first;
      assert ch[..k + 2] == first + [ch[k + 1]];
      assert ch[k] == first[|first| - 1];
    }
  }

  lemma StretchesParts(g: Graph, root: nat, aval: seq<nat>, side: bool, val: nat, b: nat, ch: seq<nat>, k: nat)
    requires Stretches(g, root, aval, side, val, b, ch, k)
    ensures k + 1 < |ch| && Stretch(g, root, aval, side, false, val, b, [b], ch[..k + 1])
  {
  }

  /** The chain cut in two at the place of the pull, and put together again. */
  lemma StretchesAre(g: Graph, root: nat, aval: seq<nat>, side: bool, val: nat, b: nat, ch: seq<nat>, k: nat)
    requires |aval| == |g|
    ensures Stretches(g, root, aval, side, val, b, ch, k) <==>
            && k + 1 < |ch| && ch[0] == b
            && (forall i :: 0 <= i < |ch| ==> InLine(g, root, side, b, ch[i]))
            && (forall i :: 0 <= i < |ch| - 1 ==> Follows(g, side, ch[i], ch[i + 1]))
            && forall i :: 0 <= i < |ch| && ch[i] < |aval| ==> (aval[ch[i]] == val <==> i < k || i == |ch| - 1)
  {
    if k + 1 < |ch| {
      var first, front := ch[..k + 1], ch[..k + 2];
      if Stretches(g, root, aval, side, val, b, ch, k) {
        assert first[..1] == [b] && first[0] == b;
        forall i | 0 <= i < |ch| ensures InLine(g, root, side, b, ch[i]) {
          assert i <= k ==> InLine(g, root, side, b, first[i]);
        }
        forall i | 0 <= i < |ch| - 1 ensures Follows(g, side, ch[i], ch[i + 1]) {
          assert i < k ==> Follows(g, side, first[i], first[i + 1]);
        }
        forall i | 0 <= i < |ch| && ch[i] < |aval|
          ensures aval[ch[i]] == val <==> i < k || i == |ch| - 1
        {
          assert i <= k ==> first[i] == ch[i];
        }
      } else if ch[0] == b {
        assert first[..1] == [b];
      }
    }
  }

  /** What a call finds is the place where a pull is due, and it finds it whenever there is one. */
  lemma TargetExact(g: Graph, root: nat, dom: seq<set<nat>>, aval: seq<nat>, ins: seq<seq<nat>>, side: bool, b: nat,
                    ch: seq<nat>, k: nat)
    requires Acyclic(g) && root < |g| && DomExact(g, root, dom) && |aval| == |g| && Inedges(g, root, ins)
    requires b < |g| && g[b].Br?
    ensures Target(g, root, dom, aval, ins, side, b) == Some((ch, k)) <==> PullSite(g, root, aval, side, b, ch, k)
  {
    hide *;
    InedgesFrom(g, root, ins, b);
    Nowhere(g, root, dom, aval, ins, side, b);
    if ins[b] == [] {
      NoSite(g, root, aval, side, b, ch, k);
    } else {
      var val := aval[Pred(g, ins[b][0])];
      AllLoadIs(g, root, aval, ins, b, val);
      SearchExact(g, root, dom, aval, side, val, b, ch, k);
      StretchesAre(g, root, aval, side, val, b, ch, k);
      SiteIs(g, root, aval, ins, side, b, ch, k, val);
    }
  }

  lemma InedgesFrom(g: Graph, root: nat, ins: seq<seq<nat>>, b: nat)
    requires Acyclic(g) && root < |g| && Inedges(g, root, ins) && b < |g|
    ensures |ins| == |g| && (ins[b] != [] <==> Reachable(g, root, b) && b != root)
    ensures ins[b] != [] ==> Pred(g, ins[b][0]) < |g|
  {
    if ins[b] != [] {
      FromReachable(g, root, ins, b, 0);
    }
    if Reachable(g, root, b) && b != root {
      var path :| PathTo(g, root, b, path);
      var q, before := path[|path| - 2], path[..|path| - 1];
      assert Edge(g, q, b) && PathTo(g, root, q, before);
      var e := if g[q].jt == b then q else |g| + q;
      assert Into(g, e, b) && e in ins[b];
    }
  }

  lemma NoSite(g: Graph, root: nat, aval: seq<nat>, side: bool, b: nat, ch: seq<nat>, k: nat)
    requires !(Reachable(g, root, b) && b != root)
    ensures !PullSite(g, root, aval, side, b, ch, k)
  {
  }

  lemma AllLoadIs(g: Graph, root: nat, aval: seq<nat>, ins: seq<seq<nat>>, b: nat, val: nat)
    requires Acyclic(g) && root < |g| && |aval| == |g| && Inedges(g, root, ins) && b < |g|
    ensures AllLoad(g, aval, ins[b], val) <==> AllLeave(g, root, aval, b, val)
  {
    if AllLoad(g, aval, ins[b], val) {
      forall q: nat | q < |aval| && Reachable(g, root, q) && Edge(g, q, b) ensures aval[q] == val {
        var e := if g[q].jt == b then q else |g| + q;
        assert Into(g, e, b) && e in ins[b];
      }
    }
    if AllLeave(g, root, aval, b, val) {
      forall i | 0 <= i < |ins[b]| ensures ins[b][i] < 2 * |g| && aval[Pred(g, ins[b][i])] == val {
        FromReachable(g, root, ins, b, i);
        assert Edge(g, Pred(g, ins[b][i]), b);
      }
    }
  }

  lemma SiteIs(g: Graph, root: nat, aval: seq<nat>, ins: seq<seq<nat>>, side: bool, b: nat, ch: seq<nat>, k: nat,
               val: nat)
    requires Acyclic(g) && root < |g| && |aval| == |g| && Inedges(g, root, ins) && b < |g| && |ins| == |g|
    requires ins[b] != [] && Reachable(g, root, b) && b != root && Pred(g, ins[b][0]) < |g|
    requires val == aval[Pred(g, ins[b][0])]
    ensures PullSite(g, root, aval, side, b, ch, k) <==>
            && AllLeave(g, root, aval, b, val)
            && k + 1 < |ch| && ch[0] == b
            && (forall i :: 0 <= i < |ch| ==> InLine(g, root, side, b, ch[i]))
            && (forall i :: 0 <= i < |ch| - 1 ==> Follows(g, side, ch[i], ch[i + 1]))
            && forall i :: 0 <= i < |ch| && ch[i] < |aval| ==> (aval[ch[i]] == val <==> i < k || i == |ch| - 1)
  {
    FromReachable(g, root, ins, b, 0);
    assert Edge(g, Pred(g, ins[b][0]), b);
  }

  lemma StretchParts(g: Graph, root: nat, aval: seq<nat>, side: bool, same: bool, val: nat, b: nat,
                     ch: seq<nat>, r: seq<nat>)
    requires Stretch(g, root, aval, side, same, val, b, ch, r)
    ensures 0 < |ch| <= |r| && r[..|ch|] == ch
  {
  }

  /** g' is g after a call that took test pulled.1 and put it in front of pulled.0, or did nothing. */
  ghost predicate PulledRight(g: Graph, g': Graph, root: nat, side: bool, pulled: Option<(nat, nat)>) {
    && Acyclic(g) && Acyclic(g') && root < |g| && SameBlocks(g, g')
    && (pulled.None? ==> g' == g)
    && (pulled.Some? ==>
          && pulled.value.0 < |g| && pulled.value.1 < |g|
          && g[pulled.value.1].Br? && Share(g[pulled.value.1], side) < |g|
          && (forall r, p :: PullOutcome(g, g', root, side, pulled.value.0, pulled.value.1, r, p))
          && (NeverFaults(g[pulled.value.1].stmts) ==> SameVerdicts(g, g', root)))
  }

  /** The place and the test of what a call is to find. */
  ghost function Moved(t: Option<(seq<nat>, nat)>): Option<(nat, nat)>
    requires t.Some? ==> t.value.1 < |t.value.0|
  {
    if t.None? then None else Some((t.value.0[t.value.1], t.value.0[|t.value.0| - 1]))
  }

  /**
   One call of or_pullup or and_pullup: the graph stays acyclic and its blocks self-contained, and
   every run that comes to an end comes to the same one just when the pulled test, if met, does not fault.
   */
  lemma PullupSound(g: Graph, root: nat, dom: seq<set<nat>>, aval: seq<nat>, ins: seq<seq<nat>>, side: bool,
          b: nat, shared: set<nat>)
    requires Acyclic(g) && root < |g| && DomExact(g, root, dom) && |aval| == |g| && Inedges(g, root, ins)
    requires b < |g| && g[b].Br? && SelfContained(g, root, shared)
    ensures var g', t := AfterPullup(g, root, dom, aval, ins, side, b), Target(g, root, dom, aval, ins, side, b);
      && (t.Some? ==> t.value.1 < |t.value.0| && t.value.0[0] == b)
      && PulledRight(g, g', root, side, Moved(t)) && SelfContained(g', root, shared)
  {
    TargetFinds(g, root, dom, aval, ins, side, b);
    var t := Target(g, root, dom, aval, ins, side, b);
    if t.Some? {
      var ch, k := t.value.0, t.value.1;
      PulledAll(g, root, side, ch, k, shared);
    }
  }

  lemma PulledAll(g: Graph, root: nat, side: bool, ch: seq<nat>, k: nat, shared: set<nat>)
    requires CanPull(g, root, side, ch, k) && ch[0] != root && SelfContained(g, root, shared)
    ensures PulledRight(g, PulledChain(g, root, side, ch, k), root, side, Some((ch[k], ch[|ch| - 1])))
    ensures SelfContained(PulledChain(g, root, side, ch, k), root, shared)
  {
    hide *;
    PullParts(g, root, side, ch, k);
    ChainAt(g, root, side, ch, k);
    ChainAt(g, root, side, ch, |ch| - 1);
    PulledAcyclic(g, root, side, ch, k);
    PulledSameBlocks(g, root, side, ch, k);
    PulledSelfContained(g, root, side, ch, k, shared);
    var g', d, s := PulledChain(g, root, side, ch, k), ch[k], ch[|ch| - 1];
    forall r, p ensures PullOutcome(g, g', root, side, d, s, r, p) {
      PullKeepsVerdict(g, root, side, ch, k, shared, r, p);
    }
    if NeverFaults(g[s].stmts) {
      PullKeepsVerdicts(g, root, side, ch, k, shared);
    }
    PulledRightIs(g, g', root, side, d, s);
  }

  lemma PulledRightIs(g: Graph, g': Graph, root: nat, side: bool, d: nat, s: nat)
    requires Acyclic(g) && Acyclic(g') && root < |g| && SameBlocks(g, g') && |g'| == |g| && d < |g| && s < |g|
    requires root < |g| && g[s].Br? && Share(g[s], side) < |g|
    requires forall r, p :: PullOutcome(g, g', root, side, d, s, r, p)
    requires NeverFaults(g[s].stmts) ==> root < |g| && SameVerdicts(g, g', root)
    ensures PulledRight(g, g', root, side, Some((d, s)))
  {
  }

  // ----- the splice -----

  /** Block x after the first j in-edges of b have been looked at, with s to take b's place. */
  ghost function HalfRedirected(g: Graph, es: seq<nat>, j: nat, b: nat, s: nat, x: nat): Block
    requires x < |g| && j <= |es|
  {
    match g[x]
    case Ret(_, _) => g[x]
    case Br(ss, t, jt, jf) =>
      var tSeen, fSeen, both := x in es[..j], |g| + x in es[..j], jt == b && jf == b;
      Br(ss, t,
         if jt == b && (tSeen || (both && fSeen)) then s else jt,
         if jf == b && fSeen && (both ==> tSeen) then s else jf)
  }

  /** Looking at one more edge moves one field: the true exit if it still leads to b. */
  lemma RedirectOne(g: Graph, es: seq<nat>, j: nat, b: nat, s: nat, x: nat)
    requires x < |g| && j < |es| && NoRepeats(es) && s != b && es[j] < 2 * |g|
    requires Into(g, es[j], b)
    ensures var was, now := HalfRedirected(g, es, j, b, s, x), HalfRedirected(g, es, j + 1, b, s, x);
      if x != Pred(g, es[j]) then now == was
      else was.Br? && now == if was.jt == b then Br(was.stmts, was.test, s, was.jf)
        else Br(was.stmts, was.test, was.jt, s)
  {
    assert es[..j + 1] == es[..j] + [es[j]];
    assert forall y :: y in es[..j + 1] <==> y in es[..j] || y == es[j];
    assert es[j] !in es[..j];
  }

  /** The two tests around the pulled one after their own edges are set. */
  ghost function Unhooked(g: Graph, root: nat, side: bool, ch: seq<nat>, k: nat): (r: Graph)
    requires CanPull(g, root, side, ch, k)
    ensures |r| == |g|
  {
    ChainAt(g, root, side, ch, |ch| - 1);
    ChainAt(g, root, side, ch, |ch| - 2);
    ChainFalls(g, root, side, ch, |ch| - 2, |ch| - 1);
    var q, s := ch[|ch| - 2], ch[|ch| - 1];
    g[q := WithNext(g[q], side, Next(g[s], side))][s := WithNext(g[s], side, ch[k])]
  }

  lemma UnhookedAt(g: Graph, root: nat, side: bool, ch: seq<nat>, k: nat, x: nat)
    requires CanPull(g, root, side, ch, k) && x < |g|
    ensures ch[|ch| - 1] < |g| && g[ch[|ch| - 1]].Br? && ch[|ch| - 2] < |g| && g[ch[|ch| - 2]].Br?
    ensures Unhooked(g, root, side, ch, k)[x] ==
            if x == ch[|ch| - 1] then WithNext(g[x], side, ch[k])
            else if x == ch[|ch| - 2] then WithNext(g[x], side, Next(g[ch[|ch| - 1]], side))
            else g[x]
  {
    ChainAt(g, root, side, ch, |ch| - 1);
    ChainAt(g, root, side, ch, |ch| - 2);
    ChainFalls(g, root, side, ch, |ch| - 2, |ch| - 1);
  }

  /** No edge leads from the end of the chain back to its start. */
  lemma EndNotBefore(g: Graph, root: nat, side: bool, ch: seq<nat>, i: nat, x: nat)
    requires CanPull(g, root, side, ch, i) && (x == ch[|ch| - 1] || x == ch[|ch| - 2])
    ensures !Edge(g, x, ch[i])
  {
    ChainAt(g, root, side, ch, i);
    ChainAt(g, root, side, ch, |ch| - 1);
    ChainFalls(g, root, side, ch, i, |ch| - 1);
    if i < |ch| - 2 {
      ChainFalls(g, root, side, ch, i, |ch| - 2);
    }
    assert Ranked(g, RankOf(g));
    if Edge(g, x, ch[i]) {
      assert false;
    }
  }

  /** At the top of the chain redirecting the listed edges is all that is left to do. */
  lemma SpliceTop(g: Graph, root: nat, side: bool, ch: seq<nat>, ins: seq<seq<nat>>, x: nat)
    requires CanPull(g, root, side, ch, 0) && Inedges(g, root, ins) && x < |g| && ch[0] < |g|
    ensures HalfRedirected(Unhooked(g, root, side, ch, 0), ins[ch[0]], |ins[ch[0]]|, ch[0], ch[|ch| - 1], x)
            == PulledChain(g, root, side, ch, 0)[x]
  {
    var b, es := ch[0], ins[ch[0]];
    assert es[..|es|] == es;
    assert x in es <==> Into(g, x, b) && Reachable(g, root, x);
    assert |g| + x in es <==> Into(g, |g| + x, b) && Reachable(g, root, x);
    UnhookedAt(g, root, side, ch, 0, x);
    PulledAt(g, root, side, ch, 0, x);
    if x == ch[|ch| - 1] || x == ch[|ch| - 2] {
      EndNotBefore(g, root, side, ch, 0, x);
    }
  }

  /** Inside the chain the test above is the only one whose edge has to move. */
  lemma SpliceInside(g: Graph, root: nat, side: bool, ch: seq<nat>, k: nat, x: nat)
    requires CanPull(g, root, side, ch, k) && k > 0 && x < |g|
    ensures ch[k - 1] < |g| && g[ch[k - 1]].Br? && Unhooked(g, root, side, ch, k)[ch[k - 1]] == g[ch[k - 1]]
    ensures PulledChain(g, root, side, ch, k)[x] ==
            if x == ch[k - 1] then WithNext(g[x], side, ch[|ch| - 1]) else Unhooked(g, root, side, ch, k)[x]
  {
    var a := ch[k - 1];
    ChainAt(g, root, side, ch, k - 1);
    ChainAt(g, root, side, ch, k);
    ChainFalls(g, root, side, ch, k - 1, |ch| - 1);
    ChainFalls(g, root, side, ch, k - 1, |ch| - 2);
    UnhookedAt(g, root, side, ch, k, a);
    UnhookedAt(g, root, side, ch, k, x);
    PulledAt(g, root, side, ch, k, x);
    if Reachable(g, root, x) && x != ch[|ch| - 1] && x != ch[|ch| - 2] {
      if Edge(g, x, ch[k]) {
        SinglePredecessor(g, root, side, ch, k, x);
      }
      assert Edge(g, a, ch[k]);
      SinglePredecessor(g, root, side, ch, k, a);
    }
  }

  /** What a call leaves: the pulled graph where a pull was due, and the same graph elsewhere. */
  ghost predicate PulledWhenDue(g: Graph, g': Graph, root: nat, aval: seq<nat>, side: bool, b: nat,
                                was: bool, done: bool) {
    && (forall ch, k :: PullSite(g, root, aval, side, b, ch, k) ==>
          CanPull(g, root, side, ch, k) && g' == PulledChain(g, root, side, ch, k) && !done)
    && ((forall ch, k :: !PullSite(g, root, aval, side, b, ch, k)) ==> g' == g && done == was)
  }

  lemma DueIs(g: Graph, root: nat, dom: seq<set<nat>>, aval: seq<nat>, ins: seq<seq<nat>>, side: bool, b: nat,
              was: bool)
    requires Acyclic(g) && root < |g| && DomExact(g, root, dom) && |aval| == |g| && Inedges(g, root, ins)
    requires b < |g| && g[b].Br?
    ensures PulledWhenDue(g, AfterPullup(g, root, dom, aval, ins, side, b), root, aval, side, b, was,
                          was && Target(g, root, dom, aval, ins, side, b).None?)
  {
    hide PullSite;
    var t := Target(g, root, dom, aval, ins, side, b);
    forall ch, k: nat | PullSite(g, root, aval, side, b, ch, k)
      ensures CanPull(g, root, side, ch, k)
      ensures AfterPullup(g, root, dom, aval, ins, side, b) == PulledChain(g, root, side, ch, k) && t.Some?
    {
      TargetExact(g, root, dom, aval, ins, side, b, ch, k);
      AfterIs(g, root, dom, aval, ins, side, b, ch, k);
    }
    if t.Some? {
      TargetExact(g, root, dom, aval, ins, side, b, t.value.0, t.value.1);
    }
  }

  class Puller {
    const root: nat
    const dom: seq<set<nat>>
    const aval: seq<nat>
    const ins: seq<seq<nat>>
    var g: Graph
    var done: bool

    constructor (g: Graph, root: nat, dom: seq<set<nat>>, aval: seq<nat>, ins: seq<seq<nat>>)
      ensures this.g == g && this.root == root && this.dom == dom && this.aval == aval && this.ins == ins && done
    {
      this.g, this.root, this.dom, this.aval, this.ins, done := g, root, dom, aval, ins, true;
    }

    ghost predicate Ready()
      reads this
    {
      Acyclic(g) && root < |g| && DomExact(g, root, dom) && |aval| == |g| && Inedges(g, root, ins)
    }

    method SetNext(side: bool, b: nat, c: nat)
      requires b < |g| && g[b].Br?
      modifies this`g
      ensures g == old(g)[b := WithNext(old(g)[b], side, c)]
    {
      g := g[b := WithNext(g[b], side, c)];
    }

    /** Every in-edge of b is made to point at s. */
    method RedirectAll(b: nat, s: nat)
      requires b < |g| && b < |ins| && s != b && NoRepeats(ins[b])
      requires forall i :: 0 <= i < |ins[b]| ==> Into(g, ins[b][i], b)
      modifies this`g
      ensures |g| == |old(g)|
      ensures forall x :: 0 <= x < |g| ==> g[x] == HalfRedirected(old(g), ins[b], |ins[b]|, b, s, x)
    {
      var es := ins[b];
      for j := 0 to |es|
        invariant |g| == |old(g)|
        invariant forall x :: 0 <= x < |g| ==> g[x] == HalfRedirected(old(g), es, j, b, s, x)
      {
        var q := Pred(g, es[j]);
        assert Into(old(g), es[j], b) && q == Pred(old(g), es[j]);
        forall x: nat | x < |g| {
          RedirectOne(old(g), es, j, b, s, x);
        }
        if g[q].jt == b {
          g := g[q := Br(g[q].stmts, g[q].test, s, g[q].jf)];
        } else {
          g := g[q := Br(g[q].stmts, g[q].test, g[q].jt, s)];
        }
      }
    }

    /** Whether all predecessors of b leave the number val in A. */
    method SameLoads(b: nat) returns (same: bool)
      requires Ready() && b < |g| && ins[b] != []
      ensures Pred(g, ins[b][0]) < |g| && (same <==> AllLoad(g, aval, ins[b], aval[Pred(g, ins[b][0])]))
    {
      var es := ins[b];
      FromReachable(g, root, ins, b, 0);
      var val := aval[Pred(g, es[0])];
      for j := 1 to |es|
        invariant AllLoad(g, aval, es[..j], val)
      {
        FromReachable(g, root, ins, b, j);
        if val != aval[Pred(g, es[j])] {
          return false;
        }
      }
      assert es[..|es|] == es;
      return true;
    }
  
    /** The splice: the last test of ch is put in front of ch[k]. */
    method Splice(side: bool, above: nat, diff: nat, prev: nat, same: nat, ghost ch: seq<nat>, ghost k: nat)
      requires Acyclic(g) && Inedges(g, root, ins) && |ins| == |g| && CanPull(g, root, side, ch, k) && k < |ch| - 1
      requires diff == ch[k] && prev == ch[|ch| - 2] && same == ch[|ch| - 1]
      requires if k == 0 then above == diff else above == ch[k - 1]
      modifies this
      ensures g == PulledChain(old(g), root, side, ch, k) && !done
    {
      hide *;
      ghost var g0 := g;
      PullEnds(g, root, side, ch, k);
      SetNext(side, prev, Next(g[same], side));
      SetNext(side, same, diff);
      if above == diff {
        StillInto(g0, root, side, ch, ins);
        RedirectAll(diff, same);
        forall x: nat | x < |g| ensures g[x] == PulledChain(g0, root, side, ch, k)[x] {
          SpliceTop(g0, root, side, ch, ins, x);
        }
      } else {
        SpliceInside(g0, root, side, ch, k, diff);
        SetNext(side, above, same);
        forall x: nat | x < |g| ensures g[x] == PulledChain(g0, root, side, ch, k)[x] {
          SpliceInside(g0, root, side, ch, k, x);
        }
      }
      assert g == PulledChain(g0, root, side, ch, k);
      done := false;
    }

    lemma ReadyParts()
      requires Ready()
      ensures Acyclic(g) && root < |g| && DomExact(g, root, dom) && |aval| == |g| && Inedges(g, root, ins)
      ensures |ins| == |g| == |dom|
    {
    }

    /** or_pullup when side is set, and_pullup when it is clear: a pull that is due is made, and no other. */
    method Pullup(side: bool, b: nat)
      requires Ready() && b < |g| && g[b].Br?
      modifies this
      ensures g == AfterPullup(old(g), root, dom, aval, ins, side, b)
      ensures done == (old(done) && Target(old(g), root, dom, aval, ins, side, b).None?)
      ensures PulledWhenDue(old(g), g, root, aval, side, b, old(done), done)
    {
      hide *;
      ReadyParts();
      DueIs(g, root, dom, aval, ins, side, b, done);
      Nowhere(g, root, dom, aval, ins, side, b);
      if ins[b] == [] {
        return;
      }
      var sameLoads := SameLoads(b);
      if !sameLoads {
        return;
      }
      var val := aval[Pred(g, ins[b][0])];
      SearchFinds(g, root, dom, aval, side, val, b);
      SearchStart(g, root, dom, side, b);
      // above is the test whose field leads to diff, or diff itself at the top of the chain
      var above: nat, diff: nat := b, b;
      ghost var ch: seq<nat> := [b];
      while true
        invariant g == old(g) && done == old(done) && diff < |g|
        invariant Searchable(g, root, dom, side, ch) && ch != [] && ch[0] == b && ch[|ch| - 1] == diff
        invariant Find(g, root, dom, aval, side, false, val, [b]) == Find(g, root, dom, aval, side, false, val, ch)
        invariant if |ch| == 1 then above == diff else above == ch[|ch| - 2]
        decreases Level(g, diff)
      {
        FindStep(g, root, dom, aval, side, false, val, ch);
        if !Stays(g, dom, side, b, diff) {
          SearchEnds(g, root, dom, aval, side, val, b);
          return;
        }
        SearchOn(g, root, dom, side, ch);
        if aval[diff] != val {
          break;
        }
        above, diff := diff, Next(g[diff], side);
        ch := ch + [diff];
      }
      SearchTurns(g, root, dom, aval, side, val, b, ch);
      ghost var k := |ch| - 1;
      var prev: nat, same: nat := diff, Next(g[diff], side);
      ch := ch + [same];
      ghost var start: seq<nat> := ch;
      while true
        invariant g == old(g) && done == old(done) && same < |g|
        invariant Searchable(g, root, dom, side, ch) && |ch| >= k + 2 && ch[0] == b && ch[|ch| - 1] == same
        invariant ch[|ch| - 2] == prev
        invariant ch[k] == diff && (if k == 0 then above == diff else above == ch[k - 1])
        invariant Find(g, root, dom, aval, side, true, val, start) == Find(g, root, dom, aval, side, true, val, ch)
        decreases Level(g, same)
      {
        FindStep(g, root, dom, aval, side, true, val, ch);
        if !Stays(g, dom, side, b, same) {
          return;
        }
        SearchOn(g, root, dom, side, ch);
        if aval[same] == val {
          break;
        }
        prev, same := same, Next(g[same], side);
        ch := ch + [same];
      }
      AfterIs(g, root, dom, aval, ins, side, b, ch, k);
      Splice(side, above, diff, prev, same, ch, k);
    }

    method OrPullup(b: nat)
      requires Ready() && b < |g| && g[b].Br?
      modifies this
      ensures g == AfterPullup(old(g), root, dom, aval, ins, true, b)
      ensures done == (old(done) && Target(old(g), root, dom, aval, ins, true, b).None?)
      ensures PulledWhenDue(old(g), g, root, aval, true, b, old(done), done)
    {
      Pullup(true, b);
    }

    method AndPullup(b: nat)
      requires Ready() && b < |g| && g[b].Br?
      modifies this
      ensures g == AfterPullup(old(g), root, dom, aval, ins, false, b)
      ensures done == (old(done) && Target(old(g), root, dom, aval, ins, false, b).None?)
      ensures PulledWhenDue(old(g), g, root, aval, false, b, old(done), done)
    {
      Pullup(false, b);
    }
  }

  lemma AfterIs(g: Graph, root: nat, dom: seq<set<nat>>, aval: seq<nat>, ins: seq<seq<nat>>, side: bool, b: nat,
          ch: seq<nat>, k: nat)
    requires Acyclic(g) && root < |g| && DomExact(g, root, dom) && |aval| == |g| && Inedges(g, root, ins)
    requires b < |g| && g[b].Br? && Target(g, root, dom, aval, ins, side, b) == Some((ch, k))
    ensures CanPull(g, root, side, ch, k)
    ensures AfterPullup(g, root, dom, aval, ins, side, b) == PulledChain(g, root, side, ch, k)
  {
    TargetFinds(g, root, dom, aval, ins, side, b);
  }

  /** The cases in which nothing is pulled, and the search otherwise. */
  lemma Nowhere(g: Graph, root: nat, dom: seq<set<nat>>, aval: seq<nat>, ins: seq<seq<nat>>, side: bool, b: nat)
    requires Acyclic(g) && root < |g| && DomExact(g, root, dom) && |aval| == |g| && Inedges(g, root, ins)
    requires b < |g| && g[b].Br?
    ensures var t := Target(g, root, dom, aval, ins, side, b);
      && (t.None? ==> AfterPullup(g, root, dom, aval, ins, side, b) == g)
      && (ins[b] == [] ==> t.None?)
      && (ins[b] != [] ==>
            && Pred(g, ins[b][0]) < |g| && Reachable(g, root, b)
            && var val := aval[Pred(g, ins[b][0])];
               t == if AllLoad(g, aval, ins[b], val) then Search(g, root, dom, aval, side, val, b) else None)
  {
    if ins[b] != [] {
      FromReachable(g, root, ins, b, 0);
    }
  }

  lemma SearchStart(g: Graph, root: nat, dom: seq<set<nat>>, side: bool, b: nat)
    requires Acyclic(g) && root < |g| && DomExact(g, root, dom) && b < |g| && g[b].Br? && Reachable(g, root, b)
    ensures Searchable(g, root, dom, side, [b]) && Candidate(g, root, side, [b])
  {
  }

  lemma FindStep(g: Graph, root: nat, dom: seq<set<nat>>, aval: seq<nat>, side: bool, same: bool, val: nat,
          ch: seq<nat>)
    requires Searchable(g, root, dom, side, ch) && |aval| == |g|
    ensures ch != [] && ch[0] < |g| && g[ch[0]].Br? && ch[|ch| - 1] < |g| && |dom| == |g|
    ensures var c, r := ch[|ch| - 1], Find(g, root, dom, aval, side, same, val, ch);
      && (!Stays(g, dom, side, ch[0], c) ==> r == None)
      && (Stays(g, dom, side, ch[0], c) ==>
            && g[c].Br? && Next(g[c], side) < |g|
            && ((aval[c] == val) == same ==> r == Some(ch))
            && ((aval[c] == val) != same ==>
                  && Searchable(g, root, dom, side, ch + [Next(g[c], side)])
                  && r == Find(g, root, dom, aval, side, same, val, ch + [Next(g[c], side)])))
  {
    if Stays(g, dom, side, ch[0], ch[|ch| - 1]) {
      SearchOn(g, root, dom, side, ch);
    }
  }

  lemma SearchEnds(g: Graph, root: nat, dom: seq<set<nat>>, aval: seq<nat>, side: bool, val: nat, b: nat)
    requires Acyclic(g) && root < |g| && DomExact(g, root, dom) && |aval| == |g|
    requires b < |g| && g[b].Br? && Reachable(g, root, b) && Searchable(g, root, dom, side, [b])
    requires Find(g, root, dom, aval, side, false, val, [b]) == None
    ensures Search(g, root, dom, aval, side, val, b) == None
  {
  }

  /** The first search is over; what the second one finds is the answer. */
  lemma SearchTurns(g: Graph, root: nat, dom: seq<set<nat>>, aval: seq<nat>, side: bool, val: nat, b: nat, ch: seq<nat>)
    requires Acyclic(g) && root < |g| && DomExact(g, root, dom) && |aval| == |g|
    requires b < |g| && g[b].Br? && Reachable(g, root, b) && Searchable(g, root, dom, side, [b])
    requires Find(g, root, dom, aval, side, false, val, [b]) == Some(ch)
    requires Searchable(g, root, dom, side, ch) && Stays(g, dom, side, ch[0], ch[|ch| - 1])
    ensures Next(g[ch[|ch| - 1]], side) < |g|
    ensures Searchable(g, root, dom, side, ch + [Next(g[ch[|ch| - 1]], side)])
    ensures Search(g, root, dom, aval, side, val, b) ==
      var all := Find(g, root, dom, aval, side, true, val, ch + [Next(g[ch[|ch| - 1]], side)]);
      if all.None? then None else Some((all.value, |ch| - 1))
  {
    SearchOn(g, root, dom, side, ch);
  }

  /** What the splice needs to know of the tests it touches. */
  lemma PullEnds(g: Graph, root: nat, side: bool, ch: seq<nat>, k: nat)
    requires CanPull(g, root, side, ch, k)
    ensures var d, q, s := ch[k], ch[|ch| - 2], ch[|ch| - 1];
      && d < |g| && q < |g| && s < |g| && g[q].Br? && g[s].Br? && q != s && d != s && Next(g[s], side) < |g|
      && Unhooked(g, root, side, ch, k) == g[q := WithNext(g[q], side, Next(g[s], side))][s := WithNext(g[s], side, d)]
    ensures |PulledChain(g, root, side, ch, k)| == |g|
    ensures k > 0 ==> ch[k - 1] != ch[k] && ch[k - 1] != ch[|ch| - 2] && ch[k - 1] != ch[|ch| - 1]
  {
    ChainAt(g, root, side, ch, k);
    ChainAt(g, root, side, ch, |ch| - 1);
    ChainAt(g, root, side, ch, |ch| - 2);
    ChainFalls(g, root, side, ch, |ch| - 2, |ch| - 1);
    ChainFalls(g, root, side, ch, k, |ch| - 1);
    if k > 0 {
      ChainFalls(g, root, side, ch, k - 1, k);
      ChainFalls(g, root, side, ch, k - 1, |ch| - 2);
      ChainFalls(g, root, side, ch, k - 1, |ch| - 1);
    }
  }

  /** Setting the edges at the end of the chain leaves the edges into its start alone. */
  lemma StillInto(g: Graph, root: nat, side: bool, ch: seq<nat>, ins: seq<seq<nat>>)
    requires CanPull(g, root, side, ch, 0) && Inedges(g, root, ins)
    ensures ch[0] < |g| && NoRepeats(ins[ch[0]])
    ensures forall i :: 0 <= i < |ins[ch[0]]| ==> Into(Unhooked(g, root, side, ch, 0), ins[ch[0]][i], ch[0])
  {
    ChainAt(g, root, side, ch, 0);
    var es := ins[ch[0]];
    forall i | 0 <= i < |es| ensures Into(Unhooked(g, root, side, ch, 0), es[i], ch[0]) {
      assert es[i] in es && Into(g, es[i], ch[0]);
      EndNotBefore(g, root, side, ch, 0, ch[|ch| - 1]);
      EndNotBefore(g, root, side, ch, 0, ch[|ch| - 2]);
      UnhookedAt(g, root, side, ch, 0, Pred(g, es[i]));
    }
  }
}
