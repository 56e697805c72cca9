/**
 * Reachability in the control-flow graph: every node of a function's graph can be reached
 * from its start node over the edges the function's transform adds. Each construct enters
 * its children from its control node, and a statement list is threaded from its first
 * returned id to its last.
 */
module CfgReach {
  import opened Wrappers
  import opened Ast
  import opened IR
  import opened CfgSpec
  import opened CfgProperties

  /** Some edge of `ws` leads from `x` to `y`. */
  ghost predicate Step(ws: seq<Wire>, x: NodeId, y: NodeId)
  {
    exists w :: w in ws && w.source == x && w.target == y
  }

  /** Each consecutive pair of `p` is joined by an edge of `ws`. */
  ghost predicate IsPath(ws: seq<Wire>, p: seq<NodeId>)
  {
    forall i :: 0 <= i < |p| - 1 ==> Step(ws, p[i], p[i + 1])
  }

  /** Some path over `ws` starts at `x` and ends at `y`. */
  ghost predicate Reaches(ws: seq<Wire>, x: NodeId, y: NodeId)
  {
    exists p :: IsPath(ws, p) && |p| >= 1 && p[0] == x && p[|p| - 1] == y
  }

  // ---------------------------------------------------------------------------------
  // Paths

  lemma ReachesRefl(ws: seq<Wire>, x: NodeId)
    ensures Reaches(ws, x, x)
  {
    assert IsPath(ws, [x]);
  }

  lemma ReachesEdge(ws: seq<Wire>, w: Wire)
    requires w in ws
    ensures Reaches(ws, w.source, w.target)
  {
    var p := [w.source, w.target];
    assert Step(ws, p[0], p[1]);
    assert IsPath(ws, p);
  }

  lemma ReachesTrans(ws: seq<Wire>, x: NodeId, y: NodeId, z: NodeId)
    requires Reaches(ws, x, y) && Reaches(ws, y, z)
    ensures Reaches(ws, x, z)
  {
    var p :| IsPath(ws, p) && |p| >= 1 && p[0] == x && p[|p| - 1] == y;
    var q :| IsPath(ws, q) && |q| >= 1 && q[0] == y && q[|q| - 1] == z;
    var r := p + q[1..];
    forall i | 0 <= i < |r| - 1
      ensures Step(ws, r[i], r[i + 1])
    {
      if i < |p| - 1 {
        assert r[i] == p[i] && r[i + 1] == p[i + 1];
      } else {
        assert r[i] == q[i - |p| + 1] && r[i + 1] == q[i - |p| + 2];
      }
    }
    assert IsPath(ws, r);
  }

  /** A path over some edges is a path over any sequence holding them all. */
  lemma ReachesWiden(ws: seq<Wire>, ws': seq<Wire>, x: NodeId, y: NodeId)
    requires Reaches(ws, x, y)
    requires forall w :: w in ws ==> w in ws'
    ensures Reaches(ws', x, y)
  {
    var p :| IsPath(ws, p) && |p| >= 1 && p[0] == x && p[|p| - 1] == y;
    forall i | 0 <= i < |p| - 1
      ensures Step(ws', p[i], p[i + 1])
    {
      assert Step(ws, p[i], p[i + 1]);
    }
    assert IsPath(ws', p);
  }

  /**
   * A list reachable from its first returned id `lo` over `inner` and its chain, threaded
   * from `from` to `to`, is reachable from `from`, and so is `to`.
   */
  lemma ThreadReach(ws: seq<Wire>, inner: seq<Wire>, from: NodeId, ids: seq<NodeId>, to: NodeId,
                    first: Option<string>, last: Option<string>, lo: nat, n: nat)
    requires ids != [] && ids[0] == lo && lo <= ids[|ids| - 1] < lo + n
    requires forall k :: lo <= k < lo + n ==> Reaches(inner + Chain(ids), lo, k)
    requires forall w :: w in inner ==> w in ws
    requires forall w :: w in Thread(from, ids, to, first, last) ==> w in ws
    ensures forall k :: lo <= k < lo + n ==> Reaches(ws, from, k)
    ensures Reaches(ws, from, to)
  {
    var thread := Thread(from, ids, to, first, last);
    assert thread[0] == Wire(from, lo, first);
    ReachesEdge(ws, thread[0]);
    forall k | lo <= k < lo + n
      ensures Reaches(ws, from, k)
    {
      ReachesWiden(inner + Chain(ids), ws, lo, k);
      ReachesTrans(ws, from, lo, k);
    }
    var l := ids[|ids| - 1];
    assert thread[|thread| - 1] == Wire(l, to, last);
    ReachesEdge(ws, thread[|thread| - 1]);
    ReachesTrans(ws, from, l, to);
  }

  // ---------------------------------------------------------------------------------
  // Every node reachable from the construct's first node

  /** Every id minted for `s` is reachable from its first id, `b`, over `s`'s own edges. */
  lemma {:induction false} StatementReach(s: AstNode, b: nat)
    ensures forall k :: b <= k < b + Size(s) ==> Reaches(WiresOf(s, b), b, k)
    decreases s, 1
  {
    if s.IfStatement? {
      IfReach(s, b);
    } else if s.IsLoop() {
      LoopReach(s, b);
    } else if s.FunctionDeclaration? {
      FunctionReach(s, b);
    } else {
      ReachesRefl(WiresOf(s, b), b);
    }
  }

  /**
   * Every id minted for a non-empty list is reachable from its first id over the list's
   * own edges plus the sequencing edges between the ids its statements return.
   */
  lemma {:induction false} ListReach(ss: seq<AstNode>, b: nat)
    requires ss != []
    ensures forall k :: b <= k < b + SizeList(ss) ==> Reaches(WiresOfList(ss, b) + Chain(ReturnIds(ss, b)), b, k)
    decreases ss, 2
  {
    var pre, last := ss[..|ss| - 1], ss[|ss| - 1];
    var mid := b + SizeList(pre);
    var pIds, ids := ReturnIds(pre, b), ReturnIds(ss, b);
    var ws := WiresOfList(ss, b) + Chain(ids);
    assert ids == pIds + [mid];
    assert WiresOfList(ss, b) == WiresOfList(pre, b) + WiresOf(last, mid);
    StatementReach(last, mid);
    if pre == [] {
      forall k | b <= k < b + SizeList(ss)
        ensures Reaches(ws, b, k)
      {
        ReachesWiden(WiresOf(last, mid), ws, b, k);
      }
    } else {
      ListReach(pre, b);
      ReturnIdsInRange(pre, b);
      var pl := pIds[|pIds| - 1];
      assert ids[..|ids| - 1] == pIds;
      assert Chain(ids) == Chain(pIds) + [Wire(pl, mid, None)];
      var inner := WiresOfList(pre, b) + Chain(pIds);
      forall k | b <= k < b + SizeList(ss)
        ensures Reaches(ws, b, k)
      {
        if k < mid {
          ReachesWiden(inner, ws, b, k);
        } else {
          assert pl in pIds;
          ReachesWiden(inner, ws, b, pl);
          ReachesEdge(ws, Wire(pl, mid, None));
          ReachesTrans(ws, b, pl, mid);
          ReachesWiden(WiresOf(last, mid), ws, mid, k);
          ReachesTrans(ws, b, mid, k);
        }
      }
    }
  }

  /**
   * A branch or function body linked from `from` to `to` is reachable from `from`, and so
   * is `to`, whether the list is empty or not.
   */
  lemma {:induction false} LinkReach(ws: seq<Wire>, from: NodeId, ss: seq<AstNode>, lo: nat,
                                     to: NodeId, first: Option<string>)
    requires forall w :: w in WiresOfList(ss, lo) ==> w in ws
    requires forall w :: w in Link(from, ReturnIds(ss, lo), to, first) ==> w in ws
    ensures forall k :: lo <= k < lo + SizeList(ss) ==> Reaches(ws, from, k)
    ensures Reaches(ws, from, to)
    decreases ss, 3
  {
    var ids := ReturnIds(ss, lo);
    ReturnIdsInRange(ss, lo);
    if ids == [] {
      assert Link(from, ids, to, first) == [Wire(from, to, first)];
      ReachesEdge(ws, Wire(from, to, first));
    } else {
      ListReach(ss, lo);
      assert ids[|ids| - 1] in ids;
      ThreadReach(ws, WiresOfList(ss, lo), from, ids, to, first, None, lo, SizeList(ss));
    }
  }

  /** An `if` reaches both branches and its merge node from its own node. */
  lemma {:induction false} IfReach(s: AstNode, b: nat)
    requires s.IfStatement?
    ensures forall k :: b <= k < b + Size(s) ==> Reaches(WiresOf(s, b), b, k)
    decreases s, 0
  {
    var eb := ElseStart(s, b);
    var eStmts := ElseStatements(s.elseBranch);
    var tIds, eIds := ReturnIds(s.thenBranch, b + 2), ReturnIds(eStmts, eb);
    var tWires, eWires := WiresOfList(s.thenBranch, b + 2), WiresOfList(eStmts, eb);
    var linkT, linkE := Link(b, tIds, b + 1, Some(TrueLabel)), Link(b, eIds, b + 1, Some(FalseLabel));
    var ws := IfWires(s, b);
    ElseFacts(s, b);
    assert ws == tWires + eWires + linkT + linkE;
    LinkReach(ws, b, s.thenBranch, b + 2, b + 1, Some(TrueLabel));
    if s.elseBranch.Present? {
      LinkReach(ws, b, s.elseBranch.stmts, eb, b + 1, Some(FalseLabel));
    }
    ReachesRefl(ws, b);
  }

  /** A loop reaches its body and its exit node from its own node. */
  lemma {:induction false} LoopReach(s: AstNode, b: nat)
    requires s.IsLoop()
    ensures forall k :: b <= k < b + Size(s) ==> Reaches(WiresOf(s, b), b, k)
    decreases s, 0
  {
    var ids, bodyWires := ReturnIds(s.body, b + 2), WiresOfList(s.body, b + 2);
    var exit := Wire(b, b + 1, Some(ExitLabel(s)));
    var ws := LoopWires(s, b);
    assert ws == bodyWires + LoopBack(s, b) + [exit];
    ReturnIdsInRange(s.body, b + 2);
    if ids != [] {
      ListReach(s.body, b + 2);
      assert ids[|ids| - 1] in ids;
      ThreadReach(ws, bodyWires, b, ids, b, Some(ContinueLabel(s)), Some(LoopBackLabel),
                  b + 2, SizeList(s.body));
    }
    ReachesEdge(ws, exit);
    ReachesRefl(ws, b);
  }

  /** A function reaches its body and its end node from its start node. */
  lemma {:induction false} FunctionReach(s: AstNode, b: nat)
    requires s.FunctionDeclaration?
    ensures forall k :: b <= k < b + Size(s) ==> Reaches(WiresOf(s, b), b, k)
    decreases s, 0
  {
    var ws := FunctionWires(s, b);
    LinkReach(ws, b, s.body, b + 2, b + 1, None);
    ReachesRefl(ws, b);
  }

  lemma {:induction false} IdCounted(ns: seq<IRNode>, n: IRNode)
    requires n in ns
    ensures IdCount(ns, n.id) >= 1
    decreases |ns|
  {
    if ns[|ns| - 1] != n {
      assert n in ns[..|ns| - 1];
      IdCounted(ns[..|ns| - 1], n);
    }
  }

  /**
   * Every node of a function's graph, its end node included, is reachable from its start
   * node over the edges the function's transform adds.
   */
  lemma FunctionNodesReachable(s: AstNode, b: nat)
    requires s.FunctionDeclaration?
    ensures forall n :: n in FunctionNodes(s, b) ==> Reaches(FunctionWires(s, b), b, n.id)
    ensures Reaches(FunctionWires(s, b), b, b + 1)
  {
    FunctionReach(s, b);
    assert WiresOf(s, b) == FunctionWires(s, b);
    forall n | n in FunctionNodes(s, b)
      ensures Reaches(FunctionWires(s, b), b, n.id)
    {
      IdCounted(FunctionNodes(s, b), n);
      FunctionIdCount(s, b, n.id);
      assert b <= n.id < b + Size(s);
    }
  }
}
