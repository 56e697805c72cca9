/**
 * What the control-flow-graph builder guarantees, proved about its reference semantics
 * (`CfgSpec`): identifiers, edge endpoints, merge/exit/end nodes as sinks, the exact edges
 * around every construct, and the node and edge counts.
 */
module CfgProperties {
  import opened Wrappers
  import opened Ast
  import opened IR
  import opened CfgSpec
  import opened SeqFacts

  // ---------------------------------------------------------------------------------
  // Identifiers

  lemma {:induction false} IdCountAppend(a: seq<IRNode>, c: seq<IRNode>, k: int)
    ensures IdCount(a + c, k) == IdCount(a, k) + IdCount(c, k)
    decreases |c|
  {
    if c == [] {
      assert a + c == a;
    } else {
      assert (a + c)[..|a + c| - 1] == a + c[..|c| - 1];
      IdCountAppend(a, c[..|c| - 1], k);
    }
  }

  lemma IdCountPair(x: IRNode, y: IRNode, k: int)
    ensures IdCount([x, y], k) == InRange(x.id, 1, k) + InRange(y.id, 1, k)
  {
    assert [x, y][..1] == [x];
    assert [x][..0] == [];
    assert IdCount([x], k) == InRange(x.id, 1, k);
  }

  /** The number of times `k` occurs among `lo .. lo + n - 1`. */
  function InRange(lo: int, n: int, k: int): nat
  {
    if lo <= k < lo + n then 1 else 0
  }

  /** A control construct's count: its children's identifiers, then its own two. */
  lemma ControlIdCount(children: seq<IRNode>, x: IRNode, y: IRNode, b: nat, n: nat, k: int)
    requires x.id == b && y.id == b + 1
    requires IdCount(children, k) == InRange(b + 2, n, k)
    ensures IdCount(children + [x, y], k) == InRange(b, n + 2, k)
  {
    IdCountAppend(children, [x, y], k);
    IdCountPair(x, y, k);
  }

  /**
   * Every identifier `b .. b + Size(s) - 1` is carried by exactly one of the nodes pushed for
   * `s`, and no other identifier by any: every identifier minted gets exactly one node.
   */
  lemma {:induction false} NodeIdsExact(s: AstNode, b: nat, k: int)
    ensures IdCount(NodesOf(s, b), k) == InRange(b, Size(s), k)
    decreases s, 1
  {
    if s.IfStatement? {
      IfIdCount(s, b, k);
    } else if s.IsLoop() {
      NodeIdsExactList(s.body, b + 2, k);
      ControlIdCount(NodesOfList(s.body, b + 2), ControlNode(s, b), JoinNode(s, b), b,
                     SizeList(s.body), k);
    } else if s.FunctionDeclaration? {
      FunctionIdCount(s, b, k);
    } else {
      assert [StatementNode(s, b)][..0] == [];
    }
  }

  lemma {:induction false} IfIdCount(s: AstNode, b: nat, k: int)
    requires s.IfStatement?
    ensures IdCount(IfNodes(s, b), k) == InRange(b, Size(s), k)
    decreases s, 0
  {
    var eb := ElseStart(s, b);
    var thenNodes := NodesOfList(s.thenBranch, b + 2);
    var elseNodes := BranchNodes(s.elseBranch, eb);
    NodeIdsExactList(s.thenBranch, b + 2, k);
    if s.elseBranch.Present? {
      NodeIdsExactList(s.elseBranch.stmts, eb, k);
    }
    assert IdCount(elseNodes, k) == InRange(eb, BranchSize(s.elseBranch), k);
    IdCountAppend(thenNodes, elseNodes, k);
    ControlIdCount(thenNodes + elseNodes, ControlNode(s, b), JoinNode(s, b), b, Size(s) - 2, k);
  }

  lemma {:induction false} FunctionIdCount(s: AstNode, b: nat, k: int)
    requires s.FunctionDeclaration?
    ensures IdCount(FunctionNodes(s, b), k) == InRange(b, Size(s), k)
    decreases s, 0
  {
    var start := [StartNode(b, StartLabel(s.name))];
    var end := [EndNode(b + 1, EndLabel(s.name))];
    var body := NodesOfList(s.body, b + 2);
    NodeIdsExactList(s.body, b + 2, k);
    IdCountAppend(start, body, k);
    IdCountAppend(start + body, end, k);
    assert start[..0] == [] && end[..0] == [];
    assert IdCount(start, k) == InRange(b, 1, k) && IdCount(end, k) == InRange(b + 1, 1, k);
  }

  lemma {:induction false} NodeIdsExactList(ss: seq<AstNode>, b: nat, k: int)
    ensures IdCount(NodesOfList(ss, b), k) == InRange(b, SizeList(ss), k)
    decreases ss, 2
  {
    if ss != [] {
      var pre, last := ss[..|ss| - 1], ss[|ss| - 1];
      var preNodes, lastNodes := NodesOfList(pre, b), NodesOf(last, b + SizeList(pre));
      NodeIdsExactList(pre, b, k);
      NodeIdsExact(last, b + SizeList(pre), k);
      IdCountAppend(preNodes, lastNodes, k);
    }
  }

  /** Transforming a statement list pushes one node per identifier it mints. */
  lemma {:induction false} NodeCount(s: AstNode, b: nat)
    ensures |NodesOf(s, b)| == Size(s)
    decreases s, 1
  {
    if s.IfStatement? {
      IfNodeCount(s, b);
    } else if s.IsLoop() || s.FunctionDeclaration? {
      NodeCountList(s.body, b + 2);
    }
  }

  lemma {:induction false} IfNodeCount(s: AstNode, b: nat)
    requires s.IfStatement?
    ensures |IfNodes(s, b)| == Size(s)
    decreases s, 0
  {
    NodeCountList(s.thenBranch, b + 2);
    if s.elseBranch.Present? {
      NodeCountList(s.elseBranch.stmts, ElseStart(s, b));
    }
  }

  lemma {:induction false} NodeCountList(ss: seq<AstNode>, b: nat)
    ensures |NodesOfList(ss, b)| == SizeList(ss)
    decreases ss, 2
  {
    if ss != [] {
      NodeCountList(ss[..|ss| - 1], b);
      NodeCount(ss[|ss| - 1], b + SizeList(ss[..|ss| - 1]));
    }
  }

  /**
   * Transforming a statement list from counter `b` pushes exactly `SizeList(ss)` nodes and
   * uses every identifier `b .. b + SizeList(ss) - 1` exactly once.
   */
  lemma EachIdOnce(ss: seq<AstNode>, b: nat)
    ensures |NodesOfList(ss, b)| == SizeList(ss)
    ensures forall k :: IdCount(NodesOfList(ss, b), k) == if b <= k < b + SizeList(ss) then 1 else 0
  {
    NodeCountList(ss, b);
    forall k
      ensures IdCount(NodesOfList(ss, b), k) == if b <= k < b + SizeList(ss) then 1 else 0
    {
      NodeIdsExactList(ss, b, k);
    }
  }

  // ---------------------------------------------------------------------------------
  // Returned identifiers and join nodes

  lemma SizePositive(s: AstNode)
    ensures Size(s) >= 1
  {
  }

  /**
   * The transforms of a list return one identifier per statement, the first one being the
   * counter the list started from, and every returned identifier is one the list minted.
   */
  lemma {:induction false} ReturnIdsInRange(ss: seq<AstNode>, b: nat)
    ensures |ReturnIds(ss, b)| == |ss|
    ensures forall r :: r in ReturnIds(ss, b) ==> b <= r < b + SizeList(ss)
    ensures ss != [] ==> ReturnIds(ss, b)[0] == b
    decreases ss
  {
    if ss != [] {
      var pre := ss[..|ss| - 1];
      ReturnIdsInRange(pre, b);
      SizePositive(ss[|ss| - 1]);
      if pre != [] {
        assert ReturnIds(ss, b)[0] == ReturnIds(pre, b)[0];
      }
    }
  }

  /** The join identifiers of `s` lie strictly after its first identifier, inside its range. */
  lemma {:induction false} JoinIdsInRange(s: AstNode, b: nat)
    ensures forall j :: j in JoinIds(s, b) ==> b + 1 <= j < b + Size(s)
    decreases s, 1
  {
    if s.IfStatement? {
      IfJoinIdsInRange(s, b);
    } else if s.IsLoop() || s.FunctionDeclaration? {
      JoinIdsInRangeList(s.body, b + 2);
    }
  }

  lemma {:induction false} IfJoinIdsInRange(s: AstNode, b: nat)
    requires s.IfStatement?
    ensures forall j :: j in JoinIds(s, b) ==> b + 1 <= j < b + Size(s)
    decreases s, 0
  {
    JoinIdsInRangeList(s.thenBranch, b + 2);
    ElseFacts(s, b);
  }

  /**
   * The join identifiers of a list lie inside the list's range, and none of them is an
   * identifier a transform of the list returned.
   */
  lemma {:induction false} JoinIdsInRangeList(ss: seq<AstNode>, b: nat)
    ensures forall j :: j in JoinIdsList(ss, b) ==> b <= j < b + SizeList(ss)
    ensures forall r :: r in ReturnIds(ss, b) ==> r !in JoinIdsList(ss, b)
    decreases ss, 2
  {
    if ss != [] {
      var pre := ss[..|ss| - 1];
      JoinIdsInRangeList(pre, b);
      JoinIdsInRange(ss[|ss| - 1], b + SizeList(pre));
      ReturnIdsInRange(pre, b);
    }
  }

  // ---------------------------------------------------------------------------------
  // Edge endpoints

  /**
   * Every edge of `ws` joins two identifiers of `lo .. hi - 1`, and none leaves an
   * identifier of `joins`.
   */
  ghost predicate WellWired(ws: seq<Wire>, lo: int, hi: int, joins: set<NodeId>)
  {
    forall w :: w in ws ==> lo <= w.source < hi && lo <= w.target < hi && w.source !in joins
  }

  lemma WellWiredAppend(a: seq<Wire>, c: seq<Wire>, lo: int, hi: int, joins: set<NodeId>)
    requires WellWired(a, lo, hi, joins) && WellWired(c, lo, hi, joins)
    ensures WellWired(a + c, lo, hi, joins)
  {
  }

  /** Widening the range, and adding join identifiers outside the old range, keeps it. */
  lemma WellWiredWiden(ws: seq<Wire>, lo: int, hi: int, joins: set<NodeId>,
                       lo': int, hi': int, extra: set<NodeId>)
    requires WellWired(ws, lo, hi, joins)
    requires lo' <= lo && hi <= hi'
    requires forall j :: j in extra ==> j < lo || hi <= j
    ensures WellWired(ws, lo', hi', joins + extra)
  {
  }

  /** The pairs of `Chain(ids)` join members of `ids`. */
  lemma {:induction false} ChainEndpoints(ids: seq<NodeId>)
    ensures forall w :: w in Chain(ids) ==> w.source in ids && w.target in ids
    decreases |ids|
  {
    if |ids| >= 2 {
      ChainEndpoints(ids[..|ids| - 1]);
    }
  }

  /** The edges `Link` and `Thread` add join members of `ids` and the two given ends. */
  lemma LinkWired(from: NodeId, ids: seq<NodeId>, to: NodeId, first: Option<string>,
                  last: Option<string>, lo: int, hi: int, joins: set<NodeId>)
    requires lo <= from < hi && lo <= to < hi && from !in joins
    requires forall r :: r in ids ==> lo <= r < hi && r !in joins
    ensures WellWired(Link(from, ids, to, first), lo, hi, joins)
    ensures ids != [] ==> WellWired(Thread(from, ids, to, first, last), lo, hi, joins)
  {
    ChainEndpoints(ids);
    if ids != [] {
      assert ids[0] in ids && ids[|ids| - 1] in ids;
    }
  }

  /**
   * Every edge added for `s` joins two of its own identifiers and none leaves one of its
   * join identifiers.
   */
  lemma {:induction false} Wired(s: AstNode, b: nat)
    ensures WellWired(WiresOf(s, b), b, b + Size(s), JoinIds(s, b))
    decreases s, 1
  {
    if s.IfStatement? {
      IfWired(s, b);
    } else if s.IsLoop() {
      LoopWired(s, b);
    } else if s.FunctionDeclaration? {
      FunctionWired(s, b);
    }
  }

  /** The facts about an `if`'s else branch that hold whether or not it is present. */
  lemma {:induction false} ElseFacts(s: AstNode, b: nat)
    requires s.IfStatement?
    ensures var eb := ElseStart(s, b);
            var eStmts := ElseStatements(s.elseBranch);
            && BranchWires(s.elseBranch, eb) == WiresOfList(eStmts, eb)
            && BranchJoinIds(s.elseBranch, eb) == JoinIdsList(eStmts, eb)
            && BranchSize(s.elseBranch) == SizeList(eStmts)
            && WellWired(WiresOfList(eStmts, eb), eb, eb + SizeList(eStmts), JoinIdsList(eStmts, eb))
            && (forall j :: j in JoinIdsList(eStmts, eb) ==> eb <= j < eb + SizeList(eStmts))
            && (forall r :: r in ReturnIds(eStmts, eb) ==> eb <= r < eb + SizeList(eStmts))
            && (forall r :: r in ReturnIds(eStmts, eb) ==> r !in JoinIdsList(eStmts, eb))
    decreases s.elseBranch, 3
  {
    var eb := ElseStart(s, b);
    if s.elseBranch.Present? {
      WiredList(s.elseBranch.stmts, eb);
      JoinIdsInRangeList(s.elseBranch.stmts, eb);
      ReturnIdsInRange(s.elseBranch.stmts, eb);
    }
  }

  lemma {:induction false} IfWired(s: AstNode, b: nat)
    requires s.IfStatement?
    ensures WellWired(IfWires(s, b), b, b + Size(s), JoinIds(s, b))
    decreases s, 0
  {
    var hi := b + Size(s);
    var eb := ElseStart(s, b);
    var eStmts := ElseStatements(s.elseBranch);
    var tIds, eIds := ReturnIds(s.thenBranch, b + 2), ReturnIds(eStmts, eb);
    var tJoins, eJoins := JoinIdsList(s.thenBranch, b + 2), JoinIdsList(eStmts, eb);
    var joins := {b + 1} + tJoins + eJoins;
    ElseFacts(s, b);
    WiredList(s.thenBranch, b + 2);
    JoinIdsInRangeList(s.thenBranch, b + 2);
    ReturnIdsInRange(s.thenBranch, b + 2);
    var tWires, eWires := WiresOfList(s.thenBranch, b + 2), WiresOfList(eStmts, eb);
    WellWiredWiden(tWires, b + 2, eb, tJoins, b, hi, {b + 1} + eJoins);
    WellWiredWiden(eWires, eb, hi, eJoins, b, hi, {b + 1} + tJoins);
    assert tJoins + ({b + 1} + eJoins) == joins;
    assert eJoins + ({b + 1} + tJoins) == joins;
    LinkWired(b, tIds, b + 1, Some(TrueLabel), None, b, hi, joins);
    LinkWired(b, eIds, b + 1, Some(FalseLabel), None, b, hi, joins);
    var linkT, linkE := Link(b, tIds, b + 1, Some(TrueLabel)), Link(b, eIds, b + 1, Some(FalseLabel));
    WellWiredAppend(tWires, eWires, b, hi, joins);
    WellWiredAppend(tWires + eWires, linkT, b, hi, joins);
    WellWiredAppend(tWires + eWires + linkT, linkE, b, hi, joins);
  }

  lemma {:induction false} LoopWired(s: AstNode, b: nat)
    requires s.IsLoop()
    ensures WellWired(LoopWires(s, b), b, b + Size(s), JoinIds(s, b))
    decreases s, 0
  {
    var hi := b + Size(s);
    var ids := ReturnIds(s.body, b + 2);
    var bodyJoins := JoinIdsList(s.body, b + 2);
    var joins := {b + 1} + bodyJoins;
    WiredList(s.body, b + 2);
    JoinIdsInRangeList(s.body, b + 2);
    ReturnIdsInRange(s.body, b + 2);
    var bodyWires := WiresOfList(s.body, b + 2);
    WellWiredWiden(bodyWires, b + 2, hi, bodyJoins, b, hi, {b + 1});
    assert bodyJoins + {b + 1} == joins;
    LinkWired(b, ids, b, Some(ContinueLabel(s)), Some(LoopBackLabel), b, hi, joins);
    var exit := [Wire(b, b + 1, Some(ExitLabel(s)))];
    WellWiredAppend(bodyWires, LoopBack(s, b), b, hi, joins);
    WellWiredAppend(bodyWires + LoopBack(s, b), exit, b, hi, joins);
  }

  lemma {:induction false} FunctionWired(s: AstNode, b: nat)
    requires s.FunctionDeclaration?
    ensures WellWired(FunctionWires(s, b), b, b + Size(s), JoinIds(s, b))
    decreases s, 0
  {
    var hi := b + Size(s);
    var ids := ReturnIds(s.body, b + 2);
    var bodyJoins := JoinIdsList(s.body, b + 2);
    var joins := {b + 1} + bodyJoins;
    WiredList(s.body, b + 2);
    JoinIdsInRangeList(s.body, b + 2);
    ReturnIdsInRange(s.body, b + 2);
    var bodyWires := WiresOfList(s.body, b + 2);
    WellWiredWiden(bodyWires, b + 2, hi, bodyJoins, b, hi, {b + 1});
    assert bodyJoins + {b + 1} == joins;
    LinkWired(b, ids, b + 1, None, None, b, hi, joins);
    WellWiredAppend(bodyWires, Link(b, ids, b + 1, None), b, hi, joins);
  }

  lemma {:induction false} WiredList(ss: seq<AstNode>, b: nat)
    ensures WellWired(WiresOfList(ss, b), b, b + SizeList(ss), JoinIdsList(ss, b))
    decreases ss, 2
  {
    if ss != [] {
      var pre, last := ss[..|ss| - 1], ss[|ss| - 1];
      var mid, hi := b + SizeList(pre), b + SizeList(ss);
      WiredList(pre, b);
      Wired(last, mid);
      JoinIdsInRangeList(pre, b);
      JoinIdsInRange(last, mid);
      WellWiredWiden(WiresOfList(pre, b), b, mid, JoinIdsList(pre, b), b, hi, JoinIds(last, mid));
      WellWiredWiden(WiresOf(last, mid), mid, hi, JoinIds(last, mid), b, hi, JoinIdsList(pre, b));
      assert JoinIds(last, mid) + JoinIdsList(pre, b) == JoinIdsList(ss, b);
      WellWiredAppend(WiresOfList(pre, b), WiresOf(last, mid), b, hi, JoinIdsList(ss, b));
    }
  }

  // ---------------------------------------------------------------------------------
  // The edges around each construct

  /** The first of `ids`, or `dflt` when there is none. */
  function FirstOr(ids: seq<NodeId>, dflt: NodeId): NodeId
  {
    if ids == [] then dflt else ids[0]
  }

  /** The last of `ids`, or `dflt` when there is none. */
  function LastOr(ids: seq<NodeId>, dflt: NodeId): NodeId
  {
    if ids == [] then dflt else ids[|ids| - 1]
  }

  lemma {:induction false} OutgoingAppend(a: seq<Wire>, c: seq<Wire>, x: NodeId)
    ensures Outgoing(a + c, x) == Outgoing(a, x) + Outgoing(c, x)
    decreases |c|
  {
    if c == [] {
      assert a + c == a;
    } else {
      var c' := c[..|c| - 1];
      assert (a + c)[..|a + c| - 1] == a + c';
      OutgoingAppend(a, c', x);
    }
  }

  lemma {:induction false} IncomingAppend(a: seq<Wire>, c: seq<Wire>, x: NodeId)
    ensures Incoming(a + c, x) == Incoming(a, x) + Incoming(c, x)
    decreases |c|
  {
    if c == [] {
      assert a + c == a;
    } else {
      var c' := c[..|c| - 1];
      assert (a + c)[..|a + c| - 1] == a + c';
      IncomingAppend(a, c', x);
    }
  }

  lemma {:induction false} OutgoingNone(ws: seq<Wire>, x: NodeId)
    ensures (forall w :: w in ws ==> w.source != x) ==> Outgoing(ws, x) == []
    ensures (forall w :: w in ws ==> w.target != x) ==> Incoming(ws, x) == []
    decreases |ws|
  {
    if ws != [] {
      OutgoingNone(ws[..|ws| - 1], x);
      assert forall w :: w in ws[..|ws| - 1] ==> w in ws;
    }
  }

  /** Wires of `Chain(ids)` leave and enter members of `ids` only. */
  lemma ChainAvoids(ids: seq<NodeId>, x: NodeId)
    requires x !in ids
    ensures Outgoing(Chain(ids), x) == [] && Incoming(Chain(ids), x) == []
  {
    ChainEndpoints(ids);
    OutgoingNone(Chain(ids), x);
  }

  /**
   * Outside `ids`, `Thread(from, ids, to, ...)` leaves only `from`, once, towards the first of
   * `ids`, and enters only `to`, once, from the last of `ids`.
   */
  lemma ThreadEnds(from: NodeId, ids: seq<NodeId>, to: NodeId, first: Option<string>,
                   last: Option<string>, x: NodeId)
    requires ids != [] && x !in ids
    ensures Outgoing(Thread(from, ids, to, first, last), x)
         == if x == from then [Wire(from, ids[0], first)] else []
    ensures Incoming(Thread(from, ids, to, first, last), x)
         == if x == to then [Wire(ids[|ids| - 1], to, last)] else []
  {
    var head, tail := [Wire(from, ids[0], first)], [Wire(ids[|ids| - 1], to, last)];
    assert ids[0] in ids && ids[|ids| - 1] in ids;
    ChainAvoids(ids, x);
    OutgoingAppend(head, Chain(ids), x);
    OutgoingAppend(head + Chain(ids), tail, x);
    IncomingAppend(head, Chain(ids), x);
    IncomingAppend(head + Chain(ids), tail, x);
    assert head[..0] == [] && tail[..0] == [];
  }

  /**
   * Outside `ids`, `Link(from, ids, to, first)` leaves only `from`, once, labelled `first`,
   * towards the first of `ids` (or `to`), and enters only `to`, once, from the last of `ids`
   * (or from `from`).
   */
  lemma LinkEnds(from: NodeId, ids: seq<NodeId>, to: NodeId, first: Option<string>, x: NodeId)
    requires x !in ids && from != to
    ensures Outgoing(Link(from, ids, to, first), x)
         == if x == from then [Wire(from, FirstOr(ids, to), first)] else []
    ensures Incoming(Link(from, ids, to, first), x)
         == if x == to then [Wire(LastOr(ids, from), to, if ids == [] then first else None)] else []
  {
    if ids == [] {
      assert [Wire(from, to, first)][..0] == [];
    } else {
      ThreadEnds(from, ids, to, first, None, x);
    }
  }

  /** No wire of a child list, numbered from `b + 2`, touches `b` or `b + 1`. */
  lemma ChildrenAvoid(ss: seq<AstNode>, lo: nat, b: nat)
    requires b + 2 <= lo
    ensures Outgoing(WiresOfList(ss, lo), b) == [] && Incoming(WiresOfList(ss, lo), b) == []
    ensures Outgoing(WiresOfList(ss, lo), b + 1) == [] && Incoming(WiresOfList(ss, lo), b + 1) == []
    ensures b !in ReturnIds(ss, lo) && b + 1 !in ReturnIds(ss, lo)
  {
    WiredList(ss, lo);
    OutgoingNone(WiresOfList(ss, lo), b);
    OutgoingNone(WiresOfList(ss, lo), b + 1);
    ReturnIdsInRange(ss, lo);
  }

  /** Edges of the form `children + link1 + link2`, where the children do not leave `x`. */
  lemma OutgoingParts(a: seq<Wire>, c: seq<Wire>, l1: seq<Wire>, l2: seq<Wire>, x: NodeId,
                      out1: seq<Wire>, out2: seq<Wire>)
    requires Outgoing(a, x) == [] && Outgoing(c, x) == []
    requires Outgoing(l1, x) == out1 && Outgoing(l2, x) == out2
    ensures Outgoing(a + c + l1 + l2, x) == out1 + out2
  {
    AppendEmpty<Wire>([]);
    AppendEmpty(out1);
    OutgoingAppend(a, c, x);
    OutgoingAppend(a + c, l1, x);
    OutgoingAppend(a + c + l1, l2, x);
  }

  /** Edges of the form `children + link1 + link2`, where the children do not enter `x`. */
  lemma IncomingParts(a: seq<Wire>, c: seq<Wire>, l1: seq<Wire>, l2: seq<Wire>, x: NodeId,
                      in1: seq<Wire>, in2: seq<Wire>)
    requires Incoming(a, x) == [] && Incoming(c, x) == []
    requires Incoming(l1, x) == in1 && Incoming(l2, x) == in2
    ensures Incoming(a + c + l1 + l2, x) == in1 + in2
  {
    AppendEmpty<Wire>([]);
    AppendEmpty(in1);
    IncomingAppend(a, c, x);
    IncomingAppend(a + c, l1, x);
    IncomingAppend(a + c + l1, l2, x);
  }

  lemma PairConcat(x: Wire, y: Wire)
    ensures [x] + [y] == [x, y]
  {
  }

  /**
   * Among the edges the `if`'s own transform adds, exactly two leave the `if` node: `true`
   * to the first statement of the then branch and `false` to the first statement of the else
   * branch, each going straight to the merge node when its branch is empty. The enclosing
   * list adds one more, unlabelled, towards the next statement.
   */
  lemma IfOutgoing(s: AstNode, b: nat)
    requires s.IfStatement?
    ensures var tIds := ReturnIds(s.thenBranch, b + 2);
            var eIds := ReturnIds(ElseStatements(s.elseBranch), ElseStart(s, b));
            Outgoing(IfWires(s, b), b)
              == [Wire(b, FirstOr(tIds, b + 1), Some(TrueLabel)),
                  Wire(b, FirstOr(eIds, b + 1), Some(FalseLabel))]
  {
    var eb := ElseStart(s, b);
    var eStmts := ElseStatements(s.elseBranch);
    var tIds, eIds := ReturnIds(s.thenBranch, b + 2), ReturnIds(eStmts, eb);
    var tWires, eWires := WiresOfList(s.thenBranch, b + 2), WiresOfList(eStmts, eb);
    var link1, link2 := Link(b, tIds, b + 1, Some(TrueLabel)), Link(b, eIds, b + 1, Some(FalseLabel));
    assert Outgoing(tWires, b) == [] && b !in tIds && b + 1 !in tIds by {
      ChildrenAvoid(s.thenBranch, b + 2, b);
    }
    assert Outgoing(eWires, b) == [] && b !in eIds && b + 1 !in eIds by {
      ChildrenAvoid(eStmts, eb, b);
    }
    TwoLinksOutgoing(tWires, eWires, tIds, eIds, b, Some(TrueLabel), Some(FalseLabel));
    assert IfWires(s, b) == tWires + eWires + link1 + link2 by { ElseFacts(s, b); }
  }

  lemma TwoLinksOutgoing(a: seq<Wire>, c: seq<Wire>, tIds: seq<NodeId>, eIds: seq<NodeId>,
                         b: NodeId, t: Option<string>, f: Option<string>)
    requires Outgoing(a, b) == [] && Outgoing(c, b) == []
    requires b !in tIds && b + 1 !in tIds && b !in eIds && b + 1 !in eIds
    ensures Outgoing(a + c + Link(b, tIds, b + 1, t) + Link(b, eIds, b + 1, f), b)
         == [Wire(b, FirstOr(tIds, b + 1), t), Wire(b, FirstOr(eIds, b + 1), f)]
  {
    var w1, w2 := Wire(b, FirstOr(tIds, b + 1), t), Wire(b, FirstOr(eIds, b + 1), f);
    LinkEnds(b, tIds, b + 1, t, b);
    LinkEnds(b, eIds, b + 1, f, b);
    OutgoingParts(a, c, Link(b, tIds, b + 1, t), Link(b, eIds, b + 1, f), b, [w1], [w2]);
    PairConcat(w1, w2);
  }

  /**
   * Among the edges the `if`'s own transform adds, the merge node is entered exactly twice:
   * from the last statement of each branch, or by the labelled edge from the `if` node when
   * that branch is empty.
   */
  lemma IfIncoming(s: AstNode, b: nat)
    requires s.IfStatement?
    ensures var tIds := ReturnIds(s.thenBranch, b + 2);
            var eIds := ReturnIds(ElseStatements(s.elseBranch), ElseStart(s, b));
            Incoming(IfWires(s, b), b + 1)
              == [Wire(LastOr(tIds, b), b + 1, if tIds == [] then Some(TrueLabel) else None),
                  Wire(LastOr(eIds, b), b + 1, if eIds == [] then Some(FalseLabel) else None)]
  {
    var eb := ElseStart(s, b);
    var eStmts := ElseStatements(s.elseBranch);
    var tIds, eIds := ReturnIds(s.thenBranch, b + 2), ReturnIds(eStmts, eb);
    var tWires, eWires := WiresOfList(s.thenBranch, b + 2), WiresOfList(eStmts, eb);
    var link1, link2 := Link(b, tIds, b + 1, Some(TrueLabel)), Link(b, eIds, b + 1, Some(FalseLabel));
    assert Incoming(tWires, b + 1) == [] && b !in tIds && b + 1 !in tIds by {
      ChildrenAvoid(s.thenBranch, b + 2, b);
    }
    assert Incoming(eWires, b + 1) == [] && b !in eIds && b + 1 !in eIds by {
      ChildrenAvoid(eStmts, eb, b);
    }
    TwoLinksIncoming(tWires, eWires, tIds, eIds, b, Some(TrueLabel), Some(FalseLabel));
    assert IfWires(s, b) == tWires + eWires + link1 + link2 by { ElseFacts(s, b); }
  }

  lemma TwoLinksIncoming(a: seq<Wire>, c: seq<Wire>, tIds: seq<NodeId>, eIds: seq<NodeId>,
                         b: NodeId, t: Option<string>, f: Option<string>)
    requires Incoming(a, b + 1) == [] && Incoming(c, b + 1) == []
    requires b !in tIds && b + 1 !in tIds && b !in eIds && b + 1 !in eIds
    ensures Incoming(a + c + Link(b, tIds, b + 1, t) + Link(b, eIds, b + 1, f), b + 1)
         == [Wire(LastOr(tIds, b), b + 1, if tIds == [] then t else None),
             Wire(LastOr(eIds, b), b + 1, if eIds == [] then f else None)]
  {
    var w1 := Wire(LastOr(tIds, b), b + 1, if tIds == [] then t else None);
    var w2 := Wire(LastOr(eIds, b), b + 1, if eIds == [] then f else None);
    LinkEnds(b, tIds, b + 1, t, b + 1);
    LinkEnds(b, eIds, b + 1, f, b + 1);
    IncomingParts(a, c, Link(b, tIds, b + 1, t), Link(b, eIds, b + 1, f), b + 1, [w1], [w2]);
    PairConcat(w1, w2);
  }

  /** A single wire leaves `x` exactly when its source is `x`, and enters it likewise. */
  lemma OneWire(w: Wire, x: NodeId)
    ensures Outgoing([w], x) == if w.source == x then [w] else []
    ensures Incoming([w], x) == if w.target == x then [w] else []
  {
    assert [w][..0] == [];
  }

  /** The edges of a loop, with its labels left open: body, back thread, exit edge. */
  function LoopShape(bodyWires: seq<Wire>, ids: seq<NodeId>, b: NodeId, cont: Option<string>,
                     back: Option<string>, exit: Option<string>): seq<Wire>
  {
    bodyWires + (if ids == [] then [] else Thread(b, ids, b, cont, back)) + [Wire(b, b + 1, exit)]
  }

  lemma LoopShapeOutgoing(bodyWires: seq<Wire>, ids: seq<NodeId>, b: NodeId,
                          cont: Option<string>, back: Option<string>, exit: Option<string>)
    requires Outgoing(bodyWires, b) == [] && b !in ids
    ensures Outgoing(LoopShape(bodyWires, ids, b, cont, back, exit), b)
         == (if ids == [] then [] else [Wire(b, ids[0], cont)]) + [Wire(b, b + 1, exit)]
  {
    var last := Wire(b, b + 1, exit);
    OneWire(last, b);
    AppendEmpty([last]);
    if ids == [] {
      AppendEmpty(bodyWires);
      OutgoingAppend(bodyWires, [last], b);
    } else {
      var thread := Thread(b, ids, b, cont, back);
      ThreadEnds(b, ids, b, cont, back, b);
      AppendEmpty([Wire(b, ids[0], cont)]);
      OutgoingAppend(bodyWires, thread, b);
      OutgoingAppend(bodyWires + thread, [last], b);
    }
  }

  lemma LoopShapeIncoming(bodyWires: seq<Wire>, ids: seq<NodeId>, b: NodeId,
                          cont: Option<string>, back: Option<string>, exit: Option<string>)
    requires Incoming(bodyWires, b) == [] && b !in ids
    ensures Incoming(LoopShape(bodyWires, ids, b, cont, back, exit), b)
         == if ids == [] then [] else [Wire(ids[|ids| - 1], b, back)]
  {
    var last := Wire(b, b + 1, exit);
    OneWire(last, b);
    AppendEmpty<Wire>([]);
    if ids == [] {
      AppendEmpty(bodyWires);
      IncomingAppend(bodyWires, [last], b);
    } else {
      var thread := Thread(b, ids, b, cont, back);
      ThreadEnds(b, ids, b, cont, back, b);
      AppendEmpty([Wire(ids[|ids| - 1], b, back)]);
      IncomingAppend(bodyWires, thread, b);
      IncomingAppend(bodyWires + thread, [last], b);
    }
  }

  lemma LoopShapeExit(bodyWires: seq<Wire>, ids: seq<NodeId>, b: NodeId,
                      cont: Option<string>, back: Option<string>, exit: Option<string>)
    requires Incoming(bodyWires, b + 1) == [] && b + 1 !in ids
    ensures Incoming(LoopShape(bodyWires, ids, b, cont, back, exit), b + 1) == [Wire(b, b + 1, exit)]
  {
    var last := Wire(b, b + 1, exit);
    OneWire(last, b + 1);
    AppendEmpty([last]);
    if ids == [] {
      AppendEmpty(bodyWires);
      IncomingAppend(bodyWires, [last], b + 1);
    } else {
      var thread := Thread(b, ids, b, cont, back);
      ThreadEnds(b, ids, b, cont, back, b + 1);
      AppendEmpty<Wire>([]);
      IncomingAppend(bodyWires, thread, b + 1);
      IncomingAppend(bodyWires + thread, [last], b + 1);
    }
  }

  /**
   * The edges at a loop node and its exit node, among those the loop's own transform adds.
   * The loop node leaves towards the first statement of its body (labelled with the loop's
   * continue label) when the body is not empty, then always towards its exit node; it is
   * entered only by the back edge from the last statement of the body. The exit node is
   * entered only by the exit edge. The enclosing list's edges into and out of the loop node
   * are not among these.
   */
  lemma LoopEdges(s: AstNode, b: nat)
    requires s.IsLoop()
    ensures var ids := ReturnIds(s.body, b + 2);
            && Outgoing(LoopWires(s, b), b)
                 == (if ids == [] then [] else [Wire(b, ids[0], Some(ContinueLabel(s)))])
                    + [Wire(b, b + 1, Some(ExitLabel(s)))]
            && Incoming(LoopWires(s, b), b)
                 == (if ids == [] then [] else [Wire(ids[|ids| - 1], b, Some(LoopBackLabel))])
            && Incoming(LoopWires(s, b), b + 1) == [Wire(b, b + 1, Some(ExitLabel(s)))]
  {
    var ids, bodyWires := ReturnIds(s.body, b + 2), WiresOfList(s.body, b + 2);
    var cont, exit := Some(ContinueLabel(s)), Some(ExitLabel(s));
    assert LoopWires(s, b) == LoopShape(bodyWires, ids, b, cont, Some(LoopBackLabel), exit);
    assert Outgoing(bodyWires, b) == [] && Incoming(bodyWires, b) == []
        && Incoming(bodyWires, b + 1) == [] && b !in ids && b + 1 !in ids by {
      ChildrenAvoid(s.body, b + 2, b);
    }
    LoopShapeOutgoing(bodyWires, ids, b, cont, Some(LoopBackLabel), exit);
    LoopShapeIncoming(bodyWires, ids, b, cont, Some(LoopBackLabel), exit);
    LoopShapeExit(bodyWires, ids, b, cont, Some(LoopBackLabel), exit);
  }

  /**
   * Among the edges the function's own transform adds, the start node has one unlabelled
   * outgoing edge, to the first statement of the body or to the end node when the body is
   * empty, and no incoming edge. A nested function's start node is also entered by its
   * enclosing list.
   */
  lemma FunctionStartEdges(s: AstNode, b: nat)
    requires s.FunctionDeclaration?
    ensures var ids := ReturnIds(s.body, b + 2);
            && Outgoing(FunctionWires(s, b), b) == [Wire(b, FirstOr(ids, b + 1), None)]
            && Incoming(FunctionWires(s, b), b) == []
  {
    var ids, bodyWires := ReturnIds(s.body, b + 2), WiresOfList(s.body, b + 2);
    assert Outgoing(bodyWires, b) == [] && Incoming(bodyWires, b) == [] && b !in ids by {
      ChildrenAvoid(s.body, b + 2, b);
    }
    LinkEnds(b, ids, b + 1, None, b);
    OutgoingAppend(bodyWires, Link(b, ids, b + 1, None), b);
    IncomingAppend(bodyWires, Link(b, ids, b + 1, None), b);
  }

  /**
   * Among the edges the function's own transform adds, the end node has one unlabelled
   * incoming edge, from the last statement of the body or from the start node when the body
   * is empty, and no outgoing edge.
   */
  lemma FunctionEndEdges(s: AstNode, b: nat)
    requires s.FunctionDeclaration?
    ensures var ids := ReturnIds(s.body, b + 2);
            && Incoming(FunctionWires(s, b), b + 1) == [Wire(LastOr(ids, b), b + 1, None)]
            && Outgoing(FunctionWires(s, b), b + 1) == []
  {
    var ids, bodyWires := ReturnIds(s.body, b + 2), WiresOfList(s.body, b + 2);
    assert Outgoing(bodyWires, b + 1) == [] && Incoming(bodyWires, b + 1) == [] && b + 1 !in ids by {
      ChildrenAvoid(s.body, b + 2, b);
    }
    LinkEnds(b, ids, b + 1, None, b + 1);
    OutgoingAppend(bodyWires, Link(b, ids, b + 1, None), b + 1);
    IncomingAppend(bodyWires, Link(b, ids, b + 1, None), b + 1);
  }
}
