/** The dot rendering of a call graph: the nodes kept for drawing (all of
    them, those reachable from a start address, or those on the paths from a
    start address to a sink) and the nodes and edges emitted for them. */
module DotCallgraph {
  import opened Base

  /** The call graph as the renderer reads it: its nodes in order, the
      callees of each node, and the call count of each edge. */
  datatype Callgraph = Callgraph(nodes: seq<string>, edgelist: map<string, seq<string>>, edges: map<string, map<string, int>>)

  /** Every node has a callee list, and every callee a call count. */
  predicate WellFormed(cg: Callgraph)
  {
    forall n :: n in cg.nodes ==>
      n in cg.edgelist && n in cg.edges && forall d :: d in cg.edgelist[n] ==> d in cg.edges[n]
  }

  /** The calls made on the dot graph, in order. */
  datatype DotCall = AddNode(name: string, text: string, color: string) | AddEdge(src: string, dst: string)

  // ---------------------------------------------------------------------------
  // Reachability
  // ---------------------------------------------------------------------------

  /** The edges the restriction follows: those out of the start address and
      out of the graph's nodes. */
  ghost predicate Step(cg: Callgraph, start: string, a: string, b: string)
  {
    (a == start || a in cg.nodes) && a in cg.edgelist && b in cg.edgelist[a]
  }

  ghost predicate IsPath(cg: Callgraph, start: string, p: seq<string>)
  {
    |p| >= 1 && p[0] == start && forall i :: 0 <= i < |p| - 1 ==> Step(cg, start, p[i], p[i + 1])
  }

  ghost predicate Reachable(cg: Callgraph, start: string, n: string)
  {
    exists p :: IsPath(cg, start, p) && p[|p| - 1] == n
  }

  lemma ReachableStart(cg: Callgraph, start: string)
    ensures Reachable(cg, start, start)
  {
    assert IsPath(cg, start, [start]);
  }

  lemma ReachableStep(cg: Callgraph, start: string, a: string, b: string)
    requires Reachable(cg, start, a) && Step(cg, start, a, b)
    ensures Reachable(cg, start, b)
  {
    var p :| IsPath(cg, start, p) && p[|p| - 1] == a;
    var q := p + [b];
    assert q[|q| - 1] == b;
    assert IsPath(cg, start, q);
  }

  /** The successors of `a`, when the restriction follows its edges, all lie
      in `s`. */
  ghost predicate SuccessorsIn(cg: Callgraph, start: string, a: string, s: set<string>)
  {
    (a == start || a in cg.nodes) && a in cg.edgelist ==>
      forall d :: d in cg.edgelist[a] ==> d in s
  }

  /** A set that holds the start address and the successors of each of its
      members holds every reachable node. */
  lemma {:induction false} ClosedHoldsReachable(cg: Callgraph, start: string, s: set<string>, n: string)
    requires start in s
    requires forall a :: a in s ==> SuccessorsIn(cg, start, a, s)
    requires Reachable(cg, start, n)
    ensures n in s
  {
    var p :| IsPath(cg, start, p) && p[|p| - 1] == n;
    var k := 0;
    while k < |p| - 1
      invariant 0 <= k < |p|
      invariant p[k] in s
    {
      assert Step(cg, start, p[k], p[k + 1]);
      assert SuccessorsIn(cg, start, p[k], s);
      k := k + 1;
    }
  }

  /** The members of a sequence. */
  function Members(ds: seq<string>): (m: set<string>)
    ensures forall d :: d in m <==> d in ds
  {
    set d | d in ds
  }

  /** Every node the restriction can add: the start address and the
      successors of the start address and of the graph's nodes. */
  function Universe(cg: Callgraph, start: string): (u: set<string>)
    ensures start in u
    ensures forall a, d :: (a == start || a in cg.nodes) && a in cg.edgelist && d in cg.edgelist[a] ==> d in u
  {
    {start}
    + (set d | start in cg.edgelist && d in cg.edgelist[start])
    + (set n, d | n in cg.nodes && n in cg.edgelist && d in cg.edgelist[n] :: d)
  }

  /** Every node of the graph and every callee: what restrict_nodes keeps
      when it keeps everything. */
  function AllNodes(cg: Callgraph): (s: set<string>)
    ensures forall n :: n in s <==> n in cg.nodes || exists m :: m in cg.nodes && m in cg.edgelist && n in cg.edgelist[m]
  {
    (set n | n in cg.nodes) + (set n, d | n in cg.nodes && n in cg.edgelist && d in cg.edgelist[n] :: d)
  }

  lemma SubsetCardinality(a: set<string>, b: set<string>)
    requires a <= b
    ensures |a| <= |b|
    ensures |a| == |b| ==> a == b
  {
    assert b == a + (b - a);
    assert |b| == |a| + |b - a|;
    if |a| == |b| {
      assert |b - a| == 0;
    }
  }

  /** nodes.add(d) for each d, in order. */
  method AddTargets(nodes: set<string>, ds: seq<string>) returns (r: set<string>)
    ensures r == nodes + Members(ds)
  {
    r := nodes;
    for i := 0 to |ds|
      invariant r == nodes + Members(ds[..i])
    {
      assert ds[..i + 1] == ds[..i] + [ds[i]];
      r := r + {ds[i]};
    }
    assert ds[..|ds|] == ds;
  }

  /** Adding the callees of a reached node keeps every member reachable. */
  method AddReachable(cg: Callgraph, start: string, nodes: set<string>, n: string) returns (r: set<string>)
    requires n in nodes && (n == start || n in cg.nodes) && n in cg.edgelist
    requires forall x :: x in nodes ==> Reachable(cg, start, x)
    ensures r == nodes + Members(cg.edgelist[n])
    ensures forall x :: x in r ==> Reachable(cg, start, x)
  {
    r := AddTargets(nodes, cg.edgelist[n]);
    forall d | d in r
      ensures Reachable(cg, start, d)
    {
      if d !in nodes {
        ReachableStep(cg, start, n, d);
      }
    }
  }

  /** One pass of restrict_nodes_from over the graph's nodes: every node
      already kept at the start of the pass has its callees kept by its
      end. */
  method Pass(cg: Callgraph, start: string, nodes: set<string>) returns (r: set<string>)
    requires WellFormed(cg)
    requires nodes <= Universe(cg, start)
    requires forall x :: x in nodes ==> Reachable(cg, start, x)
    ensures nodes <= r <= Universe(cg, start)
    ensures forall x :: x in r ==> Reachable(cg, start, x)
    ensures forall a :: a in nodes && a in cg.nodes ==> SuccessorsIn(cg, start, a, r)
  {
    r := nodes;
    for i := 0 to |cg.nodes|
      invariant nodes <= r <= Universe(cg, start)
      invariant forall x :: x in r ==> Reachable(cg, start, x)
      invariant forall k :: 0 <= k < i && cg.nodes[k] in nodes ==> SuccessorsIn(cg, start, cg.nodes[k], r)
    {
      var n := cg.nodes[i];
      if n in r {
        r := AddReachable(cg, start, r, n);
      }
    }
    forall a | a in nodes && a in cg.nodes
      ensures SuccessorsIn(cg, start, a, r)
    {
      var k :| 0 <= k < |cg.nodes| && cg.nodes[k] == a;
    }
  }

  /** A fixed point of the passes holds every reachable node. */
  lemma ReachableFromFixedPoint(cg: Callgraph, start: string, nodes: set<string>)
    requires start in nodes && SuccessorsIn(cg, start, start, nodes)
    requires forall a :: a in nodes && a in cg.nodes ==> SuccessorsIn(cg, start, a, nodes)
    ensures forall n :: Reachable(cg, start, n) ==> n in nodes
  {
    forall n | Reachable(cg, start, n)
      ensures n in nodes
    {
      ClosedHoldsReachable(cg, start, nodes, n);
    }
  }

  // ---------------------------------------------------------------------------
  // The renderer
  // ---------------------------------------------------------------------------

  class DotCallgraph {
    const graphname: string
    const callgraph: Callgraph
    const sinks: seq<string>
    const startaddr: Option<string>
    /** getcolor: None for a node that is not drawn. */
    const getcolor: string -> Option<string>
    const getname: string -> string
    /** graphutil's find_paths(start, sink) over this graph's nodes and
        edges. */
    const findPaths: (string, string) -> seq<seq<string>>
    /** The `pathnodes` attribute: None while it has never been assigned. */
    var pathnodes: Option<set<string>>
    /** The `_pathnodes` attribute the constructor initialises. */
    var initialPathnodes: set<string>
    /** The calls made on the dot graph. */
    var dotgraph: seq<DotCall>

    /** The attribute assignments of the constructor, before the dispatch. */
    constructor Init(graphname: string, callgraph: Callgraph, sinks: seq<string>, startaddr: Option<string>,
                     getcolor: string -> Option<string>, getname: string -> string,
                     findPaths: (string, string) -> seq<seq<string>>)
      ensures this.graphname == graphname && this.callgraph == callgraph && this.sinks == sinks
      ensures this.startaddr == startaddr && this.getcolor == getcolor && this.getname == getname
      ensures this.findPaths == findPaths
      ensures pathnodes == None && initialPathnodes == {} && dotgraph == []
    {
      this.graphname := graphname;
      this.callgraph := callgraph;
      this.sinks := sinks;
      this.startaddr := startaddr;
      this.getcolor := getcolor;
      this.getname := getname;
      this.findPaths := findPaths;
      pathnodes := None;
      initialPathnodes := {};
      dotgraph := [];
    }

    /** `if self.startaddr and not self.sinks`: a start address that is
        neither None nor empty, and no sinks. */
    predicate RestrictsFrom()
    {
      startaddr.Some? && startaddr.value != "" && |sinks| == 0
    }

    /** restrict_nodes_from: the nodes reachable from the start address.  The
        start address and its callees come first; then every pass over the
        graph's nodes adds the callees of the nodes already kept, until a
        pass adds none.  A start address without a callee list raises. */
    method RestrictNodesFrom(start: string) returns (r: Result<(), string>)
      requires WellFormed(callgraph)
      modifies this`pathnodes
      ensures start !in callgraph.edgelist ==> r.Err? && pathnodes == old(pathnodes)
      ensures start in callgraph.edgelist ==>
                && r.Ok? && pathnodes.Some?
                && (forall n :: n in pathnodes.value <==> Reachable(callgraph, start, n))
    {
      var cg := callgraph;
      if start !in cg.edgelist {
        return Err("KeyError: '" + start + "'");
      }
      ghost var u := Universe(cg, start);
      ReachableStart(cg, start);
      var nodes := AddReachable(cg, start, {start}, start);
      var count := |nodes|;
      SubsetCardinality(nodes, u);
      while true
        invariant start in nodes && nodes <= u
        invariant SuccessorsIn(cg, start, start, nodes)
        invariant forall n :: n in nodes ==> Reachable(cg, start, n)
        invariant count == |nodes| <= |u|
        decreases |u| - count
      {
        var next := Pass(cg, start, nodes);
        SubsetCardinality(nodes, next);
        SubsetCardinality(next, u);
        if |next| == count {
          ReachableFromFixedPoint(cg, start, nodes);
          break;
        }
        nodes := next;
        count := |nodes|;
      }
      pathnodes := Some(nodes);
      r := Ok(());
    }

    /** The nodes of restrict_nodes: every graph node and every callee, added
        one by one. */
    method CollectNodes() returns (nodes: set<string>)
      requires WellFormed(callgraph)
      ensures nodes == AllNodes(callgraph)
    {
      var cg := callgraph;
      nodes := {};
      for i := 0 to |cg.nodes|
        invariant nodes == (set n | n in cg.nodes[..i])
                           + (set n, d | n in cg.nodes[..i] && n in cg.edgelist && d in cg.edgelist[n] :: d)
      {
        var n := cg.nodes[i];
        assert cg.nodes[..i + 1] == cg.nodes[..i] + [n];
        nodes := nodes + {n};
        nodes := AddTargets(nodes, cg.edgelist[n]);
      }
      assert cg.nodes[..|cg.nodes|] == cg.nodes;
    }

    /** restrict_nodes, as written.  Without a start address every node is
        kept.  With one and a sink, the paths to the first sink are to be
        added to `pathnodes`, but that attribute is read before it is ever
        assigned (the constructor sets `_pathnodes`), so the call raises
        unless an earlier call assigned it. */
    method RestrictNodes() returns (r: Result<(), string>)
      requires WellFormed(callgraph)
      modifies this`pathnodes
      ensures startaddr.None? || |sinks| == 0 ==> r.Ok? && pathnodes == Some(AllNodes(callgraph))
      ensures startaddr.Some? && |sinks| > 0 && old(pathnodes).None? ==>
                r == Err("AttributeError: 'DotCallgraph' object has no attribute 'pathnodes'") && pathnodes == None
      ensures startaddr.Some? && |sinks| > 0 && old(pathnodes).Some? ==>
                var union := PathUnion(old(pathnodes).value, findPaths(startaddr.value, sinks[0]));
                r.Ok? && pathnodes == Some(if |union| == 0 then AllNodes(callgraph) else union)
    {
      var nodes := CollectNodes();
      if startaddr.None? {
        pathnodes := Some(nodes);
        return Ok(());
      }
      if |sinks| > 0 {
        var paths := findPaths(startaddr.value, sinks[0]);
        if pathnodes.None? {
          return Err("AttributeError: 'DotCallgraph' object has no attribute 'pathnodes'");
        }
        var acc := pathnodes.value;
        for i := 0 to |paths|
          invariant acc == PathUnion(pathnodes.value, paths[..i])
        {
          assert paths[..i + 1][..i] == paths[..i];
          acc := acc + Members(paths[i]);
        }
        assert paths[..|paths|] == paths;
        if |acc| == 0 {
          acc := nodes;
        }
        pathnodes := Some(acc);
      } else {
        pathnodes := Some(nodes);
      }
      r := Ok(());
    }

    /** restrict_nodes as evidently intended: the paths are added to the set
        the constructor initialises, and when no path is found every node is
        kept. */
    method RestrictNodesIntended()
      requires WellFormed(callgraph)
      modifies this`pathnodes, this`initialPathnodes
      ensures startaddr.None? || |sinks| == 0 ==> pathnodes == Some(AllNodes(callgraph))
      ensures startaddr.Some? && |sinks| > 0 ==>
                var union := PathUnion(old(initialPathnodes), findPaths(startaddr.value, sinks[0]));
                && initialPathnodes == (if |union| == 0 then AllNodes(callgraph) else union)
                && pathnodes == Some(initialPathnodes)
    {
      var nodes := CollectNodes();
      if startaddr.None? || |sinks| == 0 {
        pathnodes := Some(nodes);
        return;
      }
      var paths := findPaths(startaddr.value, sinks[0]);
      var acc := initialPathnodes;
      for i := 0 to |paths|
        invariant acc == PathUnion(initialPathnodes, paths[..i])
      {
        assert paths[..i + 1][..i] == paths[..i];
        acc := acc + Members(paths[i]);
      }
      assert paths[..|paths|] == paths;
      if |acc| == 0 {
        acc := nodes;
      }
      initialPathnodes := acc;
      pathnodes := Some(acc);
    }

    /** The calls add_cg_node makes: the node, only when it is kept. */
    function NodeCalls(kept: set<string>, n: string, color: string): (cs: seq<DotCall>)
      ensures |cs| <= 1
      ensures |cs| == 1 <==> n in kept
      ensures |cs| == 1 ==> cs[0] == AddNode(n, getname(n), color)
    {
      if n in kept then [AddNode(n, getname(n), color)] else []
    }

    /** The calls add_cg_edge makes: nothing for an undrawn callee, and the
        callee and the edge when both ends are kept. */
    function EdgeCalls(kept: set<string>, n: string, d: string): (cs: seq<DotCall>)
      ensures |cs| == 0 || |cs| == 2
      ensures |cs| == 2 <==> getcolor(d).Some? && n in kept && d in kept
      ensures |cs| == 2 ==> cs == [AddNode(d, getname(d), getcolor(d).value), AddEdge(n, d)]
    {
      if getcolor(d).None? then []
      else if n in kept && d in kept then [AddNode(d, getname(d), getcolor(d).value), AddEdge(n, d)]
      else []
    }

    /** The calls for the callees `ds` of node `n`, in order. */
    function EdgesCalls(kept: set<string>, n: string, ds: seq<string>): seq<DotCall>
    {
      if |ds| == 0 then [] else EdgesCalls(kept, n, ds[..|ds| - 1]) + EdgeCalls(kept, n, ds[|ds| - 1])
    }

    /** The calls build makes for one node of a well-formed graph: nothing
        for an undrawn node, otherwise the node and then its edges. */
    function DrawCalls(kept: set<string>, n: string): seq<DotCall>
    {
      if getcolor(n).None? || n !in callgraph.edgelist then []
      else NodeCalls(kept, n, getcolor(n).value) + EdgesCalls(kept, n, callgraph.edgelist[n])
    }

    /** The calls build makes for the first k nodes of the graph, in
        order. */
    function BuildCalls(kept: set<string>, k: nat): seq<DotCall>
      requires k <= |callgraph.nodes|
    {
      if k == 0 then [] else BuildCalls(kept, k - 1) + DrawCalls(kept, callgraph.nodes[k - 1])
    }

    /** Every call for the edges of `n` is about kept nodes: each node added
        is kept and drawn, and each edge leaves `n` for a kept, drawn node. */
    lemma {:induction false} EdgesCallsKept(kept: set<string>, n: string, ds: seq<string>)
      ensures forall c :: c in EdgesCalls(kept, n, ds) ==>
                if c.AddNode? then c.name in kept && getcolor(c.name).Some?
                else c.src == n && c.src in kept && c.dst in kept && getcolor(c.dst).Some?
      decreases |ds|
    {
      if |ds| > 0 {
        EdgesCallsKept(kept, n, ds[..|ds| - 1]);
      }
    }

    /** Every call build makes is about kept nodes: each node added is kept
        and drawn, and each edge joins two kept, drawn nodes. */
    lemma {:induction false} BuildCallsKept(kept: set<string>, k: nat)
      requires k <= |callgraph.nodes|
      ensures forall c :: c in BuildCalls(kept, k) ==>
                if c.AddNode? then c.name in kept && getcolor(c.name).Some?
                else c.src in kept && c.dst in kept && getcolor(c.src).Some? && getcolor(c.dst).Some?
      decreases k
    {
      if k > 0 {
        var n := callgraph.nodes[k - 1];
        BuildCallsKept(kept, k - 1);
        if getcolor(n).Some? && n in callgraph.edgelist {
          EdgesCallsKept(kept, n, callgraph.edgelist[n]);
        }
      }
    }

    /** add_cg_node. */
    method AddCgNode(n: string, color: string)
      requires pathnodes.Some?
      modifies this`dotgraph
      ensures dotgraph == old(dotgraph) + NodeCalls(pathnodes.value, n, color)
    {
      if n in pathnodes.value {
        dotgraph := dotgraph + [AddNode(n, getname(n), color)];
      }
    }

    /** add_cg_edge (the call count only labels the edge, which the dot
        graph does not receive). */
    method AddCgEdge(n: string, d: string, count: int, color: string)
      requires pathnodes.Some?
      modifies this`dotgraph
      ensures dotgraph == old(dotgraph) + EdgeCalls(pathnodes.value, n, d)
    {
      if getcolor(d).None? {
        return;
      }
      if n in pathnodes.value && d in pathnodes.value {
        dotgraph := dotgraph + [AddNode(d, getname(d), getcolor(d).value), AddEdge(n, d)];
      }
    }

    /** The edges of a drawn node, one add_cg_edge per callee. */
    method AddEdges(n: string, color: string)
      requires WellFormed(callgraph) && pathnodes.Some? && n in callgraph.nodes
      modifies this`dotgraph
      ensures dotgraph == old(dotgraph) + EdgesCalls(pathnodes.value, n, callgraph.edgelist[n])
    {
      var ds := callgraph.edgelist[n];
      var es := callgraph.edges[n];
      for j := 0 to |ds|
        invariant dotgraph == old(dotgraph) + EdgesCalls(pathnodes.value, n, ds[..j])
      {
        assert ds[..j + 1][..j] == ds[..j];
        AddCgEdge(n, ds[j], es[ds[j]], color);
      }
      assert ds[..|ds|] == ds;
    }

    /** The body of build's loop for one node: nothing for an undrawn node,
        otherwise the node and its edges. */
    method DrawNode(n: string)
      requires WellFormed(callgraph) && pathnodes.Some? && n in callgraph.nodes
      modifies this`dotgraph
      ensures dotgraph == old(dotgraph) + DrawCalls(pathnodes.value, n)
    {
      var color := getcolor(n);
      if color.None? {
        return;
      }
      AddCgNode(n, color.value);
      AddEdges(n, color.value);
    }

    /** One round of build's loop: node i is drawn after the nodes before
        it. */
    method DrawNext(kept: set<string>, i: nat, ghost start: seq<DotCall>)
      requires WellFormed(callgraph) && pathnodes == Some(kept) && i < |callgraph.nodes|
      requires dotgraph == start + BuildCalls(kept, i)
      modifies this`dotgraph
      ensures dotgraph == start + BuildCalls(kept, i + 1)
    {
      DrawNode(callgraph.nodes[i]);
      AppendAssoc(start, BuildCalls(kept, i), DrawCalls(kept, callgraph.nodes[i]));
    }

    /** build's loop: every node of the graph, in order. */
    method DrawAll()
      requires WellFormed(callgraph) && pathnodes.Some?
      modifies this`dotgraph
      ensures dotgraph == old(dotgraph) + BuildCalls(pathnodes.value, |callgraph.nodes|)
    {
      var kept := pathnodes.value;
      assert old(dotgraph) + BuildCalls(kept, 0) == old(dotgraph);
      for i := 0 to |callgraph.nodes|
        invariant pathnodes == Some(kept)
        invariant dotgraph == old(dotgraph) + BuildCalls(kept, i)
      {
        DrawNext(kept, i, old(dotgraph));
      }
    }

    /** build.  With sinks the nodes are restricted again first: all nodes
        without a start address, and otherwise the already assigned path
        nodes joined with the paths to the first sink (every node when that
        is empty); then every drawn node is added with its edges.  Since
        `pathnodes` is assigned here, the restriction always succeeds. */
    method Build() returns (r: Result<seq<DotCall>, string>)
      requires WellFormed(callgraph) && pathnodes.Some?
      modifies this`dotgraph, this`pathnodes
      ensures r.Ok? ==> pathnodes.Some? && r.value == dotgraph && dotgraph == old(dotgraph) + BuildCalls(pathnodes.value, |callgraph.nodes|)
      ensures |sinks| == 0 ==> r.Ok? && pathnodes == old(pathnodes)
      ensures |sinks| > 0 && startaddr.None? ==> r.Ok? && pathnodes == Some(AllNodes(callgraph))
      ensures |sinks| > 0 && startaddr.Some? ==>
                var union := PathUnion(old(pathnodes).value, findPaths(startaddr.value, sinks[0]));
                r.Ok? && pathnodes == Some(if |union| == 0 then AllNodes(callgraph) else union)
    {
      if |sinks| > 0 {
        var restricted := RestrictNodes();
        if restricted.Err? {
          return Err(restricted.error);
        }
      }
      DrawAll();
      r := Ok(dotgraph);
    }
  }

  /** Appending to a concatenation appends to its second part. */
  lemma AppendAssoc<T>(a: seq<T>, b: seq<T>, c: seq<T>)
    ensures (a + b) + c == a + (b + c)
  {
  }

  /** The nodes of `base` and of every path. */
  function PathUnion(base: set<string>, paths: seq<seq<string>>): (u: set<string>)
    ensures forall n :: n in u <==> n in base || exists i :: 0 <= i < |paths| && n in paths[i]
  {
    if |paths| == 0 then base else PathUnion(base, paths[..|paths| - 1]) + Members(paths[|paths| - 1])
  }

  /** The constructor: the attributes, then restrict_nodes_from when there is
      a start address and no sink, restrict_nodes otherwise. */
  method New(graphname: string, callgraph: Callgraph, sinks: seq<string>, startaddr: Option<string>,
             getcolor: string -> Option<string>, getname: string -> string,
             findPaths: (string, string) -> seq<seq<string>>) returns (r: Result<DotCallgraph, string>)
    requires WellFormed(callgraph)
    ensures r.Ok? ==> fresh(r.value) && r.value.pathnodes.Some? && r.value.callgraph == callgraph
                      && r.value.sinks == sinks && r.value.startaddr == startaddr && r.value.dotgraph == []
    ensures r.Ok? && startaddr.Some? && startaddr.value != "" && |sinks| == 0 ==>
              forall n :: n in r.value.pathnodes.value <==> Reachable(callgraph, startaddr.value, n)
    ensures startaddr.None? ==> r.Ok? && r.value.pathnodes == Some(AllNodes(callgraph))
    ensures startaddr.Some? && startaddr.value != "" && |sinks| == 0 ==> (r.Ok? <==> startaddr.value in callgraph.edgelist)
    ensures startaddr == Some("") && |sinks| == 0 ==> r.Ok? && r.value.pathnodes == Some(AllNodes(callgraph))
    ensures startaddr.Some? && |sinks| > 0 ==> r.Err?
  {
    var g := new DotCallgraph.Init(graphname, callgraph, sinks, startaddr, getcolor, getname, findPaths);
    var restricted: Result<(), string>;
    if g.RestrictsFrom() {
      restricted := g.RestrictNodesFrom(startaddr.value);
    } else {
      restricted := g.RestrictNodes();
    }
    if restricted.Err? {
      return Err(restricted.error);
    }
    r := Ok(g);
  }
}
