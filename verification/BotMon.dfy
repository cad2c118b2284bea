/**
 The processor graph of the bot monitor: edges are made while the nodes are read, in whatever order,
 and then taken away again by Kahn's topological sort.
 */
module BotMon {
  import opened Digraph

  class Node {
    const requiring: seq<string>
    const providing: seq<string>
    /** Nodes n with an edge (this, n). */
    var src: set<Node>
    /** Nodes n with an edge (n, this). */
    var dst: set<Node>

    constructor (requiring: seq<string>, providing: seq<string>)
      ensures this.requiring == requiring && this.providing == providing && src == {} && dst == {}
    {
      this.requiring, this.providing := requiring, providing;
      src, dst := {}, {};
    }

    method AddEdgeTo(node: Node)
      modifies this`src, node`dst
      ensures src == old(src) + {node} && node.dst == old(node.dst) + {this}
    {
      src := src + {node};
      node.dst := node.dst + {this};
    }

    method RemoveEdgeTo(node: Node)
      requires node in src && this in node.dst
      modifies this`src, node`dst
      ensures src == old(src) - {node} && node.dst == old(node.dst) - {this}
    {
      src := src - {node};
      node.dst := node.dst - {this};
    }
  }

  // ----- The edges the tags call for

  /** An edge from every provider of a tag to everything that requires it. */
  ghost function Wanted(nodes: set<Node>): set<(Node, Node)> {
    set a, b | a in nodes && b in nodes && Shares(a, b) :: (a, b)
  }

  predicate Shares(a: Node, b: Node) {
    exists t :: t in a.providing && t in b.requiring
  }

  /** No tag is provided twice, whether by two nodes or twice by one. */
  ghost predicate ProvidedOnce(nodes: set<Node>) {
    && (forall n | n in nodes :: NoRepeats(n.providing))
    && (forall m, n, t | m in nodes && n in nodes && t in m.providing && t in n.providing :: m == n)
  }

  /** The nodes' edge sets hold exactly `edges`, at both ends. */
  ghost predicate HasEdges(nodes: set<Node>, edges: set<(Node, Node)>)
    reads nodes
  {
    && (forall a | a in nodes :: a.src <= nodes && a.dst <= nodes)
    && (forall a, b | a in nodes && b in nodes :: b in a.src <==> (a, b) in edges)
    && (forall a, b | a in nodes && b in nodes :: a in b.dst <==> (a, b) in edges)
  }

  /** The nodes that provide nothing left to wait for, in some order. */
  ghost predicate AreReady(nodes: set<Node>, done: set<Node>, ready: seq<Node>)
    reads nodes
  {
    NoRepeats(ready) && forall n | n in nodes :: n in ready <==> n !in done && n.dst == {}
  }

  ghost function Elements<T>(s: seq<T>): set<T> {
    set x | x in s
  }

  /** Everything in `order` comes after all its predecessors. */
  ghost predicate Justified(edges: set<(Node, Node)>, order: seq<Node>) {
    forall j, e | 0 <= j < |order| && e in edges && e.1 == order[j] :: e.0 in order[..j]
  }

  /** The edges that remain once the nodes in `order` have been taken. */
  ghost function Left(edges: set<(Node, Node)>, order: seq<Node>): set<(Node, Node)> {
    set e | e in edges && e.0 !in order
  }

  /** ... and, of the edges out of `node`, those into `waiting`. */
  ghost function LeftInto(edges: set<(Node, Node)>, order: seq<Node>, node: Node, waiting: set<Node>)
    : set<(Node, Node)>
  {
    set e | e in edges && e.0 !in order && (e.0 == node ==> e.1 in waiting)
  }

  ghost predicate Within(nodes: set<Node>, edges: set<(Node, Node)>) {
    forall e | e in edges :: e.0 in nodes && e.1 in nodes
  }

  /** What holds between two rounds of the sort. */
  ghost predicate Sorting(nodes: set<Node>, edges: set<(Node, Node)>, order: seq<Node>, ready: seq<Node>)
    reads nodes
  {
    && Elements(order) <= nodes && Elements(ready) <= nodes
    && NoRepeats(order) && Justified(edges, order)
    && HasEdges(nodes, Left(edges, order))
    && AreReady(nodes, Elements(order), ready)
  }

  datatype Outcome = Order(nodes: seq<Node>) | AssertionError | DuplicateProvider

  /** filter(in-degree is 0), over the nodes in any order. */
  method Sources(nodes: set<Node>) returns (ready: seq<Node>)
    ensures Elements(ready) <= nodes && AreReady(nodes, {}, ready)
  {
    ready := [];
    var todo := nodes;
    while todo != {}
      invariant todo <= nodes && NoRepeats(ready)
      invariant forall n :: n in ready <==> n in nodes && n !in todo && n.dst == {}
      decreases todo
    {
      var n :| n in todo;
      todo := todo - {n};
      if |n.dst| == 0 {
        ready := ready + [n];
      }
    }
  }

  /** Inside a round: `node` is taken, and its edges into `waiting` are still there. */
  ghost predicate Releasing(nodes: set<Node>, edges: set<(Node, Node)>, order: seq<Node>, node: Node,
                            waiting: set<Node>, ready: seq<Node>)
    reads nodes
  {
    && node in nodes && node !in order && Elements(order) <= nodes && waiting <= nodes && Elements(ready) <= nodes
    && Justified(edges, order + [node])
    && HasEdges(nodes, LeftInto(edges, order, node, waiting))
    && AreReady(nodes, Elements(order) + {node}, ready)
  }

  /** Takes away the edge from `node` to `pn`; if that was the last into `pn`, it becomes ready. */
  method Release(nodes: set<Node>, ghost edges: set<(Node, Node)>, ghost order: seq<Node>, node: Node,
                 ghost waiting: set<Node>, pn: Node, ready: seq<Node>) returns (ready': seq<Node>)
    requires Within(nodes, edges) && Releasing(nodes, edges, order, node, waiting, ready)
    requires pn in waiting && (node, pn) in edges
    modifies nodes
    ensures Releasing(nodes, edges, order, node, waiting - {pn}, ready')
  {
    NotTaken(edges, order, node, pn);
    assert pn !in ready;
    node.RemoveEdgeTo(pn);
    ready' := if |pn.dst| == 0 then ready + [pn] else ready;
  }

  /** What a node leads to is not taken before it, and not the node itself. */
  lemma NotTaken(edges: set<(Node, Node)>, order: seq<Node>, node: Node, pn: Node)
    requires node !in order && Justified(edges, order + [node]) && (node, pn) in edges
    ensures pn !in order && pn != node
  {
    var e, all := (node, pn), order + [node];
    forall j | 0 <= j < |all|
      ensures all[j] != pn
    {
      assert all[..j] == order[..j] && e in edges;
    }
    assert all[|order|] == node && forall j | 0 <= j < |order| :: order[j] == all[j];
  }

  /** One round: the last ready node is taken, its edges removed, and the nodes this frees become ready. */
  method Emit(nodes: set<Node>, ghost edges: set<(Node, Node)>, order: seq<Node>, ready: seq<Node>)
    returns (order': seq<Node>, ready': seq<Node>)
    requires Within(nodes, edges) && ready != [] && Sorting(nodes, edges, order, ready)
    modifies nodes
    ensures |order'| == |order| + 1 && Sorting(nodes, edges, order', ready')
  {
    var node := ready[|ready| - 1];
    ready' := ready[..|ready| - 1];
    order' := order + [node];
    var waiting := node.src;
    TakeNode(nodes, edges, order, ready);
    while waiting != {}
      invariant Releasing(nodes, edges, order, node, waiting, ready')
      invariant forall pn | pn in waiting :: (node, pn) in edges
      decreases waiting
    {
      var pn :| pn in waiting;
      ready' := Release(nodes, edges, order, node, waiting, pn, ready');
      waiting := waiting - {pn};
    }
    assert LeftInto(edges, order, node, {}) == Left(edges, order');
    assert Elements(order') == Elements(order) + {node};
  }

  /** Before any of its edges is removed, a round starts as it should. */
  lemma TakeNode(nodes: set<Node>, edges: set<(Node, Node)>, order: seq<Node>, ready: seq<Node>)
    requires Within(nodes, edges) && ready != [] && Sorting(nodes, edges, order, ready)
    ensures var node := ready[|ready| - 1];
            && Releasing(nodes, edges, order, node, node.src, ready[..|ready| - 1])
            && forall pn | pn in node.src :: (node, pn) in edges
  {
    var node := ready[|ready| - 1];
    assert node in Elements(ready) && node in nodes && node in ready;
    assert LeftInto(edges, order, node, node.src) == Left(edges, order);
    assert node !in order by { assert node !in Elements(order); }
    forall j, e | 0 <= j < |order + [node]| && e in edges && e.1 == (order + [node])[j]
      ensures e.0 in (order + [node])[..j]
    {
      if j < |order| {
        assert (order + [node])[..j] == order[..j];
      } else {
        assert (order + [node])[..j] == order;
        assert e == (e.0, node);
        assert e in Left(edges, order) <==> e.0 in node.dst;
      }
    }
  }

  /** With nothing ready and nodes left, the nodes left over contain a cycle. */
  lemma LeftoverCyclic(nodes: set<Node>, edges: set<(Node, Node)>, order: seq<Node>)
    requires Within(nodes, edges) && Sorting(nodes, edges, order, []) && Elements(order) != nodes
    ensures Cyclic(edges)
  {
    var stuck := nodes - Elements(order);
    forall x | x in stuck
      ensures HasPredecessor(edges, stuck, x)
    {
      assert x !in Elements(order) && x.dst != {};
      var a :| a in x.dst;
      assert (a, x) in Left(edges, order);
      assert (a, x).0 !in order;
      assert a in stuck && (a, x) in edges;
    }
    StuckIsCyclic(edges, stuck);
  }

  /** With every node taken, the order is a topological one, and the graph has no cycle. */
  lemma CompleteOrder(nodes: set<Node>, edges: set<(Node, Node)>, order: seq<Node>)
    requires Within(nodes, edges) && Elements(order) == nodes && NoRepeats(order) && Justified(edges, order)
    ensures Topological(edges, order) && !Cyclic(edges)
  {
    forall e | e in edges
      ensures exists i, j :: 0 <= i < j < |order| && order[i] == e.0 && order[j] == e.1
    {
      assert e.1 in Elements(order);
      var j :| 0 <= j < |order| && order[j] == e.1;
      assert e.0 in order[..j];
      var i :| 0 <= i < j && order[..j][i] == e.0;
    }
    OrderedIsAcyclic(edges, order);
  }

  /** An order as long as there are nodes has all of them. */
  lemma LongEnough(nodes: set<Node>, order: seq<Node>)
    requires NoRepeats(order) && Elements(order) <= nodes
    ensures |order| <= |nodes| && (|order| == |nodes| <==> Elements(order) == nodes)
  {
    LengthOfSet(order);
    assert Elements(order) == set x | x in order;
    assert nodes == Elements(order) + (nodes - Elements(order));
  }

  /** Kahn's algorithm on edges already made. */
  method Kahn(nodes: set<Node>, ghost edges: set<(Node, Node)>) returns (r: Outcome)
    requires HasEdges(nodes, edges) && Within(nodes, edges)
    modifies nodes
    ensures r.Order? <==> nodes != {} && !Cyclic(edges)
    ensures !r.Order? ==> r == AssertionError
    ensures r.Order? ==> NoRepeats(r.nodes) && Elements(r.nodes) == nodes && Topological(edges, r.nodes)
  {
    hide Cyclic, Topological;
    var order: seq<Node> := [];
    var ready := Sources(nodes);
    assert Elements(order) == {} && Left(edges, []) == edges;
    if |ready| == 0 {
      if nodes != {} { LeftoverCyclic(nodes, edges, []); }
      return AssertionError;
    }
    assert nodes != {} by { assert ready[0] in Elements(ready); }
    while |ready| > 0
      invariant Sorting(nodes, edges, order, ready)
      decreases |nodes| - |order|
    {
      LongEnough(nodes, order);
      assert ready[0] in Elements(ready) && ready[0] in ready;
      order, ready := Emit(nodes, edges, order, ready);
    }
    LongEnough(nodes, order);
    if |order| != |nodes| {
      LeftoverCyclic(nodes, edges, order);
      return AssertionError;
    }
    CompleteOrder(nodes, edges, order);
    return Order(order);
  }

  // ----- Making the edges while reading the tags

  class Tag {
    var pending: seq<Node>
    var provider: Node?

    constructor ()
      ensures pending == [] && provider == null
    {
      pending, provider := [], null;
    }
  }

  class TagDict {
    var entries: map<string, Tag>

    constructor ()
      ensures entries == map[]
    {
      entries := map[];
    }

    /** Reading a missing key enters a new tag under it. */
    method Get(name: string) returns (tag: Tag)
      modifies this
      ensures name in entries && tag == entries[name]
      ensures name in old(entries) ==> entries == old(entries)
      ensures name !in old(entries) ==>
                entries == old(entries)[name := tag] && fresh(tag) && tag.pending == [] && tag.provider == null
    {
      if name !in entries {
        var v := new Tag();
        entries := entries[name := v];
      }
      tag := entries[name];
    }
  }

  /** The edges for the provisions and requirements read so far. */
  ghost function Made(nodes: set<Node>, prov: set<(Node, string)>, req: set<(Node, string)>): set<(Node, Node)> {
    set a, b | a in nodes && b in nodes && Linked(prov, req, a, b) :: (a, b)
  }

  ghost predicate Linked(prov: set<(Node, string)>, req: set<(Node, string)>, a: Node, b: Node) {
    exists t :: (a, t) in prov && (b, t) in req
  }

  /** A tag knows its provider once there is one, and until then everything that waits for it. */
  ghost predicate TagKnows(tag: Tag, name: string, prov: set<(Node, string)>, req: set<(Node, string)>)
    reads tag
  {
    if tag.provider == null then
      && (forall p | p in prov :: p.1 != name)
      && (forall n | n in tag.pending :: (n, name) in req)
      && (forall q | q in req && q.1 == name :: q.0 in tag.pending)
    else
      && tag.pending == []
      && (tag.provider, name) in prov && forall p | p in prov && p.1 == name :: p.0 == tag.provider
  }

  /** The table and the edges agree with what has been read. */
  ghost predicate Recorded(nodes: set<Node>, dict: TagDict, prov: set<(Node, string)>, req: set<(Node, string)>)
    reads nodes, dict, dict.entries.Values
  {
    && (forall p | p in prov + req :: p.0 in nodes && p.1 in dict.entries)
    && (forall s, t | s in dict.entries && t in dict.entries && dict.entries[s] == dict.entries[t] :: s == t)
    && (forall t | t in dict.entries :: TagKnows(dict.entries[t], t, prov, req))
    && HasEdges(nodes, Made(nodes, prov, req))
  }

  /** Entering a tag that nothing has mentioned changes nothing that is recorded. */
  method Entry(nodes: set<Node>, dict: TagDict, name: string, ghost prov: set<(Node, string)>,
               ghost req: set<(Node, string)>)
    returns (tag: Tag)
    requires Recorded(nodes, dict, prov, req)
    modifies dict
    ensures fresh(dict.entries.Values - old(dict.entries.Values))
    ensures Recorded(nodes, dict, prov, req) && name in dict.entries && tag == dict.entries[name]
  {
    hide HasEdges;
    tag := dict.Get(name);
    assert forall t | t in dict.entries && t != name ::
        t in old(dict.entries) && dict.entries[t] == old(dict.entries)[t];
  }

  method Link(nodes: set<Node>, a: Node, b: Node, ghost edges: set<(Node, Node)>)
    requires a in nodes && b in nodes && HasEdges(nodes, edges)
    modifies nodes
    ensures HasEdges(nodes, edges + {(a, b)})
  {
    a.AddEdgeTo(b);
  }

  lemma MadeByRequirement(nodes: set<Node>, prov: set<(Node, string)>, req: set<(Node, string)>, p: Node?, node: Node,
                          name: string)
    requires node in nodes && (p != null ==> p in nodes && (p, name) in prov)
    requires forall q | q in prov && q.1 == name :: q.0 == p
    ensures Made(nodes, prov, req + {(node, name)}) == Made(nodes, prov, req) + if p == null then {} else {(p, node)}
  {
    forall a, b | a in nodes && b in nodes
      ensures Linked(prov, req + {(node, name)}, a, b) <==> Linked(prov, req, a, b) || (p == a && b == node)
    {
      if t :| (a, t) in prov && (b, t) in req + {(node, name)} {
        assert (a, t).1 == t && (a, t).0 == a;
      }
      if t :| (a, t) in prov && (b, t) in req {
        assert (b, t) in req + {(node, name)};
      }
      if p == a && b == node { assert (b, name) in req + {(node, name)}; }
    }
  }

  ghost function From(node: Node, to: set<Node>): set<(Node, Node)> {
    set b | b in to :: (node, b)
  }

  lemma MadeByProvision(nodes: set<Node>, prov: set<(Node, string)>, req: set<(Node, string)>, node: Node,
                        name: string, pending: set<Node>)
    requires node in nodes && pending <= nodes && (forall b | b in pending :: (b, name) in req)
    requires forall q | q in req && q.1 == name :: q.0 in pending
    ensures Made(nodes, prov + {(node, name)}, req) == Made(nodes, prov, req) + From(node, pending)
  {
    forall a, b | a in nodes && b in nodes
      ensures Linked(prov + {(node, name)}, req, a, b) <==> Linked(prov, req, a, b) || (a == node && b in pending)
    {
      if t :| (a, t) in prov + {(node, name)} && (b, t) in req {
        assert (b, t).1 == t && (b, t).0 == b;
      }
      if t :| (a, t) in prov && (b, t) in req {
        assert (a, t) in prov + {(node, name)};
      }
      if a == node && b in pending { assert (a, name) in prov + {(node, name)}; }
    }
  }

  /** Reads that `node` requires `name`. */
  method ReadRequired(nodes: set<Node>, dict: TagDict, node: Node, name: string,
                      ghost prov: set<(Node, string)>, ghost req: set<(Node, string)>)
    requires node in nodes && Recorded(nodes, dict, prov, req)
    modifies nodes, dict, dict.entries.Values
    ensures fresh(dict.entries.Values - old(dict.entries.Values))
    ensures Recorded(nodes, dict, prov, req + {(node, name)})
  {
    hide HasEdges, Made, TagKnows;
    var tag := Entry(nodes, dict, name, prov, req);
    if tag.provider == null {
      AddPending(nodes, dict, tag, node, name, prov, req);
    } else {
      AddLink(nodes, dict, tag, node, name, prov, req);
    }
  }

  method AddPending(nodes: set<Node>, dict: TagDict, tag: Tag, node: Node, name: string,
                    ghost prov: set<(Node, string)>, ghost req: set<(Node, string)>)
    requires node in nodes && Recorded(nodes, dict, prov, req)
    requires name in dict.entries && tag == dict.entries[name] && tag.provider == null
    modifies tag
    ensures Recorded(nodes, dict, prov, req + {(node, name)})
  {
    hide HasEdges, Made;
    MadeByRequirement(nodes, prov, req, null, node, name);
    assert Made(nodes, prov, req) + {} == Made(nodes, prov, req);
    tag.pending := tag.pending + [node];
  }

  method AddLink(nodes: set<Node>, dict: TagDict, tag: Tag, node: Node, name: string,
                 ghost prov: set<(Node, string)>, ghost req: set<(Node, string)>)
    requires node in nodes && Recorded(nodes, dict, prov, req)
    requires name in dict.entries && tag == dict.entries[name] && tag.provider != null
    modifies nodes
    ensures Recorded(nodes, dict, prov, req + {(node, name)})
  {
    hide HasEdges, Made;
    MadeByRequirement(nodes, prov, req, tag.provider, node, name);
    Link(nodes, tag.provider, node, Made(nodes, prov, req));
  }

  /** Reads that `node` provides `name`; false if something provides it already. */
  method ReadProvided(nodes: set<Node>, dict: TagDict, node: Node, name: string,
                      ghost prov: set<(Node, string)>, ghost req: set<(Node, string)>) returns (ok: bool)
    requires node in nodes && Recorded(nodes, dict, prov, req)
    modifies nodes, dict, dict.entries.Values
    ensures fresh(dict.entries.Values - old(dict.entries.Values))
    ensures ok <==> forall p | p in prov :: p.1 != name
    ensures ok ==> Recorded(nodes, dict, prov + {(node, name)}, req)
  {
    hide HasEdges, Made;
    var tag := Entry(nodes, dict, name, prov, req);
    if tag.provider != null {
      return false;
    }
    var pending := tag.pending;
    MadeByProvision(nodes, prov, req, node, name, Elements(pending));
    LinkAll(nodes, node, pending, Made(nodes, prov, req));
    tag.provider := node;
    tag.pending := [];
    return true;
  }

  method LinkAll(nodes: set<Node>, node: Node, pending: seq<Node>, ghost edges: set<(Node, Node)>)
    requires node in nodes && Elements(pending) <= nodes && HasEdges(nodes, edges)
    modifies nodes
    ensures HasEdges(nodes, edges + From(node, Elements(pending)))
  {
    hide HasEdges, From;
    FromParts(node, pending, 0, edges);
    for i := 0 to |pending|
      invariant HasEdges(nodes, edges + From(node, Elements(pending[..i])))
    {
      assert pending[i] in Elements(pending);
      Link(nodes, node, pending[i], edges + From(node, Elements(pending[..i])));
      FromParts(node, pending, i, edges);
    }
    assert pending[..|pending|] == pending;
  }

  lemma FromParts(node: Node, pending: seq<Node>, i: nat, edges: set<(Node, Node)>)
    requires i <= |pending|
    ensures edges + From(node, Elements(pending[..0])) == edges
    ensures i < |pending| ==>
      edges + From(node, Elements(pending[..i])) + {(node, pending[i])} == edges +
          From(node, Elements(pending[..i + 1]))
  {
    if i < |pending| { assert pending[..i + 1] == pending[..i] + [pending[i]]; }
  }

  ghost function ProvOf(nodes: set<Node>): set<(Node, string)> {
    set n, t | n in nodes && t in n.providing :: (n, t)
  }

  ghost function ReqOf(nodes: set<Node>): set<(Node, string)> {
    set n, t | n in nodes && t in n.requiring :: (n, t)
  }

  ghost function Pairs(node: Node, tags: seq<string>): set<(Node, string)> {
    set t | t in tags :: (node, t)
  }

  lemma PairsStep(node: Node, tags: seq<string>, i: nat, known: set<(Node, string)>)
    requires i < |tags|
    ensures known + Pairs(node, tags[..i]) + {(node, tags[i])} == known + Pairs(node, tags[..i + 1])
  {
    assert tags[..i + 1] == tags[..i] + [tags[i]];
  }

  lemma PairsEnds(node: Node, tags: seq<string>, known: set<(Node, string)>)
    ensures known + Pairs(node, tags[..0]) == known && tags[..|tags|] == tags
  {
  }

  lemma OfMore(node: Node, done: set<Node>)
    ensures ProvOf(done + {node}) == ProvOf(done) + Pairs(node, node.providing)
    ensures ReqOf(done + {node}) == ReqOf(done) + Pairs(node, node.requiring)
  {
  }

  /** Nothing in `done` provides what `node` provides, and `node` provides nothing twice, up to its tag `i`. */
  ghost predicate FirstProvides(done: set<Node>, node: Node, i: nat) {
    i <= |node.providing| && NoRepeats(node.providing[..i]) && forall p | p in ProvOf(done) ::
        p.1 !in node.providing[..i]
  }

  /** A provided tag is new exactly when `node` provides nothing in vain so far. */
  lemma NewTag(done: set<Node>, node: Node, i: nat)
    requires FirstProvides(done, node, i) && i < |node.providing|
    ensures (forall p | p in ProvOf(done) + Pairs(node, node.providing[..i]) :: p.1 != node.providing[i]) <==>
            FirstProvides(done, node, i + 1)
  {
    var tags, t := node.providing, node.providing[i];
    assert tags[..i + 1] == tags[..i] + [t];
    if t in tags[..i] { assert (node, t) in Pairs(node, tags[..i]) && (node, t).1 == t; }
  }

  lemma OnceMore(done: set<Node>, node: Node)
    requires node !in done && ProvidedOnce(done)
    ensures FirstProvides(done, node, |node.providing|) <==> ProvidedOnce(done + {node})
  {
    var tags := node.providing;
    assert tags[..|tags|] == tags;
    if FirstProvides(done, node, |tags|) {
      forall m, n, t | m in done + {node} && n in done + {node} && t in m.providing && t in n.providing
        ensures m == n
      {
        assert m in done ==> (m, t) in ProvOf(done);
        assert n in done ==> (n, t) in ProvOf(done);
      }
    }
  }

  /** One round of create_graph_edges; false is the fatal message about a second provider. */
  method ReadNode(nodes: set<Node>, dict: TagDict, node: Node, ghost done: set<Node>) returns (ok: bool)
    requires node in nodes && node !in done && ProvidedOnce(done)
    requires Recorded(nodes, dict, ProvOf(done), ReqOf(done))
    modifies nodes, dict, dict.entries.Values
    ensures fresh(dict.entries.Values - old(dict.entries.Values))
    ensures ok <==> ProvidedOnce(done + {node})
    ensures ok ==> Recorded(nodes, dict, ProvOf(done + {node}), ReqOf(done + {node}))
  {
    hide Recorded, ProvidedOnce, ProvOf, ReqOf, Pairs;
    ghost var prov, req := ProvOf(done), ReqOf(done);
    PairsEnds(node, node.providing, prov);
    for i := 0 to |node.providing|
      invariant fresh(dict.entries.Values - old(dict.entries.Values))
      invariant FirstProvides(done, node, i)
      invariant Recorded(nodes, dict, prov + Pairs(node, node.providing[..i]), req)
    {
      NewTag(done, node, i);
      ok := ReadProvided(nodes, dict, node, node.providing[i], prov + Pairs(node, node.providing[..i]), req);
      if !ok {
        NotFirst(done, node, i);
        return;
      }
      PairsStep(node, node.providing, i, prov);
    }
    OnceMore(done, node);
    OfMore(node, done);
    PairsEnds(node, node.requiring, req);
    for i := 0 to |node.requiring|
      invariant fresh(dict.entries.Values - old(dict.entries.Values))
      invariant Recorded(nodes, dict, ProvOf(done + {node}), req + Pairs(node, node.requiring[..i]))
    {
      ReadRequired(nodes, dict, node, node.requiring[i], ProvOf(done + {node}), req + Pairs(node, node.requiring[..i]));
      PairsStep(node, node.requiring, i, req);
    }
    return true;
  }

  lemma NotFirst(done: set<Node>, node: Node, i: nat)
    requires node !in done && ProvidedOnce(done) && i < |node.providing| && !FirstProvides(done, node, i + 1)
    ensures !ProvidedOnce(done + {node})
  {
    var tags := node.providing;
    OnceMore(done, node);
    assert tags[..|tags|] == tags && forall k | 0 <= k <= i :: tags[..i + 1][k] == tags[k];
  }

  class Graph {
    var nodes: set<Node>

    constructor ()
      ensures nodes == {}
    {
      nodes := {};
    }

    method AddNode(node: Node)
      modifies this
      ensures nodes == old(nodes) + {node}
    {
      nodes := nodes + {node};
    }

    /** Reads the nodes in any order; false is the fatal message about a second provider. */
    method CreateGraphEdges() returns (ok: bool)
      requires HasEdges(nodes, {})
      modifies nodes
      ensures ok <==> ProvidedOnce(nodes)
      ensures ok ==> HasEdges(nodes, Wanted(nodes))
    {
      hide HasEdges, ProvidedOnce;
      var dict := new TagDict();
      var todo := nodes;
      ghost var done: set<Node> := {};
      NothingRead(nodes);
      while todo != {}
        invariant fresh(dict) && fresh(dict.entries.Values)
        invariant done + todo == nodes && done !! todo
        invariant ProvidedOnce(done) && Recorded(nodes, dict, ProvOf(done), ReqOf(done))
        decreases todo
      {
        var node :| node in todo;
        ok := ReadNode(nodes, dict, node, done);
        if !ok {
          OnceOfFewer(done + {node}, nodes);
          return;
        }
        todo, done := todo - {node}, done + {node};
      }
      assert done == nodes;
      AllRead(nodes);
      return true;
    }

    method ExecutionOrder() returns (r: Outcome)
      requires HasEdges(nodes, {})
      modifies nodes
      ensures r == DuplicateProvider <==> !ProvidedOnce(nodes)
      ensures r.Order? <==> ProvidedOnce(nodes) && nodes != {} && !Cyclic(Wanted(nodes))
      ensures r.Order? ==> NoRepeats(r.nodes) && Elements(r.nodes) == nodes && Topological(Wanted(nodes), r.nodes)
      ensures r.Order? ==> (RunsOnlyWhenProvided(r.nodes) <==> EveryTagProvided(nodes))
    {
      var ok := CreateGraphEdges();
      if !ok {
        return DuplicateProvider;
      }
      r := Kahn(nodes, Wanted(nodes));
      if r.Order? {
        ProvidedIff(nodes, r.nodes);
      }
    }
  }

  // ----- Tags that nobody provides

  /** Every tag that a node requires is provided by some node. */
  ghost predicate EveryTagProvided(nodes: set<Node>) {
    forall n, t | n in nodes && t in n.requiring :: exists m | m in nodes :: t in m.providing
  }

  /** Every stage comes after stages that provide all the tags it requires. */
  ghost predicate RunsOnlyWhenProvided(order: seq<Node>) {
    forall j, t | 0 <= j < |order| && t in order[j].requiring :: ProvidedBefore(order, j, t)
  }

  ghost predicate ProvidedBefore(order: seq<Node>, j: nat, tag: string)
    requires j <= |order|
  {
    exists i | 0 <= i < j :: tag in order[i].providing
  }

  /** A stage never runs before its tags are provided exactly when every tag required is provided at all. */
  lemma ProvidedIff(nodes: set<Node>, order: seq<Node>)
    requires NoRepeats(order) && Elements(order) == nodes && Topological(Wanted(nodes), order)
    ensures RunsOnlyWhenProvided(order) <==> EveryTagProvided(nodes)
  {
    if EveryTagProvided(nodes) {
      forall j, t | 0 <= j < |order| && t in order[j].requiring
        ensures ProvidedBefore(order, j, t)
      {
        assert order[j] in Elements(order);
        var m :| m in nodes && t in m.providing;
        assert Shares(m, order[j]) && (m, order[j]) in Wanted(nodes);
        var a, b :| 0 <= a < b < |order| && order[a] == (m, order[j]).0 && order[b] == (m, order[j]).1;
        assert b == j;
      }
    }
    if RunsOnlyWhenProvided(order) {
      forall n, t | n in nodes && t in n.requiring
        ensures exists m | m in nodes :: t in m.providing
      {
        assert n in Elements(order);
        var j :| 0 <= j < |order| && order[j] == n;
        assert ProvidedBefore(order, j, t);
        var i :| 0 <= i < j && t in order[i].providing;
        assert order[i] in Elements(order);
      }
    }
  }

  /** A single stage that requires a tag nobody provides is ordered, and so runs, all the same. */
  method UnprovidedExample(tag: string) returns (node: Node, r: Outcome)
    ensures tag in node.requiring && r == Order([node]) && !RunsOnlyWhenProvided(r.nodes)
  {
    node := new Node([tag], []);
    var graph := new Graph();
    graph.AddNode(node);
    UnprovidedIsOrdered(node, tag);
    r := graph.ExecutionOrder();
    OnlyOne(r.nodes, node);
  }

  /** Such a stage makes no edge, so its graph has no cycle. */
  lemma UnprovidedIsOrdered(node: Node, tag: string)
    requires node.requiring == [tag] && node.providing == []
    ensures Wanted({node}) == {} && ProvidedOnce({node}) && !Cyclic(Wanted({node})) && !EveryTagProvided({node})
  {
    assert tag in node.requiring;
    assert Wanted({node}) == {};
    OrderedIsAcyclic(Wanted({node}), [node]);
  }

  lemma OnlyOne(order: seq<Node>, node: Node)
    requires NoRepeats(order) && Elements(order) == {node}
    ensures order == [node]
  {
    LongEnough({node}, order);
    assert order[0] in Elements(order);
  }

  lemma NothingRead(nodes: set<Node>)
    ensures ProvOf({}) == {} && ReqOf({}) == {} && ProvidedOnce({}) && Made(nodes, {}, {}) == {}
  {
  }

  lemma OnceOfFewer(few: set<Node>, nodes: set<Node>)
    requires few <= nodes && !ProvidedOnce(few)
    ensures !ProvidedOnce(nodes)
  {
  }

  /** Once every node is read, the edges made are the wanted ones, whatever the order of reading. */
  lemma AllRead(nodes: set<Node>)
    ensures Made(nodes, ProvOf(nodes), ReqOf(nodes)) == Wanted(nodes)
  {
    forall a, b | a in nodes && b in nodes
      ensures Linked(ProvOf(nodes), ReqOf(nodes), a, b) <==> Shares(a, b)
    {
      if t :| t in a.providing && t in b.requiring {
        assert (a, t) in ProvOf(nodes) && (b, t) in ReqOf(nodes);
      }
    }
  }
}
