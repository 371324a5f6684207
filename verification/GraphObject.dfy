/** The graph object: edges are linked into and out of their lists in place, field by field, and registered
    arrays of edge data are resized along with the graph. */
module GraphObject {
  import opened Graph

  /** Which links of edge `x` belong to list `id`. */
  function SideIn(s: Store, x: nat, id: ListId): Side
    requires x in s.edges
  {
    match id
    case All => A
    case In(_) => T
    case Out(n) => if s.edges[x].source == n then S else T
  }

  lemma SideOf(s: Store, h: Half)
    requires h.e in s.edges && EdgeOk(s, h.e)
    ensures SideIn(s, h.e, Owner(s, h)) == h.side
  {
  }

  /** The half at position `i` of a list. */
  lemma HalfAt(s: Store, id: ListId, i: nat)
    requires Linked(s) && id in s.lists && i < |s.lists[id]|
    ensures var x := EdgeAt(s.lists[id], i); x in s.edges && x != 0 && s.lists[id][i] == Half(x, SideIn(s, x, id))
  {
    var h := s.lists[id][i];
    assert ListOk(s, id) && h in s.lists[id] && MemberOk(s, id, h) && EdgeOk(s, h.e);
    SideOf(s, h);
  }

  class LGraph {
    const directed: bool
    var nodes: map<nat, Node>
    var edges: Edges
    var ends: Ends
    var edgesCount: nat
    var infos: seq<seq<nat>>
    var top: nat // the next address for a node or an edge
    ghost var lists: map<ListId, seq<Half>>

    ghost function St(): Store
      reads this
    {
      Store(directed, nodes, edges, ends, lists)
    }

    ghost predicate Valid()
      reads this
    {
      && Good(St()) && edgesCount == |lists[All]|
      && (forall k: nat :: k < |infos| ==> |infos[k]| == edgesCount)
      && top > 0 && (forall e: nat :: e in edges ==> e < top) && (forall n: nat :: n in nodes ==> n < top)
    }

    // ---- one list at a time ---------------------------------------------------------------------

    method SetListEnds(id: ListId, k: Ends)
      modifies this`ends, this`nodes
      ensures St() == SetEnds(old(St()), id, k)
    {
      match id {
        case All => ends := k;
        case Out(n) => if n in nodes { nodes := nodes[n := nodes[n].(outs := k)]; }
        case In(n) => if n in nodes { nodes := nodes[n := nodes[n].(ins := k)]; }
      }
    }

    function ListEnds(id: ListId): Ends
      reads this
    {
      match id
      case All => ends
      case Out(n) => if n in nodes then nodes[n].outs else Ends(0, 0)
      case In(n) => if n in nodes then nodes[n].ins else Ends(0, 0)
    }

    function SideOfEdge(x: nat, id: ListId): Side
      reads this
      requires x in edges
    {
      match id
      case All => A
      case In(_) => T
      case Out(n) => if edges[x].source == n then S else T
    }

    /** Links half `h` at the end of list `id`. */
    method AppendHalf(h: Half, id: ListId)
      requires Linked(St()) && Loose(St(), h) && id == Owner(St(), h)
      modifies this`ends, this`nodes, this`edges, this`lists
      ensures St() == Attach(old(St()), h)
    {
      ghost var s := St();
      ghost var l := lists[id];
      LooseAlone(s, h);
      assert ListOk(s, id) && EdgeOk(s, h.e);
      var k := ListEnds(id);
      if k.first == 0 {
        SetListEnds(id, Ends(h.e, h.e));
        lists := lists[id := [h]];
      } else {
        HalfAt(s, id, |l| - 1);
        var last := Half(k.last, SideOfEdge(k.last, id));
        edges := Put(edges, h, Get(edges, h).(prev := k.last));
        edges := Put(edges, last, Get(edges, last).(next := h.e));
        SetListEnds(id, k.(last := h.e));
        lists := lists[id := l + [h]];
      }
    }

    /** Links the neighbours of `h` in list `id` to each other. */
    method UnlinkHalf(h: Half, id: ListId, ghost i: nat)
      requires Linked(St()) && Sits(St(), h, i) && id == Owner(St(), h)
      modifies this`ends, this`nodes, this`edges, this`lists
      ensures Position(old(St()), id, i) && St() == Detach(old(St()), id, i)
    {
      ghost var s := St();
      ghost var l := lists[id];
      assert ListOk(s, id) && LinkOk(edges, l, i);
      PresentAll(s, id);
      var k, links := ListEnds(id), Get(edges, h);
      if i + 1 < |l| { HalfAt(s, id, i + 1); }
      if i > 0 { HalfAt(s, id, i - 1); }
      if k.first == h.e {
        if links.next != 0 {
          var next := Half(links.next, SideOfEdge(links.next, id));
          edges := SetPrev(edges, next, 0);
        } else {
          k := k.(last := 0);
        }
        k := k.(first := links.next);
      } else if k.last == h.e {
        var prev := Half(links.prev, SideOfEdge(links.prev, id));
        edges := SetNext(edges, prev, 0);
        k := k.(last := links.prev);
      } else {
        var next, prev := Half(links.next, SideOfEdge(links.next, id)), Half(links.prev, SideOfEdge(links.prev, id));
        edges := SetPrev(edges, next, links.prev);
        edges := SetNext(edges, prev, links.next);
      }
      SetListEnds(id, k);
      lists := lists[id := Deleted(l, i)];
    }

    /** Takes edge `e` out of the list of all edges, where the last one takes its place and its index. */
    method SwapOutEdge(e: nat, ghost i: nat)
      requires Linked(St()) && Sits(St(), Half(e, A), i) && edges[e].index == i && edgesCount == |lists[All]|
      modifies this`ends, this`edges, this`lists
      ensures Position(old(St()), All, i) && Present(old(edges), old(lists)[All])
      ensures St() == Reindexed(SwapOut(old(St()), i), old(lists)[All][|old(lists)[All]| - 1].e, i)
    {
      ghost var s, l := St(), lists[All];
      SwapReads(s, e, i);
      if edgesCount == 1 {
        ends := Ends(0, 0);
        ghost var t := SwapOut(s, i);
        assert SwapDeleted(l, i) == [];
        assert edges[e := edges[e].(index := i)] == edges;
        lists := lists[All := []];
      } else {
        var z := ends.last;
        if e == ends.first { SwapFirstIn(e, l); } else if e == ends.last { SwapLastIn(l); } else {
          SwapMiddleIn(e, i, l);
        }
        lists := lists[All := SwapDeleted(l, i)];
        edges := edges[z := edges[z].(index := edges[e].index)];
      }
    }

    /** The last edge becomes the first. */
    method SwapFirstIn(e: nat, ghost l: seq<Half>)
      requires |l| >= 2 && EdgeList(edges, l) && ends == Ends(l[0].e, l[|l| - 1].e) && e == l[0].e
      modifies this`ends, this`edges
      ensures EdgeList(old(edges), l) && edges == SwapFirst(old(edges), l)
      ensures var d := SwapDeleted(l, 0); ends == Ends(EdgeAt(d, 0), EdgeAt(d, |d| - 1))
    {
      LinkTable(edges, l, 0);
      LinkTable(edges, l, |l| - 1);
      var x, z := edges[e].all, ends.last;
      var v := edges[z].all.prev;
      var last := if x.next == z then z else v;
      ends := Ends(z, last);
      edges := FirstWrites(edges, Half(z, A), Half(x.next, A), Half(v, A), Half(last, A));
    }

    /** The last edge goes. */
    method SwapLastIn(ghost l: seq<Half>)
      requires |l| >= 2 && EdgeList(edges, l) && ends == Ends(l[0].e, l[|l| - 1].e)
      modifies this`ends, this`edges
      ensures EdgeList(old(edges), l) && edges == SwapLast(old(edges), l)
      ensures var d := SwapDeleted(l, |l| - 1); ends == Ends(EdgeAt(d, 0), EdgeAt(d, |d| - 1))
    {
      LinkTable(edges, l, |l| - 1);
      var v := edges[ends.last].all.prev;
      ends := ends.(last := v);
      edges := SetNext(edges, Half(v, A), 0);
      edges := SetBoth(edges, Half(ends.first, A), 0, Half(v, A), 0);
    }

    /** The last edge moves between the neighbours of `e`. */
    method SwapMiddleIn(e: nat, ghost i: nat, ghost l: seq<Half>)
      requires 0 < i && i + 1 < |l| && EdgeList(edges, l) && ends == Ends(l[0].e, l[|l| - 1].e) && e == l[i].e
      modifies this`ends, this`edges
      ensures EdgeList(old(edges), l) && edges == SwapMiddle(old(edges), l, i)
      ensures var d := SwapDeleted(l, i); ends == Ends(EdgeAt(d, 0), EdgeAt(d, |d| - 1))
    {
      LinkTable(edges, l, i);
      LinkTable(edges, l, |l| - 1);
      var x, z := edges[e].all, ends.last;
      var v := edges[z].all.prev;
      var last := if x.next == z then z else v;
      ends := ends.(last := last);
      edges := MiddleWrites(edges, Half(x.prev, A), Half(z, A), Half(x.next, A), Half(v, A), Half(ends.first, A),
          Half(last, A));
    }

    // ---- nodes and edges ------------------------------------------------------------------------

    constructor (directed: bool)
      ensures Valid() && nodes == map[] && edges == map[] && infos == [] && this.directed == directed
    {
      this.directed := directed;
      nodes, edges, ends, edgesCount, infos, top := map[], map[], Ends(0, 0), 0, [], 1;
      lists := map[All := []];
    }

    method NewNode() returns (n: nat)
      requires Valid()
      modifies this
      ensures Valid() && n != 0 && n !in old(nodes) && nodes == old(nodes)[n := Node(Ends(0, 0), Ends(0, 0), 0, 0)]
      ensures edges == old(edges) && infos == old(infos) && lists == old(lists)[Out(n) := []][In(n) := []]
    {
      n := top;
      top := top + 1;
      NewNodeGood(St(), n);
      nodes := nodes[n := Node(Ends(0, 0), Ends(0, 0), 0, 0)];
      lists := lists[Out(n) := []][In(n) := []];
    }

    /** Adds an edge at the end of its three lists, and room for its data in every registered array. */
    method NewEdge(source: nat, target: nat) returns (e: nat)
      requires Valid() && source in nodes && target in nodes && (directed || source != target)
      modifies this
      ensures Valid() && e !in old(edges) && HasAdded(old(St()), St(), e, source, target)
      ensures |infos| == |old(infos)| && forall k: nat :: k < |infos| ==> infos[k][..old(edgesCount)] == old(infos)[k]
    {
      e := top;
      top := top + 1;
      LinkEdge(e, source, target);
      edgesCount := edgesCount + 1;
      AddInfos();
    }

    /** Fills in the fields of a new edge, links it and counts it. */
    method LinkEdge(e: nat, source: nat, target: nat)
      requires Good(St()) && edgesCount == |lists[All]| && e != 0 && e !in edges
      requires source in nodes && target in nodes && (directed || source != target)
      modifies this`ends, this`nodes, this`edges, this`lists
      ensures Good(St()) && HasAdded(old(St()), St(), e, source, target) && |lists[All]| == |old(lists)[All]| + 1
    {
      ghost var s := St();
      NewEdgeSteps(s, e, source, target);
      edges := edges[e := FreshEdge(source, target, edgesCount)];
      ghost var x := St();
      AppendAll(e);
      ghost var y := St();
      CountDegrees(source, target, true);
      AddedGood(s, e, source, target, x, y, ChangeDegree(y, TargetList(s, target), true), St());
      GrownAll(s.lists, e, TargetList(s, target), Out(source));
    }

    /** Links the halves of a new edge, that of the target before that of the source. */
    method AppendAll(e: nat)
      requires Linked(St()) && Full(St(), e) && e in edges && Loose(St(), Half(e, A)) && Loose(St(), Half(e, T))
          && Loose(St(), Half(e, S))
      modifies this`ends, this`nodes, this`edges, this`lists
      ensures St() == Attached(old(St()), e)
    {
      ghost var s := St();
      AttachStep(s, Half(e, A), e);
      AttachOthers(s, Half(e, A), Half(e, T));
      AttachOthers(s, Half(e, A), Half(e, S));
      AppendHalf(Half(e, A), All);
      ghost var s1 := St();
      AttachStep(s1, Half(e, T), e);
      AttachOthers(s1, Half(e, T), Half(e, S));
      AppendHalf(Half(e, T), if directed then In(edges[e].target) else Out(edges[e].target));
      AppendHalf(Half(e, S), Out(edges[e].source));
    }

    /** Counts an edge in, or out, at both of its nodes. */
    method CountDegrees(source: nat, target: nat, up: bool)
      modifies this`nodes
      ensures var s := old(St());
              St() == if up then ChangeDegree(ChangeDegree(s, TargetList(s, target), up), Out(source), up)
                      else ChangeDegree(ChangeDegree(s, Out(source), up), TargetList(s, target), up)
    {
      if up {
        CountDegree(if directed then In(target) else Out(target), up);
        CountDegree(Out(source), up);
      } else {
        CountDegree(Out(source), up);
        CountDegree(if directed then In(target) else Out(target), up);
      }
    }

    method CountDegree(id: ListId, up: bool)
      modifies this`nodes
      ensures St() == ChangeDegree(old(St()), id, up)
    {
      match id {
        case All =>
        case Out(n) =>
          if n in nodes {
            var x := nodes[n];
            nodes := nodes[n := x.(outDeg := if up then x.outDeg + 1 else if x.outDeg > 0 then x.outDeg - 1 else 0)];
          }
        case In(n) =>
          if n in nodes {
            var x := nodes[n];
            nodes := nodes[n := x.(inDeg := if up then x.inDeg + 1 else if x.inDeg > 0 then x.inDeg - 1 else 0)];
          }
      }
    }

    /** Makes room for the data of one more edge in every array. */
    method AddInfos()
      modifies this`infos
      ensures |infos| == |old(infos)|
      ensures forall k: nat :: k < |infos| ==>
          |infos[k]| == |old(infos)[k]| + 1 && infos[k][..|old(infos)[k]|] == old(infos)[k]
    {
      var k := 0;
      while k < |infos|
        invariant 0 <= k <= |infos| == |old(infos)|
        invariant forall j: nat :: j < k ==>
            |infos[j]| == |old(infos)[j]| + 1 && infos[j][..|old(infos)[j]|] == old(infos)[j]
        invariant forall j: nat :: k <= j < |infos| ==> infos[j] == old(infos)[j]
      {
        infos := infos[k := infos[k] + [0]];
        k := k + 1;
      }
    }

    /** Deletes edge `e`. The last edge takes its index, and every array its data along with it: the other edges
        keep their data. */
    method DelEdge(e: nat)
      requires Valid() && e in edges
      modifies this
      ensures Valid() && edges.Keys == old(edges).Keys - {e} && edgesCount == old(edgesCount) - 1
          && nodes.Keys == old(nodes).Keys
      ensures |infos| == |old(infos)|
      ensures forall k: nat, y: nat :: k < |infos| && y in edges ==>
          SameData(old(infos), old(edges), infos, edges, k, y)
      ensures exists j: nat, k: nat :: IsShrunk(old(St()), e, j, k, lists)
    {
      ghost var s, was := St(), infos;
      var i := edges[e].index;
      ghost var z, j, k := RemoveEdge(e);
      RemovedLength(s, St(), e, z, j, k);
      edgesCount := edgesCount - 1;
      DeleteInfos(i);
      DataFollows(s, St(), e, z, j, k, was, infos);
      assert IsShrunk(s, e, j, k, lists);
    }

    /** Takes the edge off its lists, counts it out at both of its nodes, and gives it up. */
    method RemoveEdge(e: nat) returns (ghost z: nat, ghost j: nat, ghost k: nat)
      requires Good(St()) && edgesCount == |lists[All]| && e in edges
      modifies this`ends, this`nodes, this`edges, this`lists
      ensures Removal(old(St()), St(), e, z, j, k)
    {
      ghost var s := St();
      j, k := Positions(s, e);
      z := lists[All][|lists[All]| - 1].e;
      ghost var s2 := UnlinkEdge(e, j, k);
      ghost var y := St();
      StillThere(s, e, z, j, k, s2, y);
      DropEdge(e);
      ghost var t := St();
      DeleteSteps(s, e, z, j, k, s2, y, t);
    }

    /** Counts the edge out at both of its nodes, and gives it up. */
    method DropEdge(e: nat)
      requires e in edges
      modifies this`nodes, this`edges
      ensures St() == Dropped(old(St()), e)
    {
      CountDegrees(edges[e].source, edges[e].target, false);
      edges := edges - {e};
    }

    /** Takes the edge off its three lists. */
    method UnlinkEdge(e: nat, ghost j: nat, ghost k: nat) returns (ghost s2: Store)
      requires Good(St()) && edgesCount == |lists[All]| && e in edges
      requires Sits(St(), Half(e, A), edges[e].index) && Sits(St(), Half(e, T), j) && Sits(St(), Half(e, S), k)
      modifies this`ends, this`nodes, this`edges, this`lists
      ensures Present(old(edges), old(lists)[All])
      ensures Unlinked(old(St()), e, old(lists)[All][|old(lists)[All]| - 1].e, j, k, s2, St())
    {
      ghost var s, i, z := St(), edges[e].index, lists[All][|lists[All]| - 1].e;
      UnlinkedFirst(s, e, z, j, k);
      SwapOutEdge(e, i);
      s2 := St();
      if directed {
        UnlinkBoth(e, Half(e, T), j, Half(e, S), k);
      } else {
        UnlinkBoth(e, Half(e, S), k, Half(e, T), j);
      }
      assert Unlinked(s, e, z, j, k, s2, St());
    }

    /** Takes two halves of an edge off their lists. */
    method UnlinkBoth(e: nat, g: Half, ghost m: nat, h: Half, ghost n: nat)
      requires Linked(St()) && Full(St(), e) && g.e == h.e == e && g != h && g.side != A && h.side != A
      requires Sits(St(), g, m) && Sits(St(), h, n) && Gone(St(), Half(e, A))
      modifies this`ends, this`nodes, this`edges, this`lists
      ensures var s := old(St()); var s1 := Detach(s, Owner(s, g), m);
              Position(s, Owner(s, g), m) && Position(s1, Owner(s, h), n) && St() == Detach(s1, Owner(s, h), n)
    {
      ghost var s := St();
      DetachStep(s, g, m);
      ghost var s1 := Detach(s, Owner(s, g), m);
      OtherHalf(s, s1, g, Deleted(s.lists[Owner(s, g)], m), h, n);
      SameOwners(s, s1);
      UnlinkHalf(g, ListOfHalf(g), m);
      UnlinkHalf(h, ListOfHalf(h), n);
    }

    function ListOfHalf(h: Half): ListId
      reads this
      requires h.e in edges
    {
      match h.side
      case A => All
      case S => Out(edges[h.e].source)
      case T => if directed then In(edges[h.e].target) else Out(edges[h.e].target)
    }

    // ---- edge data ------------------------------------------------------------------------------

    /** Registers a new array of edge data. */
    method NewEdgeInfo() returns (k: nat)
      requires Valid()
      modifies this`infos
      ensures Valid() && k == |old(infos)| && |infos| == k + 1 && infos[..k] == old(infos) && |infos[k]| == edgesCount
    {
      k := |infos|;
      infos := infos + [seq(edgesCount, i => 0)];
    }

    /** Assigns the data of an edge. */
    method AssignItemAt(k: nat, e: nat, item: nat)
      requires Valid() && k < |infos| && e in edges
      modifies this`infos
      ensures Valid() && |infos| == |old(infos)|
      ensures forall j: nat, y: nat :: j < |infos| && y in edges ==>
                DataAt(infos, edges, j, y) == if j == k && y == e then item else DataAt(old(infos), edges, j, y)
    {
      IndexesDiffer(St());
      infos := infos[k := infos[k][edges[e].index := item]];
    }

    /** The data of an edge. */
    method FetchItemAt(k: nat, e: nat) returns (item: nat)
      requires Valid() && k < |infos| && e in edges
      ensures item == DataAt(infos, edges, k, e)
    {
      IndexesDiffer(St());
      item := infos[k][edges[e].index];
    }

    /** Deletes the data at index `i` of every array: the last item takes its place. */
    method DeleteInfos(i: nat)
      requires forall k: nat :: k < |infos| ==> i < |infos[k]|
      modifies this`infos
      ensures |infos| == |old(infos)|
      ensures forall k: nat :: k < |infos| ==> infos[k] == DataDeleted(old(infos)[k], i)
    {
      var k := 0;
      while k < |infos|
        invariant 0 <= k <= |infos| == |old(infos)|
        invariant forall j: nat :: j < k ==> infos[j] == DataDeleted(old(infos)[j], i)
        invariant forall j: nat :: k <= j < |infos| ==> infos[j] == old(infos)[j]
      {
        infos := infos[k := DataDeleted(infos[k], i)];
        k := k + 1;
      }
    }
  }

  /** `l` is a properly linked list of all edges. */
  ghost predicate EdgeList(edges: Edges, l: seq<Half>) {
    && Present(edges, l) && (forall j: nat :: j < |l| ==> l[j] == Half(l[j].e, A) && l[j].e != 0)
    && (forall j: nat, k: nat :: j < k < |l| ==> l[j].e != l[k].e)
    && forall j: nat {:trigger LinkOk(edges, l, j)} :: j < |l| ==> LinkOk(edges, l, j)
  }

  lemma LinkTable(edges: Edges, l: seq<Half>, j: nat)
    requires EdgeList(edges, l) && j < |l|
    ensures edges[l[j].e].all == Links(EdgeAt(l, j - 1), EdgeAt(l, j + 1))
  {
    assert LinkOk(edges, l, j) && l[j] == Half(l[j].e, A);
  }

  lemma SwapReads(s: Store, e: nat, i: nat)
    requires Linked(s) && Sits(s, Half(e, A), i)
    ensures Position(s, All, i) && EdgeList(s.edges, s.lists[All]) && s.lists[All][i].e == e
    ensures var l := s.lists[All];
        s.ends == Ends(l[0].e, l[|l| - 1].e) && (e == s.ends.first <==> i == 0) && (e == s.ends.last <==> i + 1 == |l|)
  {
    var l := s.lists[All];
    assert ListOk(s, All);
    PresentAll(s, All);
    forall j: nat | j < |l| ensures l[j] == Half(l[j].e, A) { HalfAt(s, All, j); }
  }

  lemma PresentAll(s: Store, id: ListId)
    requires Linked(s) && id in s.lists
    ensures forall j: nat :: j < |s.lists[id]| ==> s.lists[id][j].e in s.edges
  {
    assert ListOk(s, id);
    forall j: nat | j < |s.lists[id]| ensures s.lists[id][j].e in s.edges { assert LinkOk(s.edges, s.lists[id], j); }
  }

  lemma NewNodeGood(s: Store, n: nat)
    requires Good(s) && n !in s.nodes
    ensures Good(s.(nodes := s.nodes[n := Node(Ends(0, 0), Ends(0, 0), 0, 0)],
        lists := s.lists[Out(n) := []][In(n) := []]))
  {
    var t := s.(nodes := s.nodes[n := Node(Ends(0, 0), Ends(0, 0), 0, 0)], lists := s.lists[Out(n) := []][In(n) := []]);
    forall id: ListId ensures id in t.lists <==> IdOk(t, id) { assert IdOk(s, id) <==> id in s.lists; }
    forall id: ListId | id in t.lists ensures ListOk(t, id) {
      if id != Out(n) && id != In(n) {
        assert ListOk(s, id);
        forall h: Half | h in t.lists[id] ensures MemberOk(t, id, h) { assert MemberOk(s, id, h); }
      }
    }
    forall e: nat | e in t.edges ensures EdgeOk(t, e) { assert EdgeOk(s, e); }
    forall h: Half | h.e in t.edges && h.e != 0 ensures InPlace(t, h) {
      assert InPlace(s, h) && IdOk(s, Owner(s, h)) && Owner(t, h) == Owner(s, h);
    }
    forall m: nat | m in t.nodes ensures Out(m) in t.lists && In(m) in t.lists && DegreesAt(t, m) {
      if m != n { assert IdOk(s, Out(m)) && IdOk(s, In(m)) && DegreesAt(s, m); }
    }
    forall i: nat | i < |t.lists[All]| ensures IndexAt(t, i) { assert IndexAt(s, i); }
  }

  /** What linking a new edge relies on. */
  lemma NewEdgeSteps(s: Store, e: nat, source: nat, target: nat)
    requires Good(s) && e != 0 && e !in s.edges && source in s.nodes && target in s.nodes
        && (s.directed || source != target)
    ensures All in s.lists
    ensures var x := WithEdge(s, e, FreshEdge(source, target, |s.lists[All]|));
            x == Linking(s, e, source, target) && Linked(x) && Full(x, e)
            && Loose(x, Half(e, A)) && Loose(x, Half(e, T)) && Loose(x, Half(e, S))
  {
    assert IdOk(s, All);
    WithEdgeLinked(s, e, source, target, |s.lists[All]|);
  }

  // ---- data -------------------------------------------------------------------------------------

  /** An array with the last item copied over item `i`, and one item less. */
  function DataDeleted(l: seq<nat>, i: nat): (d: seq<nat>)
    ensures i < |l| ==> |d| == |l| - 1
  {
    if i < |l| then l[i := l[|l| - 1]][..|l| - 1] else l
  }

  /** The data of edge `e` in array `k`. */
  function DataAt(infos: seq<seq<nat>>, edges: Edges, k: nat, e: nat): nat {
    if k < |infos| && e in edges && edges[e].index < |infos[k]| then infos[k][edges[e].index] else 0
  }

  /** Edge `y` has in array `k` the data it had. */
  predicate SameData(infos: seq<seq<nat>>, edges: Edges, infos': seq<seq<nat>>, edges': Edges, k: nat, y: nat) {
    DataAt(infos', edges', k, y) == DataAt(infos, edges, k, y)
  }

  lemma StillThere(s: Store, e: nat, z: nat, j: nat, k: nat, s2: Store, y: Store)
    requires Good(s) && Found(s, e, z, j, k) && Present(s.edges, s.lists[All]) && Unlinked(s, e, z, j, k, s2, y)
    ensures e in y.edges
  {
    UnlinkedKeeps(s, e, z, j, k, s2, y);
  }

  /** Where the halves of `e` are, and which edge is the last. */
  predicate Found(s: Store, e: nat, z: nat, j: nat, k: nat) {
    && Sits(s, Half(e, T), j) && Sits(s, Half(e, S), k) && Sits(s, Half(e, A), s.edges[e].index)
    && All in s.lists && s.lists[All] != [] && z == s.lists[All][|s.lists[All]| - 1].e
  }

  predicate IsShrunk(s: Store, e: nat, j: nat, k: nat, lists: map<ListId, seq<Half>>) {
    && Sits(s, Half(e, T), j) && Sits(s, Half(e, S), k) && Sits(s, Half(e, A), s.edges[e].index)
    && lists == Shrunk(s, e, j, k)
  }

  /** Every edge has an index of its own, below the number of edges. */
  lemma IndexesDiffer(s: Store)
    requires Good(s)
    ensures forall e: nat :: e in s.edges ==>
        s.edges[e].index < |s.lists[All]| && s.lists[All][s.edges[e].index] == Half(e, A)
    ensures forall e: nat, f: nat :: e in s.edges && f in s.edges && e != f ==> s.edges[e].index != s.edges[f].index
  {
    forall e: nat | e in s.edges
        ensures s.edges[e].index < |s.lists[All]| && s.lists[All][s.edges[e].index] == Half(e, A) {
      var j, k := Positions(s, e);
    }
  }

  /** `t` is the good graph `s` without edge `e`, a good graph again. */
  ghost predicate Removal(s: Store, t: Store, e: nat, z: nat, j: nat, k: nat) {
    Good(t) && Found(s, e, z, j, k) && HasRemoved(s, t, e, z, j, k)
  }

  function Dropped(y: Store, e: nat): Store
    requires e in y.edges
  {
    var v := y.edges[e];
    WithoutEdge(ChangeDegree(ChangeDegree(y, Out(v.source), false), TargetList(y, v.target), false), e)
  }

  lemma DeleteSteps(s: Store, e: nat, z: nat, j: nat, k: nat, s2: Store, y: Store, t: Store)
    requires Good(s) && Found(s, e, z, j, k) && Present(s.edges, s.lists[All]) && Unlinked(s, e, z, j, k, s2, y)
    requires e in y.edges && t == Dropped(y, e)
    ensures Removal(s, t, e, z, j, k)
  {
    UnlinkedKeeps(s, e, z, j, k, s2, y);
    var w := ChangeDegree(y, Owner(s, Half(e, S)), false);
    var x := ChangeDegree(w, Owner(s, Half(e, T)), false);
    assert t == WithoutEdge(x, e);
    RemovedGood(s, e, z, j, k, s2, y, w, x, t);
  }

  lemma RemovedLength(s: Store, t: Store, e: nat, z: nat, j: nat, k: nat)
    requires Good(s) && Good(t) && Sits(s, Half(e, T), j) && Sits(s, Half(e, S), k)
        && Sits(s, Half(e, A), s.edges[e].index)
    requires HasRemoved(s, t, e, z, j, k)
    ensures |t.lists[All]| == |s.lists[All]| - 1 && t.lists[All] == SwapDeleted(s.lists[All], s.edges[e].index)
  {
    assert EdgeOk(s, e);
    OwnersApart(s, e);
  }

  /** The data of every surviving edge follow it to its new index. */
  lemma DataFollows(s: Store, t: Store, e: nat, z: nat, j: nat, k: nat, infos: seq<seq<nat>>, infos': seq<seq<nat>>)
    requires Good(s) && Good(t) && Sits(s, Half(e, T), j) && Sits(s, Half(e, S), k)
        && Sits(s, Half(e, A), s.edges[e].index)
    requires HasRemoved(s, t, e, z, j, k) && z == s.lists[All][|s.lists[All]| - 1].e
    requires |infos'| == |infos| && forall a: nat :: a < |infos| ==>
        |infos[a]| == |s.lists[All]| && infos'[a] == DataDeleted(infos[a], s.edges[e].index)
    ensures forall a: nat, y: nat :: a < |infos| && y in t.edges ==> SameData(infos, s.edges, infos', t.edges, a, y)
  {
    IndexesDiffer(s);
    RemovedLength(s, t, e, z, j, k);
    IndexesDiffer(t);
    forall a: nat, y: nat | a < |infos| && y in t.edges ensures SameData(infos, s.edges, infos', t.edges, a, y) {
      assert y in s.edges && y != e;
      assert ListOk(s, All) && s.lists[All][|s.lists[All]| - 1] in s.lists[All]
          && MemberOk(s, All, s.lists[All][|s.lists[All]| - 1]);
      assert t.edges[y].index == if y == z then s.edges[e].index else s.edges[y].index;
    }
  }
}
