/** The graph: every edge is on three doubly linked lists, of all edges, of its source and of its target, and
    the side arrays of edge data follow the edges when these are renumbered. Nodes and edges are named by
    numbers, and 0 is the null pointer. */
module Graph {

  datatype Links = Links(prev: nat, next: nat)
  datatype Ends = Ends(first: nat, last: nat)

  /** `all`, `src` and `tgt` link the edge in the list of all edges, of its source and of its target. */
  datatype Edge = Edge(source: nat, target: nat, index: nat, all: Links, src: Links, tgt: Links)

  datatype Node = Node(ins: Ends, outs: Ends, inDeg: nat, outDeg: nat)

  datatype Side = A | S | T

  /** An edge as a member of one of its lists. */
  datatype Half = Half(e: nat, side: Side)

  datatype ListId = All | Out(n: nat) | In(n: nat)

  type Edges = map<nat, Edge>

  function Get(edges: Edges, h: Half): Links
    requires h.e in edges
  {
    match h.side case A => edges[h.e].all case S => edges[h.e].src case T => edges[h.e].tgt
  }

  function Put(edges: Edges, h: Half, k: Links): Edges
    requires h.e in edges
  {
    var x := edges[h.e];
    edges[h.e := match h.side case A => x.(all := k) case S => x.(src := k) case T => x.(tgt := k)]
  }

  // ---- chains -----------------------------------------------------------------------------------

  function EdgeAt(l: seq<Half>, i: int): nat { if 0 <= i < |l| then l[i].e else 0 }

  predicate LinkOk(edges: Edges, l: seq<Half>, i: nat) {
    i < |l| ==> l[i].e in edges && Get(edges, l[i]) == Links(EdgeAt(l, i - 1), EdgeAt(l, i + 1))
  }

  /** The halves of `l` are linked both ways in this order, between `ends`. */
  ghost predicate ChainOk(edges: Edges, l: seq<Half>, ends: Ends) {
    && (forall i: nat :: i < |l| ==> LinkOk(edges, l, i))
    && ends == Ends(EdgeAt(l, 0), EdgeAt(l, |l| - 1))
    && (forall i: nat :: i < |l| ==> l[i].e != 0)
    && (forall i: nat, j: nat :: i < j < |l| ==> l[i].e != l[j].e)
  }

  /** Same sources, targets and indices. */
  ghost predicate SameEdges(edges: Edges, edges': Edges) {
    && edges'.Keys == edges.Keys
    && forall e: nat :: e in edges ==>
         edges'[e].source == edges[e].source && edges'[e].target == edges[e].target && edges'[e].index == edges[e].index
  }

  lemma ChainFrame(edges: Edges, edges': Edges, l: seq<Half>, ends: Ends)
    requires ChainOk(edges, l, ends)
    requires forall i: nat :: i < |l| ==> l[i].e in edges' && (l[i].e in edges ==>
        Get(edges', l[i]) == Get(edges, l[i]))
    ensures ChainOk(edges', l, ends)
  {
    forall i: nat | i < |l| ensures LinkOk(edges', l, i) { assert LinkOk(edges, l, i); }
  }

  function Appended(edges: Edges, last: Half, h: Half): Edges
    requires h.e in edges && last.e in edges && h != last
  {
    var edges1 := Put(edges, h, Get(edges, h).(prev := last.e));
    Put(edges1, last, Get(edges1, last).(next := h.e))
  }

  lemma AppendedOnly(edges: Edges, last: Half, h: Half)
    requires h.e in edges && last.e in edges && h != last
    ensures SameEdges(edges, Appended(edges, last, h))
    ensures forall g: Half :: g.e in edges && g != h && g != last ==> Get(Appended(edges, last, h), g) == Get(edges, g)
  {
  }

  /** Linking `h` after the last half of a chain. */
  lemma AppendChain(edges: Edges, l: seq<Half>, ends: Ends, h: Half)
    requires ChainOk(edges, l, ends) && h.e in edges && h.e != 0 && Get(edges, h) == Links(0, 0)
    requires forall i: nat :: i < |l| ==> l[i].e != h.e
    ensures l == [] ==> ChainOk(edges, [h], Ends(h.e, h.e))
    ensures l != [] ==> l[|l| - 1].e in edges && ChainOk(Appended(edges, l[|l| - 1], h), l + [h], ends.(last := h.e))
  {
    if l != [] {
      var n := |l| - 1;
      assert LinkOk(edges, l, n);
      var edges', k := Appended(edges, l[n], h), l + [h];
      forall i: nat | i < |k| ensures LinkOk(edges', k, i) {
        if i < |l| { assert LinkOk(edges, l, i) && k[i] == l[i]; }
      }
    }
  }

  function Deleted(l: seq<Half>, i: nat): seq<Half>
    requires i < |l|
  {
    l[..i] + l[i + 1..]
  }

  /** The neighbours of `l[i]` linked to each other. */
  function Bypassed(edges: Edges, l: seq<Half>, i: nat): Edges
    requires i < |l| && forall j: nat :: j < |l| ==> l[j].e in edges
  {
    var edges1 := if i + 1 < |l| then Put(edges, l[i + 1], Get(edges, l[i + 1]).(prev := EdgeAt(l, i - 1))) else edges;
    if i > 0 then Put(edges1, l[i - 1], Get(edges1, l[i - 1]).(next := EdgeAt(l, i + 1))) else edges1
  }

  lemma DeleteChain(edges: Edges, l: seq<Half>, ends: Ends, i: nat)
    requires ChainOk(edges, l, ends) && i < |l|
    ensures forall j: nat :: j < |l| ==> l[j].e in edges
    ensures ChainOk(Bypassed(edges, l, i), Deleted(l, i),
                    Ends(if i == 0 then EdgeAt(l, 1) else ends.first, if i + 1 == |l| then EdgeAt(l, i - 1)
                        else ends.last))
  {
    forall j: nat | j < |l| ensures l[j].e in edges { assert LinkOk(edges, l, j); }
    var edges', d := Bypassed(edges, l, i), Deleted(l, i);
    assert forall j: nat :: j < |d| ==> d[j] == l[if j < i then j else j + 1];
    forall j: nat | j < |d| ensures LinkOk(edges', d, j) { DeleteLink(edges, l, ends, i, j); }
  }

  lemma DeleteLink(edges: Edges, l: seq<Half>, ends: Ends, i: nat, j: nat)
    requires ChainOk(edges, l, ends) && i < |l| && j + 1 < |l| && forall j: nat :: j < |l| ==> l[j].e in edges
    ensures LinkOk(Bypassed(edges, l, i), Deleted(l, i), j)
  {
    var d := Deleted(l, i);
    var k := if j < i then j else j + 1;
    assert LinkOk(edges, l, k) && d[j] == l[k];
    assert EdgeAt(d, j - 1) == if j == i then EdgeAt(l, i - 1) else EdgeAt(l, k - 1);
    assert EdgeAt(d, j + 1) == if j + 1 == i then EdgeAt(l, i + 1) else EdgeAt(l, k + 1);
  }

  /** The last half takes the place of `l[i]`. */
  function SwapDeleted(l: seq<Half>, i: nat): seq<Half>
    requires i < |l|
  {
    if i + 1 == |l| then l[..i] else l[..|l| - 1][i := l[|l| - 1]]
  }

  function SetPrev(edges: Edges, h: Half, e: nat): Edges
    requires h.e in edges
  {
    Put(edges, h, Get(edges, h).(prev := e))
  }

  function SetNext(edges: Edges, h: Half, e: nat): Edges
    requires h.e in edges
  {
    Put(edges, h, Get(edges, h).(next := e))
  }

  ghost predicate Present(edges: Edges, l: seq<Half>) { forall j: nat :: j < |l| ==> l[j].e in edges }

  /** Two writes: `p.prev` becomes `e`, and `q.next` becomes `f`. */
  function SetBoth(edges: Edges, p: Half, e: nat, q: Half, f: nat): Edges
    requires p.e in edges && q.e in edges
  {
    SetNext(SetPrev(edges, p, e), q, f)
  }

  /** Two writes: `p` gets both links, and `q.next` becomes null. */
  function PlaceLast(edges: Edges, p: Half, k: Links, q: Half): Edges
    requires p.e in edges && q.e in edges
  {
    SetNext(Put(edges, p, k), q, 0)
  }

  /** The writes that move `z` to the front, before `y`; `v` and `last` are to end the list. */
  function FirstWrites(edges: Edges, z: Half, y: Half, v: Half, last: Half): Edges
    requires z.e in edges && y.e in edges && v.e in edges && last.e in edges
  {
    SetBoth(SetBoth(Put(edges, z, Links(0, y.e)), y, z.e, v, 0), z, 0, last, 0)
  }

  /** The writes that move `z` between `w` and `y`; `v` and `last` are to end the list. */
  function MiddleWrites(edges: Edges, w: Half, z: Half, y: Half, v: Half, first: Half, last: Half): Edges
    requires w.e in edges && z.e in edges && y.e in edges && v.e in edges && first.e in edges && last.e in edges
  {
    SetBoth(PlaceLast(SetBoth(edges, y, z.e, w, z.e), z, Links(w.e, y.e), v), first, 0, last, 0)
  }

  /** The last half moves to the front, instead of the first. */
  function SwapFirst(edges: Edges, l: seq<Half>): Edges
    requires |l| >= 2 && Present(edges, l)
  {
    var n := |l| - 1;
    FirstWrites(edges, l[n], l[1], l[n - 1], if n == 1 then l[n] else l[n - 1])
  }

  /** The last half moves to position `i` in the middle. */
  function SwapMiddle(edges: Edges, l: seq<Half>, i: nat): Edges
    requires 0 < i && i + 1 < |l| && Present(edges, l)
  {
    var n := |l| - 1;
    MiddleWrites(edges, l[i - 1], l[n], l[i + 1], l[n - 1], l[0], if i + 1 == n then l[n] else l[n - 1])
  }

  function SwapLast(edges: Edges, l: seq<Half>): Edges
    requires |l| >= 2 && Present(edges, l)
  {
    SetBoth(SetNext(edges, l[|l| - 2], 0), l[0], 0, l[|l| - 2], 0)
  }

  /** The links once `l[i]` has been taken out of the list of all edges. */
  function Swapped(edges: Edges, l: seq<Half>, i: nat): Edges
    requires i < |l| && Present(edges, l)
  {
    if |l| == 1 then edges
    else if i == 0 then SwapFirst(edges, l)
    else if i + 1 == |l| then SwapLast(edges, l)
    else SwapMiddle(edges, l, i)
  }

  lemma SwapChain(edges: Edges, l: seq<Half>, ends: Ends, i: nat)
    requires ChainOk(edges, l, ends) && i < |l| && forall j: nat :: j < |l| ==> l[j].side == A
    ensures Present(edges, l)
    ensures var d := SwapDeleted(l, i); ChainOk(Swapped(edges, l, i), d, Ends(EdgeAt(d, 0), EdgeAt(d, |d| - 1)))
  {
    forall j: nat | j < |l| ensures l[j].e in edges { assert LinkOk(edges, l, j); }
    var d := SwapDeleted(l, i);
    forall j: nat | j < |d| ensures LinkOk(Swapped(edges, l, i), d, j) {
      assert LinkOk(edges, l, j);
      if i == 0 { SwapFirstLink(edges, l, ends, j); }
      else if i + 1 < |l| { SwapMiddleLink(edges, l, ends, i, j); }
    }
  }

  lemma SwapFirstLink(edges: Edges, l: seq<Half>, ends: Ends, j: nat)
    requires ChainOk(edges, l, ends) && Present(edges, l) && |l| >= 2 && j + 1 < |l|
        && forall j: nat :: j < |l| ==> l[j].side == A
    ensures LinkOk(SwapFirst(edges, l), SwapDeleted(l, 0), j)
  {
    assert LinkOk(edges, l, j);
  }

  lemma SwapMiddleLink(edges: Edges, l: seq<Half>, ends: Ends, i: nat, j: nat)
    requires ChainOk(edges, l, ends) && Present(edges, l) && 0 < i && i + 1 < |l| && j + 1 < |l|
    requires forall j: nat :: j < |l| ==> l[j].side == A
    ensures LinkOk(SwapMiddle(edges, l, i), SwapDeleted(l, i), j)
  {
    assert LinkOk(edges, l, j);
  }

  // ---- all lists together -----------------------------------------------------------------------

  /** The nodes and edges, and `lists`, the lists they make up. */
  datatype Store = Store(directed: bool, nodes: map<nat, Node>, edges: Edges, ends: Ends, lists: map<ListId, seq<Half>>)

  /** The list that a half belongs in. The edges of an undirected graph are out-edges of both of their nodes. */
  function Owner(s: Store, h: Half): ListId
    requires h.e in s.edges
  {
    match h.side
    case A => All
    case S => Out(s.edges[h.e].source)
    case T => TargetList(s, s.edges[h.e].target)
  }

  function TargetList(s: Store, target: nat): ListId { if s.directed then In(target) else Out(target) }

  function EndsOf(s: Store, id: ListId): Ends {
    match id
    case All => s.ends
    case Out(n) => if n in s.nodes then s.nodes[n].outs else Ends(0, 0)
    case In(n) => if n in s.nodes then s.nodes[n].ins else Ends(0, 0)
  }

  function SetEnds(s: Store, id: ListId, k: Ends): Store {
    match id
    case All => s.(ends := k)
    case Out(n) => if n in s.nodes then s.(nodes := s.nodes[n := s.nodes[n].(outs := k)]) else s
    case In(n) => if n in s.nodes then s.(nodes := s.nodes[n := s.nodes[n].(ins := k)]) else s
  }

  predicate IdOk(s: Store, id: ListId) {
    match id case All => true case Out(n) => n in s.nodes case In(n) => n in s.nodes
  }

  predicate MemberOk(s: Store, id: ListId, h: Half) { h.e in s.edges && Owner(s, h) == id }

  ghost predicate ListOk(s: Store, id: ListId)
    requires id in s.lists
  {
    ChainOk(s.edges, s.lists[id], EndsOf(s, id))
        && forall h: Half {:trigger MemberOk(s, id, h)} :: h in s.lists[id] ==> MemberOk(s, id, h)
  }

  predicate EdgeOk(s: Store, e: nat)
    requires e in s.edges
  {
    var x := s.edges[e];
    e != 0 && x.source in s.nodes && x.target in s.nodes && (s.directed || x.source != x.target)
  }

  /** Every list is a proper chain of the halves that belong in it. */
  ghost predicate Linked(s: Store) {
    && (forall id: ListId {:trigger IdOk(s, id)} :: id in s.lists <==> IdOk(s, id))
    && (forall id: ListId {:trigger ListOk(s, id)} :: id in s.lists ==> ListOk(s, id))
    && (forall e: nat {:trigger EdgeOk(s, e)} :: e in s.edges ==> EdgeOk(s, e))
  }

  /** Half `h` is in its list. */
  predicate InPlace(s: Store, h: Half) {
    h.e in s.edges && Owner(s, h) in s.lists && h in s.lists[Owner(s, h)]
  }

  /** A half in no list yet. */
  predicate Loose(s: Store, h: Half) {
    h.e in s.edges && Owner(s, h) in s.lists && h !in s.lists[Owner(s, h)] && Get(s.edges, h) == Links(0, 0)
  }

  lemma NotInOthers(s: Store, h: Half, id: ListId)
    requires Linked(s) && h.e in s.edges && id in s.lists && id != Owner(s, h)
    ensures h !in s.lists[id]
  {
    assert ListOk(s, id);
    assert h in s.lists[id] ==> MemberOk(s, id, h);
  }

  // ---- appending --------------------------------------------------------------------------------

  /** The store once the loose half `h` has been put at the end of its list. */
  function Attach(s: Store, h: Half): Store
    requires h.e in s.edges && Owner(s, h) in s.lists
  {
    var id := Owner(s, h);
    var l := s.lists[id];
    if l == [] || l[|l| - 1].e !in s.edges || l[|l| - 1] == h then
      SetEnds(s, id, Ends(h.e, h.e)).(lists := s.lists[id := [h]])
    else
      SetEnds(s, id, EndsOf(s, id).(last := h.e)).(edges := Appended(s.edges, l[|l| - 1], h),
          lists := s.lists[id := l + [h]])
  }

  /** Only the links of halves in list `id`, or of `h`, and the ends and contents of `id`, have changed. */
  ghost predicate OnlyList(s: Store, t: Store, id: ListId, h: Half) {
    && t.directed == s.directed && t.nodes.Keys == s.nodes.Keys && SameEdges(s.edges, t.edges)
    && (forall j: ListId :: j != id ==> EndsOf(t, j) == EndsOf(s, j))
    && (forall g: Half :: g.e in s.edges && g != h && Owner(s, g) != id ==> Get(t.edges, g) == Get(s.edges, g))
    && t.lists.Keys == s.lists.Keys && (forall j: ListId :: j in s.lists && j != id ==> t.lists[j] == s.lists[j])
    && (forall n: nat :: n in s.nodes ==>
        t.nodes[n].inDeg == s.nodes[n].inDeg && t.nodes[n].outDeg == s.nodes[n].outDeg)
  }

  lemma OnlyListLinked(s: Store, t: Store, id: ListId, h: Half)
    requires Linked(s) && OnlyList(s, t, id, h) && id in s.lists && h.e in s.edges && Owner(s, h) == id
    requires ChainOk(t.edges, t.lists[id], EndsOf(t, id)) && forall g: Half :: g in t.lists[id] ==> MemberOk(s, id, g)
    ensures Linked(t)
  {
    forall e: nat | e in t.edges ensures EdgeOk(t, e) { assert EdgeOk(s, e); }
    forall j: ListId | j in t.lists ensures ListOk(t, j) {
      if j != id {
        assert ListOk(s, j);
        forall i: nat | i < |s.lists[j]|
            ensures s.lists[j][i].e in t.edges && Get(t.edges, s.lists[j][i]) == Get(s.edges, s.lists[j][i]) {
          assert s.lists[j][i] in s.lists[j] && MemberOk(s, j, s.lists[j][i]);
        }
        ChainFrame(s.edges, t.edges, s.lists[j], EndsOf(s, j));
        forall g: Half | g in t.lists[j] ensures MemberOk(t, j, g) { assert MemberOk(s, j, g); }
      } else {
        forall g: Half | g in t.lists[id] ensures MemberOk(t, id, g) { assert MemberOk(s, id, g); }
      }
    }
    forall j: ListId ensures j in t.lists <==> IdOk(t, j) { assert IdOk(s, j) <==> IdOk(t, j); }
  }

  lemma AttachLinked(s: Store, h: Half)
    requires Linked(s) && Loose(s, h) && forall i: nat :: i < |s.lists[Owner(s, h)]| ==>
        s.lists[Owner(s, h)][i].e != h.e
    ensures var t, id := Attach(s, h), Owner(s, h);
            Linked(t) && OnlyList(s, t, id, h) && t.lists == s.lists[id := s.lists[id] + [h]]
  {
    var id, t := Owner(s, h), Attach(s, h);
    var l := s.lists[id];
    assert ListOk(s, id) && EdgeOk(s, h.e) && IdOk(s, id);
    AppendChain(s.edges, l, EndsOf(s, id), h);
    AttachShape(s, h);
    forall g: Half | g in t.lists[id] ensures MemberOk(s, id, g) { assert g != h ==> MemberOk(s, id, g); }
    OnlyListLinked(s, t, id, h);
  }

  lemma AttachShape(s: Store, h: Half)
    requires h.e in s.edges && Owner(s, h) in s.lists && IdOk(s, Owner(s, h)) && ListOk(s, Owner(s, h))
    requires forall i: nat :: i < |s.lists[Owner(s, h)]| ==> s.lists[Owner(s, h)][i].e != h.e
    ensures var t, id := Attach(s, h), Owner(s, h); var l := s.lists[id];
            && OnlyList(s, t, id, h) && t.lists == s.lists[id := l + [h]]
            && (l == [] ==> t.edges == s.edges && EndsOf(t, id) == Ends(h.e, h.e))
            && (l != [] ==>
                  && l[|l| - 1].e in s.edges && t.edges == Appended(s.edges, l[|l| - 1], h)
                  && EndsOf(t, id) == EndsOf(s, id).(last := h.e))
  {
    var id := Owner(s, h);
    var l := s.lists[id];
    if l == [] {
      assert l + [h] == [h];
      SetEndsIs(s, id, Ends(h.e, h.e));
    } else {
      AttachBehind(s, h, id, l, l[|l| - 1]);
    }
  }

  lemma AttachBehind(s: Store, h: Half, id: ListId, l: seq<Half>, last: Half)
    requires h.e in s.edges && id == Owner(s, h) && id in s.lists && l == s.lists[id] && IdOk(s, id) && ListOk(s, id)
    requires last in l && last == l[|l| - 1] && last.e != h.e
    ensures var t := Attach(s, h);
            && OnlyList(s, t, id, h) && t.lists == s.lists[id := l + [h]]
            && last.e in s.edges && t.edges == Appended(s.edges, last, h)
                && EndsOf(t, id) == EndsOf(s, id).(last := h.e)
  {
    assert MemberOk(s, id, last);
    SetEndsIs(s, id, EndsOf(s, id).(last := h.e));
    AppendedOnly(s.edges, last, h);
  }

  lemma SetEndsIs(s: Store, id: ListId, k: Ends)
    requires IdOk(s, id)
    ensures var t := SetEnds(s, id, k);
            && EndsOf(t, id) == k && (forall j: ListId :: j != id ==> EndsOf(t, j) == EndsOf(s, j))
            && t.edges == s.edges && t.lists == s.lists && t.directed == s.directed && t.nodes.Keys == s.nodes.Keys
            && (forall n: nat :: n in s.nodes ==>
                t.nodes[n].inDeg == s.nodes[n].inDeg && t.nodes[n].outDeg == s.nodes[n].outDeg)
  {
  }

  // ---- detaching --------------------------------------------------------------------------------

  /** Position `i` of list `id`, which is to be given up. */
  predicate Position(s: Store, id: ListId, i: nat) { id in s.lists && i < |s.lists[id]| }

  function DetachEnds(l: seq<Half>, ends: Ends, i: nat): Ends
    requires i < |l|
  {
    Ends(if i == 0 then EdgeAt(l, 1) else ends.first, if i + 1 == |l| then EdgeAt(l, i - 1) else ends.last)
  }

  /** The store once the half at position `i` has been taken out of the list of a node. */
  ghost function Detach(s: Store, id: ListId, i: nat): Store
    requires Position(s, id, i)
  {
    var l := s.lists[id];
    SetEnds(s, id, DetachEnds(l, EndsOf(s, id), i)).(
      edges := if forall j: nat :: j < |l| ==> l[j].e in s.edges then Bypassed(s.edges, l, i) else s.edges,
      lists := s.lists[id := Deleted(l, i)])
  }

  lemma BypassedOnly(edges: Edges, l: seq<Half>, i: nat)
    requires i < |l| && forall j: nat :: j < |l| ==> l[j].e in edges
    ensures SameEdges(edges, Bypassed(edges, l, i))
    ensures forall g: Half :: g.e in edges && g !in l ==> Get(Bypassed(edges, l, i), g) == Get(edges, g)
  {
  }

  lemma DeletedIn(l: seq<Half>, i: nat)
    requires i < |l|
    ensures forall g: Half :: g in Deleted(l, i) ==> g in l
    ensures forall g: Half :: g in l && g != l[i] ==> g in Deleted(l, i)
    ensures (forall j: nat, k: nat :: j < k < |l| ==> l[j].e != l[k].e) ==> l[i] !in Deleted(l, i)
  {
    var d := Deleted(l, i);
    forall g: Half | g in l && g != l[i] ensures g in d {
      var j :| 0 <= j < |l| && l[j] == g;
      assert d[if j < i then j else j - 1] == g;
    }
    assert forall j: nat :: j < |d| ==> d[j] == l[if j < i then j else j + 1];
  }

  lemma DetachLinked(s: Store, id: ListId, i: nat)
    requires Linked(s) && Position(s, id, i)
    ensures var t := Detach(s, id, i);
            Linked(t) && OnlyList(s, t, id, s.lists[id][i]) && t.lists == s.lists[id := Deleted(s.lists[id], i)]
  {
    var l, h, t := s.lists[id], s.lists[id][i], Detach(s, id, i);
    assert ListOk(s, id) && IdOk(s, id) && h in l && MemberOk(s, id, h);
    DeleteChain(s.edges, l, EndsOf(s, id), i);
    SetEndsIs(s, id, DetachEnds(l, EndsOf(s, id), i));
    DetachOnly(s, id, i);
    DeletedIn(l, i);
    forall g: Half | g in t.lists[id] ensures MemberOk(s, id, g) { assert g in l; }
    OnlyListLinked(s, t, id, h);
  }

  lemma DetachOnly(s: Store, id: ListId, i: nat)
    requires Position(s, id, i) && IdOk(s, id) && ListOk(s, id)
        && forall j: nat :: j < |s.lists[id]| ==> s.lists[id][j].e in s.edges
    ensures OnlyList(s, Detach(s, id, i), id, s.lists[id][i])
  {
    var l := s.lists[id];
    BypassedOnly(s.edges, l, i);
    SetEndsIs(s, id, DetachEnds(l, EndsOf(s, id), i));
    forall g: Half | g.e in s.edges && Owner(s, g) != id ensures g !in l { assert g in l ==> MemberOk(s, id, g); }
  }

  /** The store once the half at position `i` has been taken out of the list of all edges: the last one takes its
      place. */
  ghost function SwapOut(s: Store, i: nat): Store
    requires Position(s, All, i) && Present(s.edges, s.lists[All])
  {
    var l := s.lists[All];
    var d := SwapDeleted(l, i);
    s.(ends := Ends(EdgeAt(d, 0), EdgeAt(d, |d| - 1)), edges := Swapped(s.edges, l, i), lists := s.lists[All := d])
  }

  lemma SwapDeletedIn(l: seq<Half>, i: nat)
    requires i < |l|
    ensures forall g: Half :: g in SwapDeleted(l, i) ==> g in l
    ensures forall g: Half :: g in l && g != l[i] ==> g in SwapDeleted(l, i)
    ensures (forall j: nat, k: nat :: j < k < |l| ==> l[j].e != l[k].e) ==> l[i] !in SwapDeleted(l, i)
  {
    var d := SwapDeleted(l, i);
    var n := |l| - 1;
    forall g: Half | g in l && g != l[i] ensures g in d {
      var j :| 0 <= j < |l| && l[j] == g;
      assert d[if j == n then i else j] == g;
    }
    assert forall j: nat :: j < |d| ==> d[j] == l[if j == i then n else j];
  }

  lemma SwapOutLinked(s: Store, i: nat)
    requires Linked(s) && Position(s, All, i)
    ensures Present(s.edges, s.lists[All]) && forall j: nat :: j < |s.lists[All]| ==> s.lists[All][j].side == A
    ensures var t := SwapOut(s, i); Linked(t) && OnlyList(s, t, All, s.lists[All][i])
  {
    var l := s.lists[All];
    assert ListOk(s, All) && IdOk(s, All);
    forall j: nat | j < |l| ensures l[j].side == A && l[j].e in s.edges { assert l[j] in l && MemberOk(s, All, l[j]); }
    SwapChain(s.edges, l, s.ends, i);
    SwapOutOnly(s, i);
    SwapDeletedIn(l, i);
    var t := SwapOut(s, i);
    forall g: Half | g in t.lists[All] ensures MemberOk(s, All, g) { assert g in l; }
    assert MemberOk(s, All, l[i]) by { assert l[i] in l; }
    OnlyListLinked(s, t, All, l[i]);
  }

  /** Edge `g.e` is the same but for links of halves in `l`. */
  ghost predicate SameBut(edges: Edges, edges': Edges, l: seq<Half>, g: Half) {
    && (g.e in edges' <==> g.e in edges)
    && (g.e in edges ==>
          && edges'[g.e].source == edges[g.e].source && edges'[g.e].target == edges[g.e].target
          && edges'[g.e].index == edges[g.e].index && (g !in l ==> Get(edges', g) == Get(edges, g)))
  }

  lemma PutSame(edges: Edges, edges1: Edges, l: seq<Half>, h: Half, k: Links, g: Half)
    requires SameBut(edges, edges1, l, g) && h in l && h.e in edges1
    ensures SameBut(edges, Put(edges1, h, k), l, g) && Put(edges1, h, k).Keys == edges1.Keys
  {
  }

  lemma SetBothSame(edges: Edges, edges1: Edges, l: seq<Half>, p: Half, e: nat, q: Half, f: nat, g: Half)
    requires SameBut(edges, edges1, l, g) && p in l && p.e in edges1 && q in l && q.e in edges1
    ensures SameBut(edges, SetBoth(edges1, p, e, q, f), l, g) && SetBoth(edges1, p, e, q, f).Keys == edges1.Keys
  {
    PutSame(edges, edges1, l, p, Get(edges1, p).(prev := e), g);
    var edges2 := SetPrev(edges1, p, e);
    PutSame(edges, edges2, l, q, Get(edges2, q).(next := f), g);
  }

  lemma PlaceLastSame(edges: Edges, edges1: Edges, l: seq<Half>, p: Half, k: Links, q: Half, g: Half)
    requires SameBut(edges, edges1, l, g) && p in l && p.e in edges1 && q in l && q.e in edges1
    ensures SameBut(edges, PlaceLast(edges1, p, k, q), l, g) && PlaceLast(edges1, p, k, q).Keys == edges1.Keys
  {
    PutSame(edges, edges1, l, p, k, g);
    var edges2 := Put(edges1, p, k);
    PutSame(edges, edges2, l, q, Get(edges2, q).(next := 0), g);
  }

  predicate Ready(edges: Edges, l: seq<Half>, h: Half) { h in l && h.e in edges }

  lemma FirstSame(edges: Edges, l: seq<Half>, z: Half, y: Half, v: Half, last: Half, g: Half)
    requires Ready(edges, l, z) && Ready(edges, l, y) && Ready(edges, l, v) && Ready(edges, l, last)
    ensures SameBut(edges, FirstWrites(edges, z, y, v, last), l, g)
  {
    PutSame(edges, edges, l, z, Links(0, y.e), g);
    var edges1 := Put(edges, z, Links(0, y.e));
    SetBothSame(edges, edges1, l, y, z.e, v, 0, g);
    SetBothSame(edges, SetBoth(edges1, y, z.e, v, 0), l, z, 0, last, 0, g);
  }

  lemma SwapFirstSame(edges: Edges, l: seq<Half>, g: Half)
    requires |l| >= 2 && Present(edges, l)
    ensures SameBut(edges, SwapFirst(edges, l), l, g)
  {
    var n := |l| - 1;
    var last := if n == 1 then l[n] else l[n - 1];
    FirstSame(edges, l, l[n], l[1], l[n - 1], last, g);
    var edges' := FirstWrites(edges, l[n], l[1], l[n - 1], last);
    assert SwapFirst(edges, l) == edges';
    assert SameBut(edges, edges', l, g);
  }

  lemma MiddleSame(edges: Edges, l: seq<Half>, w: Half, z: Half, y: Half, v: Half, first: Half, last: Half, g: Half)
    requires Ready(edges, l, w) && Ready(edges, l, z) && Ready(edges, l, y) && Ready(edges, l, v)
    requires Ready(edges, l, first) && Ready(edges, l, last)
    ensures SameBut(edges, MiddleWrites(edges, w, z, y, v, first, last), l, g)
  {
    SetBothSame(edges, edges, l, y, z.e, w, z.e, g);
    var edges1 := SetBoth(edges, y, z.e, w, z.e);
    PlaceLastSame(edges, edges1, l, z, Links(w.e, y.e), v, g);
    SetBothSame(edges, PlaceLast(edges1, z, Links(w.e, y.e), v), l, first, 0, last, 0, g);
  }

  lemma SwapMiddleSame(edges: Edges, l: seq<Half>, i: nat, g: Half)
    requires 0 < i && i + 1 < |l| && Present(edges, l)
    ensures SameBut(edges, SwapMiddle(edges, l, i), l, g)
  {
    var n := |l| - 1;
    var last := if i + 1 == n then l[n] else l[n - 1];
    MiddleSame(edges, l, l[i - 1], l[n], l[i + 1], l[n - 1], l[0], last, g);
    var edges' := MiddleWrites(edges, l[i - 1], l[n], l[i + 1], l[n - 1], l[0], last);
    assert SwapMiddle(edges, l, i) == edges';
    assert SameBut(edges, edges', l, g);
  }

  lemma SwapLastSame(edges: Edges, l: seq<Half>, g: Half)
    requires |l| >= 2 && Present(edges, l)
    ensures SameBut(edges, SwapLast(edges, l), l, g)
  {
    var n := |l| - 1;
    PutSame(edges, edges, l, l[n - 1], Get(edges, l[n - 1]).(next := 0), g);
    SetBothSame(edges, SetNext(edges, l[n - 1], 0), l, l[0], 0, l[n - 1], 0, g);
  }

  lemma SwappedSame(edges: Edges, l: seq<Half>, i: nat, g: Half)
    requires i < |l| && Present(edges, l)
    ensures SameBut(edges, Swapped(edges, l, i), l, g)
  {
    if |l| >= 2 {
      if i == 0 { SwapFirstSame(edges, l, g); }
      else if i + 1 == |l| { SwapLastSame(edges, l, g); }
      else { SwapMiddleSame(edges, l, i, g); }
    }
  }

  lemma SwappedOnly(edges: Edges, l: seq<Half>, i: nat)
    requires i < |l| && Present(edges, l)
    ensures SameEdges(edges, Swapped(edges, l, i))
    ensures forall g: Half :: g.e in edges && g !in l ==> Get(Swapped(edges, l, i), g) == Get(edges, g)
  {
    forall g: Half ensures SameBut(edges, Swapped(edges, l, i), l, g) { SwappedSame(edges, l, i, g); }
    SameButAll(edges, Swapped(edges, l, i), l);
  }

  lemma SameButAll(edges: Edges, edges': Edges, l: seq<Half>)
    requires forall g: Half :: SameBut(edges, edges', l, g)
    ensures SameEdges(edges, edges') && forall g: Half :: g.e in edges && g !in l ==> Get(edges', g) == Get(edges, g)
  {
    forall e: nat ensures e in edges <==> e in edges' { assert SameBut(edges, edges', l, Half(e, A)); }
    forall e: nat | e in edges
      ensures edges'[e].source == edges[e].source && edges'[e].target == edges[e].target
          && edges'[e].index == edges[e].index
    { assert SameBut(edges, edges', l, Half(e, A)); }
    forall g: Half | g.e in edges && g !in l ensures Get(edges', g) == Get(edges, g) {
      assert SameBut(edges, edges', l, g);
    }
  }

  lemma SwapOutOnly(s: Store, i: nat)
    requires Position(s, All, i) && Present(s.edges, s.lists[All]) && ListOk(s, All)
    ensures OnlyList(s, SwapOut(s, i), All, s.lists[All][i])
  {
    SwappedOnly(s.edges, s.lists[All], i);
    forall g: Half | g.e in s.edges && Owner(s, g) != All ensures g !in s.lists[All] {
      assert g in s.lists[All] ==> MemberOk(s, All, g);
    }
  }

  // ---- whole graphs -----------------------------------------------------------------------------

  /** Every half of every edge but `e` is in its list. */
  ghost predicate Full(s: Store, e: nat) {
    forall h: Half {:trigger InPlace(s, h)} :: h.e in s.edges && h.e != e ==> InPlace(s, h)
  }

  predicate DegreesAt(s: Store, n: nat)
    requires n in s.nodes && Out(n) in s.lists && In(n) in s.lists
  {
    s.nodes[n].outDeg == |s.lists[Out(n)]| && s.nodes[n].inDeg == |s.lists[In(n)]|
  }

  ghost predicate Degrees(s: Store) {
    forall n: nat {:trigger DegreesAt(s, n)} :: n in s.nodes ==>
        Out(n) in s.lists && In(n) in s.lists && DegreesAt(s, n)
  }

  /** The index of an edge is its position in the list of all edges. */
  predicate IndexAt(s: Store, i: nat) {
    All in s.lists && (i < |s.lists[All]| ==> s.lists[All][i].e in s.edges && s.edges[s.lists[All][i].e].index == i)
  }

  ghost predicate Indexed(s: Store) {
    All in s.lists && forall i: nat {:trigger IndexAt(s, i)} :: i < |s.lists[All]| ==> IndexAt(s, i)
  }

  /** The lists are proper chains of exactly the right edges, degrees are their lengths, and indices the positions
      in the list of all edges. */
  ghost predicate Good(s: Store) { Linked(s) && Full(s, 0) && Degrees(s) && Indexed(s) }

  /** The two halves of an edge that are on one list are the same half. */
  lemma OneHalf(s: Store, g: Half, h: Half)
    requires g.e == h.e && g.e in s.edges && EdgeOk(s, g.e) && Owner(s, g) == Owner(s, h)
    ensures g == h
  {
  }

  /** A loose half shares its list with no other half of its edge. */
  lemma LooseAlone(s: Store, h: Half)
    requires Linked(s) && Loose(s, h)
    ensures forall i: nat :: i < |s.lists[Owner(s, h)]| ==> s.lists[Owner(s, h)][i].e != h.e
  {
    var l := s.lists[Owner(s, h)];
    assert ListOk(s, Owner(s, h)) && EdgeOk(s, h.e);
    forall i: nat | i < |l| ensures l[i].e != h.e {
      assert l[i] in l && MemberOk(s, Owner(s, h), l[i]);
      if l[i].e == h.e { OneHalf(s, l[i], h); }
    }
  }

  // ---- a new edge -------------------------------------------------------------------------------

  function FreshEdge(source: nat, target: nat, index: nat): Edge {
    Edge(source, target, index, Links(0, 0), Links(0, 0), Links(0, 0))
  }

  function WithEdge(s: Store, e: nat, x: Edge): Store { s.(edges := s.edges[e := x]) }

  lemma WithEdgeLinked(s: Store, e: nat, source: nat, target: nat, index: nat)
    requires Linked(s) && Full(s, 0) && e != 0 && e !in s.edges && source in s.nodes && target in s.nodes
    requires s.directed || source != target
    ensures var t := WithEdge(s, e, FreshEdge(source, target, index));
            Linked(t) && Full(t, e) && Loose(t, Half(e, A)) && Loose(t, Half(e, S)) && Loose(t, Half(e, T))
  {
    var t := WithEdge(s, e, FreshEdge(source, target, index));
    forall id: ListId | id in t.lists ensures ListOk(t, id) && forall h: Half :: h in t.lists[id] ==> h.e != e {
      assert ListOk(s, id);
      forall h: Half | h in s.lists[id] ensures h.e != e && MemberOk(t, id, h) { assert MemberOk(s, id, h); }
      forall i: nat | i < |s.lists[id]| ensures s.lists[id][i].e in s.edges && s.lists[id][i].e != e {
        assert s.lists[id][i] in s.lists[id] && MemberOk(s, id, s.lists[id][i]);
      }
      ChainFrame(s.edges, t.edges, s.lists[id], EndsOf(s, id));
    }
    forall x: nat | x in t.edges ensures EdgeOk(t, x) { assert x != e ==> EdgeOk(s, x); }
    forall id: ListId ensures id in t.lists <==> IdOk(t, id) { assert IdOk(s, id) <==> IdOk(t, id); }
    forall h: Half | h.e in t.edges && h.e != e
        ensures InPlace(t, h) { assert InPlace(s, h) by { assert EdgeOk(s, h.e); } }
    forall h: Half | h.e == e ensures Loose(t, h) { assert IdOk(t, Owner(t, h)); }
  }

  /** Attaching one half leaves the other halves of the edge loose, and all other halves in place. */
  lemma AttachKeeps(s: Store, h: Half, e: nat)
    requires Linked(s) && Loose(s, h) && Full(s, e) && h.e == e
    ensures var t := Attach(s, h);
            && Linked(t) && Full(t, e) && InPlace(t, h) && t.lists == s.lists[Owner(s, h) := s.lists[Owner(s, h)] + [h]]
            && OnlyList(s, t, Owner(s, h), h)
            && forall g: Half :: g.e == e && g != h ==>
                (Loose(s, g) ==> Loose(t, g)) && (InPlace(s, g) ==> InPlace(t, g))
  {
    LooseAlone(s, h);
    AttachLinked(s, h);
    var t, id := Attach(s, h), Owner(s, h);
    SameOwners(s, t);
    forall g: Half | g.e in t.edges && g.e != e ensures InPlace(t, g) { assert InPlace(s, g); }
    forall g: Half | g.e == e && g != h ensures (Loose(s, g) ==> Loose(t, g)) && (InPlace(s, g) ==> InPlace(t, g)) {
      if Owner(s, g) == id { assert EdgeOk(s, e); OneHalf(s, g, h); }
    }
  }

  lemma SameOwners(s: Store, t: Store)
    requires t.directed == s.directed && SameEdges(s.edges, t.edges)
    ensures forall g: Half :: g.e in s.edges ==> g.e in t.edges && Owner(t, g) == Owner(s, g)
  {
  }

  function ChangeDegree(s: Store, id: ListId, up: bool): Store {
    match id
    case All => s
    case Out(n) =>
      if n !in s.nodes then s else
      var x := s.nodes[n];
      s.(nodes := s.nodes[n := x.(outDeg := if up then x.outDeg + 1 else if x.outDeg > 0 then x.outDeg - 1 else 0)])
    case In(n) =>
      if n !in s.nodes then s else
      var x := s.nodes[n];
      s.(nodes := s.nodes[n := x.(inDeg := if up then x.inDeg + 1 else if x.inDeg > 0 then x.inDeg - 1 else 0)])
  }

  lemma ChangeDegreeKeeps(s: Store, id: ListId, up: bool)
    requires Linked(s) && IdOk(s, id)
    ensures var t := ChangeDegree(s, id, up);
            && Linked(t) && t.lists == s.lists && t.edges == s.edges && t.directed == s.directed
                && t.nodes.Keys == s.nodes.Keys
            && forall j: ListId :: EndsOf(t, j) == EndsOf(s, j)
  {
    var t := ChangeDegree(s, id, up);
    forall j: ListId ensures EndsOf(t, j) == EndsOf(s, j) && (j in t.lists <==> IdOk(t, j)) {
      assert IdOk(s, j) <==> IdOk(t, j);
    }
    forall j: ListId | j in t.lists ensures ListOk(t, j) {
      assert ListOk(s, j);
      forall g: Half | g in t.lists[j] ensures MemberOk(t, j, g) { assert MemberOk(s, j, g); }
    }
    forall e: nat | e in t.edges ensures EdgeOk(t, e) { assert EdgeOk(s, e); }
  }

  /** What the degree of a node should be, one list at a time. */
  function DegreeOf(s: Store, id: ListId): nat {
    match id
    case All => 0
    case Out(n) => if n in s.nodes then s.nodes[n].outDeg else 0
    case In(n) => if n in s.nodes then s.nodes[n].inDeg else 0
  }

  predicate DegreeOk(s: Store, id: ListId) { id in s.lists && id != All ==> DegreeOf(s, id) == |s.lists[id]| }

  lemma DegreesByList(s: Store)
    requires Linked(s)
    ensures Degrees(s) <==> forall id: ListId :: DegreeOk(s, id)
  {
    if Degrees(s) {
      forall id: ListId ensures DegreeOk(s, id) {
        if id in s.lists && id != All {
          assert IdOk(s, id);
          assert IdOk(s, Out(id.n)) && IdOk(s, In(id.n));
          assert DegreesAt(s, id.n);
        }
      }
    }
    if forall id: ListId :: DegreeOk(s, id) {
      forall n: nat | n in s.nodes ensures Out(n) in s.lists && In(n) in s.lists && DegreesAt(s, n) {
        assert IdOk(s, Out(n)) && IdOk(s, In(n)) && DegreeOk(s, Out(n)) && DegreeOk(s, In(n));
      }
    }
  }

  // ---- adding -----------------------------------------------------------------------------------

  function Linking(s: Store, e: nat, source: nat, target: nat): Store {
    WithEdge(s, e, FreshEdge(source, target, if All in s.lists then |s.lists[All]| else 0))
  }

  /** The three lists, one after the other. */
  function Attached(s: Store, e: nat): Store
    requires e in s.edges
  {
    AttachIf(AttachIf(AttachIf(s, Half(e, A)), Half(e, T)), Half(e, S))
  }

  function AttachIf(s: Store, h: Half): (t: Store)
    ensures SameKeys(s, t)
  {
    if h.e in s.edges && Owner(s, h) in s.lists then Attach(s, h) else s
  }

  predicate SameKeys(s: Store, t: Store) { t.edges.Keys == s.edges.Keys }

  /** The graph with a new edge `e`. */
  function Added(s: Store, e: nat, source: nat, target: nat): Store {
    var t := Attached(Linking(s, e, source, target), e);
    ChangeDegree(ChangeDegree(t, TargetList(s, target), true), Out(source), true)
  }

  /** What one step keeps: nodes, edges, degrees, and lists but `h` at the end of its own. */
  ghost predicate Step(s: Store, t: Store, h: Half)
    requires h.e in s.edges && Owner(s, h) in s.lists
  {
    && t.directed == s.directed && t.nodes.Keys == s.nodes.Keys && SameEdges(s.edges, t.edges)
    && t.lists == s.lists[Owner(s, h) := s.lists[Owner(s, h)] + [h]]
    && forall id: ListId :: DegreeOf(t, id) == DegreeOf(s, id)
  }

  lemma AttachStep(s: Store, h: Half, e: nat)
    requires Linked(s) && Loose(s, h) && Full(s, e) && h.e == e
    ensures var t := AttachIf(s, h); Linked(t) && Full(t, e) && InPlace(t, h) && Step(s, t, h)
  {
    AttachKeeps(s, h, e);
    var t := Attach(s, h);
    SameDegrees(s, t);
    assert AttachIf(s, h) == t;
    assert Step(s, t, h);
  }

  lemma SameDegrees(s: Store, t: Store)
    requires t.nodes.Keys == s.nodes.Keys
    requires forall n: nat :: n in s.nodes ==>
        t.nodes[n].inDeg == s.nodes[n].inDeg && t.nodes[n].outDeg == s.nodes[n].outDeg
    ensures forall id: ListId :: DegreeOf(t, id) == DegreeOf(s, id)
  {
  }

  lemma AttachOthers(s: Store, h: Half, g: Half)
    requires Linked(s) && Loose(s, h) && Full(s, h.e) && g.e == h.e && g != h
    ensures Loose(s, g) ==> Loose(AttachIf(s, h), g)
    ensures InPlace(s, g) ==> InPlace(AttachIf(s, h), g)
  {
    AttachKeeps(s, h, h.e);
  }

  lemma AttachedKeeps(s: Store, e: nat)
    requires Linked(s) && Full(s, e) && e in s.edges && Loose(s, Half(e, A)) && Loose(s, Half(e, T))
        && Loose(s, Half(e, S))
    ensures var t := Attached(s, e);
            && Linked(t) && Full(t, 0) && t.directed == s.directed && t.nodes.Keys == s.nodes.Keys
                && SameEdges(s.edges, t.edges)
            && CanGrow(s.lists, Owner(s, Half(e, T)), Owner(s, Half(e, S)))
            && t.lists == Grown(s.lists, e, Owner(s, Half(e, T)), Owner(s, Half(e, S)))
            && forall id: ListId :: DegreeOf(t, id) == DegreeOf(s, id)
  {
    var a, t, o := Half(e, A), Half(e, T), Half(e, S);
    var s1 := AttachIf(s, a);
    AttachStep(s, a, e);
    AttachOthers(s, a, t);
    AttachOthers(s, a, o);
    var s2 := AttachIf(s1, t);
    AttachStep(s1, t, e);
    AttachOthers(s1, t, a);
    AttachOthers(s1, t, o);
    var s3 := AttachIf(s2, o);
    AttachStep(s2, o, e);
    AttachOthers(s2, o, a);
    AttachOthers(s2, o, t);
    AllThree(s3, e);
    OwnersApart(s, e);
  }

  lemma AllThree(s: Store, e: nat)
    requires Full(s, e) && InPlace(s, Half(e, A)) && InPlace(s, Half(e, T)) && InPlace(s, Half(e, S))
    ensures Full(s, 0)
  {
    forall h: Half | h.e in s.edges ensures InPlace(s, h) {
      if h.e == e { assert h == Half(e, A) || h == Half(e, T) || h == Half(e, S); }
    }
  }

  lemma OwnersApart(s: Store, e: nat)
    requires e in s.edges && EdgeOk(s, e)
    ensures All != Owner(s, Half(e, T)) && All != Owner(s, Half(e, S)) && Owner(s, Half(e, T)) != Owner(s, Half(e, S))
  {
  }

  /** `t` is `s` with a new edge `e`, which is at the end of its three lists. */
  ghost predicate HasAdded(s: Store, t: Store, e: nat, source: nat, target: nat) {
    && t.edges.Keys == s.edges.Keys + {e} && t.edges[e].source == source && t.edges[e].target == target
    && t.nodes.Keys == s.nodes.Keys && t.directed == s.directed
    && (forall y: nat :: y in s.edges ==> SameIdentity(s, t, y))
    && CanGrow(s.lists, TargetList(s, target), Out(source))
    && t.lists == Grown(s.lists, e, TargetList(s, target), Out(source))
  }

  predicate CanGrow(lists: map<ListId, seq<Half>>, i: ListId, o: ListId) { All in lists && i in lists && o in lists }

  /** The lists with the halves of `e` at the end of theirs. */
  function Grown(lists: map<ListId, seq<Half>>, e: nat, i: ListId, o: ListId): map<ListId, seq<Half>>
    requires CanGrow(lists, i, o)
  {
    lists[All := lists[All] + [Half(e, A)]][i := lists[i] + [Half(e, T)]][o := lists[o] + [Half(e, S)]]
  }

  /** Edge `y` has the source, target and index it had. */
  predicate SameIdentity(s: Store, t: Store, y: nat) {
    y in s.edges && y in t.edges && t.edges[y].source == s.edges[y].source && t.edges[y].target == s.edges[y].target
    && t.edges[y].index == s.edges[y].index
  }

  /** A new edge joins the end of three lists, and the graph stays good: step by step, `x` has the edge, `y` its
      links, `z` and `t` the degrees. */
  lemma AddedGood(s: Store, e: nat, source: nat, target: nat, x: Store, y: Store, z: Store, t: Store)
    requires Good(s) && e != 0 && e !in s.edges && source in s.nodes && target in s.nodes
        && (s.directed || source != target)
    requires x == Linking(s, e, source, target) && e in x.edges && y == Attached(x, e)
    requires z == ChangeDegree(y, TargetList(s, target), true) && t == ChangeDegree(z, Out(source), true)
    ensures Good(t) && HasAdded(s, t, e, source, target)
  {
    assert IdOk(s, All);
    AddedLinked(s, e, source, target, x, y);
    CountedGood(s, e, source, target, y, z, t);
  }

  lemma AddedLinked(s: Store, e: nat, source: nat, target: nat, x: Store, y: Store)
    requires Good(s) && e != 0 && e !in s.edges && source in s.nodes && target in s.nodes
        && (s.directed || source != target)
    requires All in s.lists && x == Linking(s, e, source, target) && e in x.edges && y == Attached(x, e)
    ensures Linked(y) && Full(y, 0) && HasAdded(s, y, e, source, target) && y.edges[e].index == |s.lists[All]|
    ensures forall id: ListId :: DegreeOf(y, id) == DegreeOf(s, id)
  {
    WithEdgeLinked(s, e, source, target, |s.lists[All]|);
    AttachedKeeps(x, e);
    AddedShape(s, e, source, target, x, y);
  }

  lemma CountedGood(s: Store, e: nat, source: nat, target: nat, y: Store, z: Store, t: Store)
    requires Good(s) && source in s.nodes && target in s.nodes && (s.directed || source != target)
    requires Linked(y) && Full(y, 0) && HasAdded(s, y, e, source, target) && y.edges[e].index == |s.lists[All]|
    requires forall id: ListId :: DegreeOf(y, id) == DegreeOf(s, id)
    requires z == ChangeDegree(y, TargetList(s, target), true) && t == ChangeDegree(z, Out(source), true)
    ensures Good(t) && HasAdded(s, t, e, source, target)
  {
    ChangeDegreeKeeps(y, TargetList(s, target), true);
    ChangeDegreeKeeps(z, Out(source), true);
    SameOwnersFull(y, t, 0);
    forall w: nat | w in s.edges ensures SameIdentity(s, t, w) { assert SameIdentity(s, y, w); }
    AddedDegrees(s, y, z, t, e, source, target);
    AddedIndexed(s, t, e, source, target);
  }

  lemma AddedShape(s: Store, e: nat, source: nat, target: nat, x: Store, y: Store)
    requires Good(s) && e !in s.edges && x == Linking(s, e, source, target) && e in x.edges
        && SameEdges(x.edges, y.edges)
    requires source in s.nodes && target in s.nodes && y.nodes.Keys == s.nodes.Keys && y.directed == s.directed
    requires CanGrow(s.lists, TargetList(s, target), Out(source))
        && y.lists == Grown(s.lists, e, TargetList(s, target), Out(source))
    ensures HasAdded(s, y, e, source, target) && y.edges[e].index == |s.lists[All]|
  {
    forall w: nat | w in s.edges ensures SameIdentity(s, y, w) { assert x.edges[w] == s.edges[w]; }
  }

  lemma SameOwnersFull(s: Store, t: Store, e: nat)
    requires Full(s, e) && t.edges == s.edges && t.lists == s.lists && t.directed == s.directed
    ensures Full(t, e)
  {
    forall h: Half | h.e in t.edges && h.e != e ensures InPlace(t, h) { assert InPlace(s, h); }
  }

  lemma ChangeDegreeIs(s: Store, id: ListId, up: bool, j: ListId)
    requires IdOk(s, id) && (!up ==> DegreeOf(s, id) > 0)
    ensures DegreeOf(ChangeDegree(s, id, up), j)
         == if j == id && id != All then (if up then DegreeOf(s, j) + 1 else DegreeOf(s, j) - 1) else DegreeOf(s, j)
  {
  }

  lemma AddedDegrees(s: Store, y: Store, z: Store, t: Store, e: nat, source: nat, target: nat)
    requires Good(s) && HasAdded(s, y, e, source, target) && source in s.nodes && target in s.nodes
        && (s.directed || source != target)
    requires forall id: ListId :: DegreeOf(y, id) == DegreeOf(s, id)
    requires z == ChangeDegree(y, TargetList(s, target), true) && t == ChangeDegree(z, Out(source), true)
    requires Linked(t) && t.lists == y.lists && z.nodes.Keys == y.nodes.Keys
    ensures Degrees(t)
  {
    var o, i := Out(source), TargetList(s, target);
    DegreesByList(s);
    forall id: ListId ensures DegreeOk(t, id) {
      assert DegreeOk(s, id) && DegreeOf(y, id) == DegreeOf(s, id);
      ChangeDegreeIs(y, i, true, id);
      ChangeDegreeIs(z, o, true, id);
      if id in t.lists && id != All { GrownLength(s.lists, e, i, o, id); }
    }
    DegreesByList(t);
  }

  lemma GrownLength(lists: map<ListId, seq<Half>>, e: nat, i: ListId, o: ListId, id: ListId)
    requires CanGrow(lists, i, o) && i != o && i != All && o != All && id in Grown(lists, e, i, o) && id != All
    ensures id in lists && |Grown(lists, e, i, o)[id]| == |lists[id]| + if id == o || id == i then 1 else 0
  {
  }

  lemma GrownAll(lists: map<ListId, seq<Half>>, e: nat, i: ListId, o: ListId)
    requires CanGrow(lists, i, o) && i != All && o != All
    ensures All in Grown(lists, e, i, o) && Grown(lists, e, i, o)[All] == lists[All] + [Half(e, A)]
  {
  }

  lemma AddedIndexed(s: Store, t: Store, e: nat, source: nat, target: nat)
    requires Good(s) && HasAdded(s, t, e, source, target) && t.edges[e].index == |s.lists[All]|
    ensures Indexed(t)
  {
    var l := s.lists[All];
    GrownAll(s.lists, e, TargetList(s, target), Out(source));
    forall i: nat | i < |l| + 1 ensures IndexAt(t, i) {
      if i < |l| {
        assert IndexAt(s, i) && t.lists[All][i] == l[i] && SameIdentity(s, t, l[i].e);
      }
    }
  }

  // ---- deleting ---------------------------------------------------------------------------------

  /** What taking `h` out of its list keeps, where `l` is what is left of the list. */
  ghost predicate StepOut(s: Store, t: Store, h: Half, l: seq<Half>)
    requires h.e in s.edges && Owner(s, h) in s.lists
  {
    && t.directed == s.directed && t.nodes.Keys == s.nodes.Keys && SameEdges(s.edges, t.edges)
    && t.lists == s.lists[Owner(s, h) := l]
    && forall id: ListId :: DegreeOf(t, id) == DegreeOf(s, id)
  }

  /** Half `h` is at position `i` of its list. */
  predicate Sits(s: Store, h: Half, i: nat) {
    h.e in s.edges && Owner(s, h) in s.lists && i < |s.lists[Owner(s, h)]| && s.lists[Owner(s, h)][i] == h
  }

  predicate Gone(s: Store, h: Half) { h.e in s.edges && Owner(s, h) in s.lists && h !in s.lists[Owner(s, h)] }

  lemma DetachStep(s: Store, h: Half, i: nat)
    requires Linked(s) && Full(s, h.e) && Sits(s, h, i)
    ensures var t := Detach(s, Owner(s, h), i);
            Linked(t) && Full(t, h.e) && Gone(t, h) && StepOut(s, t, h, Deleted(s.lists[Owner(s, h)], i))
  {
    var id := Owner(s, h);
    DetachLinked(s, id, i);
    var t := Detach(s, id, i);
    SameDegrees(s, t);
    LeftInPlace(s, t, h, i, Deleted(s.lists[id], i));
    assert StepOut(s, t, h, Deleted(s.lists[id], i));
  }

  lemma SwapOutStep(s: Store, h: Half, i: nat)
    requires Linked(s) && Full(s, h.e) && Sits(s, h, i) && h.side == A
    ensures Present(s.edges, s.lists[All])
    ensures var t := SwapOut(s, i);
            Linked(t) && Full(t, h.e) && Gone(t, h) && StepOut(s, t, h, SwapDeleted(s.lists[All], i))
  {
    SwapOutLinked(s, i);
    var t := SwapOut(s, i);
    SameDegrees(s, t);
    LeftInPlace(s, t, h, i, SwapDeleted(s.lists[All], i));
    assert StepOut(s, t, h, SwapDeleted(s.lists[All], i));
  }

  /** The other halves stay in place. */
  lemma LeftInPlace(s: Store, t: Store, h: Half, i: nat, l: seq<Half>)
    requires Linked(s) && Full(s, h.e) && Sits(s, h, i) && t.directed == s.directed && SameEdges(s.edges, t.edges)
    requires t.lists == s.lists[Owner(s, h) := l]
    requires l == Deleted(s.lists[Owner(s, h)], i) || l == SwapDeleted(s.lists[Owner(s, h)], i)
    ensures Full(t, h.e) && Gone(t, h)
  {
    var id := Owner(s, h);
    SameOwners(s, t);
    assert ListOk(s, id);
    DeletedIn(s.lists[id], i);
    SwapDeletedIn(s.lists[id], i);
    forall g: Half | g.e in t.edges && g.e != h.e ensures InPlace(t, g) { assert InPlace(s, g); }
  }

  /** The other halves of the edge stay where they are, or out of their lists. */
  lemma OtherHalf(s: Store, t: Store, h: Half, l: seq<Half>, g: Half, j: nat)
    requires Linked(s) && h.e in s.edges && Owner(s, h) in s.lists && StepOut(s, t, h, l) && g.e == h.e && g != h
    ensures (Sits(s, g, j) ==> Sits(t, g, j)) && (Gone(s, g) ==> Gone(t, g))
  {
    SameOwners(s, t);
    assert EdgeOk(s, h.e);
    if Owner(s, g) == Owner(s, h) { OneHalf(s, g, h); }
  }

  /** Edge `z` gets index `i`. */
  function Reindexed(s: Store, z: nat, i: nat): Store {
    if z in s.edges then s.(edges := s.edges[z := s.edges[z].(index := i)]) else s
  }

  lemma ReindexedKeeps(s: Store, z: nat, i: nat, e: nat)
    requires Linked(s) && Full(s, e)
    ensures var t := Reindexed(s, z, i); Linked(t) && Full(t, e)
    ensures forall id: ListId :: DegreeOf(Reindexed(s, z, i), id) == DegreeOf(s, id)
  {
    var t := Reindexed(s, z, i);
    forall id: ListId | id in t.lists ensures ListOk(t, id) {
      assert ListOk(s, id);
      forall k: nat | k < |s.lists[id]|
          ensures s.lists[id][k].e in t.edges && Get(t.edges, s.lists[id][k]) == Get(s.edges, s.lists[id][k]) {
        assert s.lists[id][k] in s.lists[id] && MemberOk(s, id, s.lists[id][k]);
      }
      ChainFrame(s.edges, t.edges, s.lists[id], EndsOf(s, id));
      forall h: Half | h in t.lists[id] ensures MemberOk(t, id, h) { assert MemberOk(s, id, h); }
    }
    forall x: nat | x in t.edges ensures EdgeOk(t, x) { assert EdgeOk(s, x); }
    forall id: ListId ensures id in t.lists <==> IdOk(t, id) { assert IdOk(s, id) <==> IdOk(t, id); }
    forall h: Half | h.e in t.edges && h.e != e ensures InPlace(t, h) { assert InPlace(s, h); }
  }

  lemma ReindexedSits(s: Store, z: nat, i: nat, g: Half, j: nat)
    ensures var t := Reindexed(s, z, i); (Sits(s, g, j) ==> Sits(t, g, j)) && (Gone(s, g) ==> Gone(t, g))
  {
    assert g.e in s.edges ==> Owner(Reindexed(s, z, i), g) == Owner(s, g);
  }

  function WithoutEdge(s: Store, e: nat): Store { s.(edges := s.edges - {e}) }

  /** An edge that is on no list may be given up. */
  lemma WithoutEdgeLinked(s: Store, e: nat)
    requires Linked(s) && Full(s, e) && Gone(s, Half(e, A)) && Gone(s, Half(e, S)) && Gone(s, Half(e, T))
    ensures var t := WithoutEdge(s, e); Linked(t) && Full(t, 0)
  {
    var t := WithoutEdge(s, e);
    forall id: ListId, h: Half | id in s.lists && h in s.lists[id] ensures h.e != e && MemberOk(s, id, h) {
      assert ListOk(s, id) && MemberOk(s, id, h);
      assert h.e == e ==> h == Half(e, A) || h == Half(e, S) || h == Half(e, T);
    }
    forall id: ListId | id in t.lists ensures ListOk(t, id) {
      assert ListOk(s, id);
      forall k: nat | k < |s.lists[id]|
          ensures s.lists[id][k].e in t.edges && Get(t.edges, s.lists[id][k]) == Get(s.edges, s.lists[id][k]) {
        assert s.lists[id][k] in s.lists[id];
      }
      ChainFrame(s.edges, t.edges, s.lists[id], EndsOf(s, id));
      forall h: Half | h in t.lists[id] ensures MemberOk(t, id, h) { assert MemberOk(s, id, h); }
    }
    forall x: nat | x in t.edges ensures EdgeOk(t, x) { assert EdgeOk(s, x); }
    forall id: ListId ensures id in t.lists <==> IdOk(t, id) { assert IdOk(s, id) <==> IdOk(t, id); }
    forall h: Half | h.e in t.edges ensures InPlace(t, h) { assert InPlace(s, h); }
  }

  /** Where the halves of an edge of a good graph are. */
  lemma Positions(s: Store, e: nat) returns (j: nat, k: nat)
    requires Good(s) && e in s.edges
    ensures Sits(s, Half(e, A), s.edges[e].index) && Sits(s, Half(e, T), j) && Sits(s, Half(e, S), k)
  {
    assert EdgeOk(s, e);
    assert InPlace(s, Half(e, A)) && InPlace(s, Half(e, T)) && InPlace(s, Half(e, S));
    var i: nat :| i < |s.lists[All]| && s.lists[All][i] == Half(e, A);
    assert IndexAt(s, i);
    j :| j < |s.lists[Owner(s, Half(e, T))]| && s.lists[Owner(s, Half(e, T))][j] == Half(e, T);
    k :| k < |s.lists[Owner(s, Half(e, S))]| && s.lists[Owner(s, Half(e, S))][k] == Half(e, S);
  }

  /** `t` is `s` without edge `e`, whose index the last edge `z` has taken over. */
  ghost predicate HasRemoved(s: Store, t: Store, e: nat, z: nat, j: nat, k: nat)
    requires Sits(s, Half(e, T), j) && Sits(s, Half(e, S), k) && Sits(s, Half(e, A), s.edges[e].index)
  {
    var x := s.edges[e];
    && t.edges.Keys == s.edges.Keys - {e} && t.nodes.Keys == s.nodes.Keys && t.directed == s.directed
    && (forall y: nat {:trigger t.edges[y]} :: y in t.edges ==>
          && t.edges[y].source == s.edges[y].source && t.edges[y].target == s.edges[y].target
          && t.edges[y].index == if y == z then x.index else s.edges[y].index)
    && t.lists == Shrunk(s, e, j, k)
  }

  function Shrunk(s: Store, e: nat, j: nat, k: nat): map<ListId, seq<Half>>
    requires Sits(s, Half(e, T), j) && Sits(s, Half(e, S), k) && Sits(s, Half(e, A), s.edges[e].index)
  {
    var i, o := Owner(s, Half(e, T)), Owner(s, Half(e, S));
    s.lists[All := SwapDeleted(s.lists[All], s.edges[e].index)]
           [i := Deleted(s.lists[i], j)][o := Deleted(s.lists[o], k)]
  }

  /** Taking out two halves of an edge, after the first one. */
  lemma DetachBoth(s: Store, e: nat, g: Half, j: nat, h: Half, k: nat, t: Store)
    requires Linked(s) && Full(s, e) && g.e == h.e == e && g != h && g.side != A && h.side != A
    requires Sits(s, g, j) && Sits(s, h, k) && Gone(s, Half(e, A))
    requires Position(Detach(s, Owner(s, g), j), Owner(s, h), k) ==>
        t == Detach(Detach(s, Owner(s, g), j), Owner(s, h), k)
    ensures Position(Detach(s, Owner(s, g), j), Owner(s, h), k)
    ensures Linked(t) && Full(t, e) && Gone(t, Half(e, A)) && Gone(t, g) && Gone(t, h)
    ensures t.directed == s.directed && t.nodes.Keys == s.nodes.Keys && SameEdges(s.edges, t.edges)
    ensures t.lists == s.lists[Owner(s, g) := Deleted(s.lists[Owner(s, g)], j)]
                              [Owner(s, h) := Deleted(s.lists[Owner(s, h)], k)]
    ensures forall id: ListId :: DegreeOf(t, id) == DegreeOf(s, id)
  {
    var s1 := Detach(s, Owner(s, g), j);
    DetachStep(s, g, j);
    OtherHalf(s, s1, g, Deleted(s.lists[Owner(s, g)], j), h, k);
    OtherHalf(s, s1, g, Deleted(s.lists[Owner(s, g)], j), Half(e, A), 0);
    SameOwners(s, s1);
    DetachStep(s1, h, k);
    OtherHalf(s1, t, h, Deleted(s1.lists[Owner(s1, h)], k), g, 0);
    OtherHalf(s1, t, h, Deleted(s1.lists[Owner(s1, h)], k), Half(e, A), 0);
    assert EdgeOk(s, e);
    if Owner(s, g) == Owner(s, h) { OneHalf(s, g, h); }
  }

  /** The store with edge `e` off its three lists: the list of all edges first, then that of the target, then that
      of the source, or in an undirected graph the other way round. */
  ghost predicate Unlinked(s: Store, e: nat, z: nat, j: nat, k: nat, s2: Store, t: Store)
    requires Sits(s, Half(e, T), j) && Sits(s, Half(e, S), k) && Sits(s, Half(e, A), s.edges[e].index)
    requires Present(s.edges, s.lists[All])
  {
    var i := s.edges[e].index;
    var g, h, m, n := if s.directed then Half(e, T) else Half(e, S), if s.directed then Half(e, S) else Half(e, T),
                      if s.directed then j else k, if s.directed then k else j;
    && s2 == Reindexed(SwapOut(s, i), z, i)
    && e in s2.edges && Position(s2, Owner(s2, g), m) && Position(Detach(s2, Owner(s2, g), m), Owner(s2, h), n)
    && t == Detach(Detach(s2, Owner(s2, g), m), Owner(s2, h), n)
  }

  /** The first step: off the list of all edges. */
  lemma UnlinkedFirst(s: Store, e: nat, z: nat, j: nat, k: nat)
    requires Good(s) && Sits(s, Half(e, T), j) && Sits(s, Half(e, S), k) && Sits(s, Half(e, A), s.edges[e].index)
    ensures Present(s.edges, s.lists[All])
    ensures var i := s.edges[e].index; var s2 := Reindexed(SwapOut(s, i), z, i);
            && Linked(s2) && Full(s2, e) && Gone(s2, Half(e, A)) && Sits(s2, Half(e, T), j) && Sits(s2, Half(e, S), k)
            && s2.directed == s.directed && s2.nodes.Keys == s.nodes.Keys && s2.edges.Keys == s.edges.Keys
            && s2.lists == s.lists[All := SwapDeleted(s.lists[All], i)]
            && (forall id: ListId :: DegreeOf(s2, id) == DegreeOf(s, id))
            && forall y: nat {:trigger s2.edges[y]} :: y in s.edges ==>
                 s2.edges[y].source == s.edges[y].source && s2.edges[y].target == s.edges[y].target
                 && s2.edges[y].index == if y == z then i else s.edges[y].index
  {
    var i, a := s.edges[e].index, Half(e, A);
    assert Owner(s, a) == All;
    FullWithout(s, e);
    SwapOutStep(s, a, i);
    var s1 := SwapOut(s, i);
    OtherHalf(s, s1, a, SwapDeleted(s.lists[All], i), Half(e, T), j);
    OtherHalf(s, s1, a, SwapDeleted(s.lists[All], i), Half(e, S), k);
    ReindexedKeeps(s1, z, i, e);
    ReindexedSits(s1, z, i, a, 0);
    ReindexedSits(s1, z, i, Half(e, T), j);
    ReindexedSits(s1, z, i, Half(e, S), k);
  }

  lemma FullWithout(s: Store, e: nat)
    requires Full(s, 0) && Linked(s)
    ensures Full(s, e)
  {
    forall h: Half | h.e in s.edges && h.e != e ensures InPlace(s, h) { assert EdgeOk(s, h.e); }
  }

  lemma UnlinkedKeeps(s: Store, e: nat, z: nat, j: nat, k: nat, s2: Store, t: Store)
    requires Good(s) && Sits(s, Half(e, T), j) && Sits(s, Half(e, S), k) && Sits(s, Half(e, A), s.edges[e].index)
    requires Present(s.edges, s.lists[All]) && Unlinked(s, e, z, j, k, s2, t)
    ensures Linked(t) && Full(t, e) && Gone(t, Half(e, A)) && Gone(t, Half(e, T)) && Gone(t, Half(e, S))
    ensures t.directed == s.directed && t.nodes.Keys == s.nodes.Keys && t.edges.Keys == s.edges.Keys
    ensures t.lists == Shrunk(s, e, j, k) && forall id: ListId :: DegreeOf(t, id) == DegreeOf(s, id)
    ensures forall y: nat {:trigger t.edges[y]} :: y in s.edges ==>
              t.edges[y].source == s.edges[y].source && t.edges[y].target == s.edges[y].target
              && t.edges[y].index == if y == z then s.edges[e].index else s.edges[y].index
  {
    UnlinkedFirst(s, e, z, j, k);
    if s.directed { DetachBoth(s2, e, Half(e, T), j, Half(e, S), k, t); } else {
      DetachBoth(s2, e, Half(e, S), k, Half(e, T), j, t);
    }
    assert EdgeOk(s, e);
    OwnersApart(s, e);
    ShrunkEither(s, e, j, k);
    assert Owner(s2, Half(e, T)) == Owner(s, Half(e, T)) && Owner(s2, Half(e, S)) == Owner(s, Half(e, S));
  }

  lemma ShrunkEither(s: Store, e: nat, j: nat, k: nat)
    requires Sits(s, Half(e, T), j) && Sits(s, Half(e, S), k) && Sits(s, Half(e, A), s.edges[e].index)
    requires EdgeOk(s, e)
    ensures var i, o, l := Owner(s, Half(e, T)), Owner(s, Half(e, S)),
        s.lists[All := SwapDeleted(s.lists[All], s.edges[e].index)];
            Shrunk(s, e, j, k) == l[i := Deleted(l[i], j)][o := Deleted(l[o], k)] ==
                l[o := Deleted(l[o], k)][i := Deleted(l[i], j)]
  {
  }

  lemma ShrunkLength(s: Store, e: nat, j: nat, k: nat, id: ListId)
    requires Sits(s, Half(e, T), j) && Sits(s, Half(e, S), k) && Sits(s, Half(e, A), s.edges[e].index) && EdgeOk(s, e)
    requires id in s.lists && id != All
    ensures id in Shrunk(s, e, j, k)
    ensures |Shrunk(s, e, j, k)[id]| == |s.lists[id]| - if id == Owner(s, Half(e, T))
        || id == Owner(s, Half(e, S)) then 1 else 0
  {
  }

  /** The graph without edge `e`: `y` is the graph with the edge on no list, `w` and `x` have one and two degrees
      less. */
  lemma RemovedGood(s: Store, e: nat, z: nat, j: nat, k: nat, s2: Store, y: Store, w: Store, x: Store, t: Store)
    requires Good(s) && Sits(s, Half(e, T), j) && Sits(s, Half(e, S), k) && Sits(s, Half(e, A), s.edges[e].index)
    requires z == s.lists[All][|s.lists[All]| - 1].e
    requires Present(s.edges, s.lists[All]) && Unlinked(s, e, z, j, k, s2, y)
    requires w == ChangeDegree(y, Owner(s, Half(e, S)), false) && x == ChangeDegree(w, Owner(s, Half(e, T)), false)
    requires t == WithoutEdge(x, e)
    ensures Good(t) && HasRemoved(s, t, e, z, j, k)
  {
    var i, o := Owner(s, Half(e, T)), Owner(s, Half(e, S));
    UnlinkedKeeps(s, e, z, j, k, s2, y);
    assert EdgeOk(s, e);
    assert IdOk(s, i) && IdOk(s, o);
    DroppedLinked(y, e, o, i, w, x, t);
    RemovedDegrees(s, e, j, k, y, w, x, t);
    assert HasRemoved(s, t, e, z, j, k);
    RemovedIndexed(s, t, e, z, j, k);
  }

  lemma DroppedLinked(y: Store, e: nat, o: ListId, i: ListId, w: Store, x: Store, t: Store)
    requires Linked(y) && Full(y, e) && Gone(y, Half(e, A)) && Gone(y, Half(e, T)) && Gone(y, Half(e, S))
        && IdOk(y, o) && IdOk(y, i)
    requires w == ChangeDegree(y, o, false) && x == ChangeDegree(w, i, false) && t == WithoutEdge(x, e)
    ensures Linked(t) && Full(t, 0) && t.lists == y.lists && t.edges == y.edges - {e}
        && t.nodes.Keys == y.nodes.Keys && t.directed == y.directed
  {
    ChangeDegreeKeeps(y, o, false);
    ChangeDegreeKeeps(w, i, false);
    SameOwnersFull(y, x, e);
    assert Gone(x, Half(e, A)) && Gone(x, Half(e, T)) && Gone(x, Half(e, S));
    WithoutEdgeLinked(x, e);
  }

  lemma RemovedDegrees(s: Store, e: nat, j: nat, k: nat, y: Store, w: Store, x: Store, t: Store)
    requires Good(s) && Sits(s, Half(e, T), j) && Sits(s, Half(e, S), k) && Sits(s, Half(e, A), s.edges[e].index)
    requires y.nodes.Keys == s.nodes.Keys && y.directed == s.directed
        && forall id: ListId :: DegreeOf(y, id) == DegreeOf(s, id)
    requires w == ChangeDegree(y, Owner(s, Half(e, S)), false) && x == ChangeDegree(w, Owner(s, Half(e, T)), false)
    requires t == WithoutEdge(x, e) && Linked(t) && t.lists == Shrunk(s, e, j, k)
    ensures Degrees(t)
  {
    var i, o := Owner(s, Half(e, T)), Owner(s, Half(e, S));
    assert EdgeOk(s, e);
    OwnersApart(s, e);
    DegreesByList(s);
    assert DegreeOk(s, i) && DegreeOk(s, o) && DegreeOf(y, i) == DegreeOf(s, i) && DegreeOf(y, o) == DegreeOf(s, o);
    ChangeDegreeIs(y, o, false, i);
    forall id: ListId ensures DegreeOk(t, id) {
      assert DegreeOk(s, id) && DegreeOf(y, id) == DegreeOf(s, id) && DegreeOf(t, id) == DegreeOf(x, id);
      ChangeDegreeIs(y, o, false, id);
      ChangeDegreeIs(w, i, false, id);
      if id in s.lists && id != All { ShrunkLength(s, e, j, k, id); }
    }
    DegreesByList(t);
  }

  lemma RemovedIndexed(s: Store, t: Store, e: nat, z: nat, j: nat, k: nat)
    requires Good(s) && Sits(s, Half(e, T), j) && Sits(s, Half(e, S), k) && Sits(s, Half(e, A), s.edges[e].index)
    requires z == s.lists[All][|s.lists[All]| - 1].e && HasRemoved(s, t, e, z, j, k) && Linked(t)
    ensures Indexed(t)
  {
    var l, i := s.lists[All], s.edges[e].index;
    var n := |l| - 1;
    assert EdgeOk(s, e);
    OwnersApart(s, e);
    var d := SwapDeleted(l, i);
    assert t.lists[All] == d;
    assert ListOk(t, All) && ListOk(s, All);
    forall p: nat | p < |d| ensures IndexAt(t, p) {
      var q := if p == i then n else p;
      assert d[p] == l[q] && IndexAt(s, q) && d[p] in d && MemberOk(t, All, d[p]);
      assert q != n ==> l[q].e != l[n].e;
    }
  }
}
