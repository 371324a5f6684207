/** Dependency lists as the program has them: every node has a link to the next one, a cell points to its first node,
    and the free nodes are threaded through the same links. The lists of `DcState` are what these chains spell
    out; that no node is in two of them is the invariant of the solver. */
module DepLists {
  import opened DcState
  import opened DcInv

  type Ref = Option<nat>

  /** A cell record with a pointer to its first node. */
  datatype Head = Head(first: Ref, countdown: nat, val: Word, flag: Flag)

  // ---- chains ----------------------------------------------------------------------------------

  function LinkTo(l: seq<nat>, i: nat): Ref { if i < |l| then Some(l[i]) else None }

  predicate LinkOk(next: seq<Ref>, l: seq<nat>, i: nat) { i < |l| ==> l[i] < |next| && next[l[i]] == LinkTo(l, i + 1) }

  /** Following the links from the first node of `l` leads through `l` and ends there. */
  ghost predicate Chain(next: seq<Ref>, l: seq<nat>) {
    forall i: nat {:trigger LinkOk(next, l, i)} :: LinkOk(next, l, i)
  }

  /** No number occurs twice. */
  ghost predicate Once(l: seq<nat>) { forall n: nat :: Count(l, n) <= 1 }

  lemma OnceDistinct(l: seq<nat>, i: nat, j: nat)
    requires Once(l) && i < j < |l|
    ensures l[i] != l[j]
  {
    var n := l[i];
    assert l == l[..i] + [l[i]] + l[i + 1..j] + [l[j]] + l[j + 1..];
    assert Count(l, n) >= multiset([l[i]])[n] + multiset([l[j]])[n];
  }

  lemma ChainFrame(next: seq<Ref>, next': seq<Ref>, l: seq<nat>)
    requires Chain(next, l) && |next| <= |next'| && forall n: nat :: n in l && n < |next| ==> next'[n] == next[n]
    ensures Chain(next', l)
  {
    forall i: nat ensures LinkOk(next', l, i) { assert LinkOk(next, l, i); }
  }

  lemma ChainInRange(next: seq<Ref>, l: seq<nat>)
    requires Chain(next, l)
    ensures forall n: nat :: n in l ==> n < |next|
  {
    forall n: nat | n in l ensures n < |next| {
      var i: nat :| i < |l| && l[i] == n;
      assert LinkOk(next, l, i);
    }
  }

  lemma ChainTail(next: seq<Ref>, x: nat, l: seq<nat>)
    requires Chain(next, [x] + l)
    ensures Chain(next, l) && x < |next| && next[x] == LinkTo(l, 0)
  {
    assert LinkOk(next, [x] + l, 0);
    forall i: nat ensures LinkOk(next, l, i) { assert LinkOk(next, [x] + l, i + 1); }
  }

  /** A node that is in no chain is linked in front of one. */
  lemma ChainPush(next: seq<Ref>, x: nat, l: seq<nat>)
    requires Chain(next, l) && x < |next| && x !in l
    ensures Chain(next[x := LinkTo(l, 0)], [x] + l)
  {
    var next' := next[x := LinkTo(l, 0)];
    forall i: nat ensures LinkOk(next', [x] + l, i) {
      if 0 < i <= |l| { assert LinkOk(next, l, i - 1) && l[i - 1] in l; }
    }
  }

  /** Taking `m`, which follows `front`, out of its chain. */
  lemma ChainBypass(next: seq<Ref>, front: seq<nat>, m: nat, rest: seq<nat>)
    requires front != [] && Chain(next, front + ([m] + rest)) && Once(front + ([m] + rest))
    ensures var p := front[|front| - 1];
            p < |next| && m < |next| && Chain(next[p := next[m]], front + rest) && next[m] == LinkTo(rest, 0)
  {
    var l, l', k := front + ([m] + rest), front + rest, |front|;
    var p := front[k - 1];
    assert l[k - 1] == p && l[k] == m;
    assert LinkOk(next, l, k - 1) && LinkOk(next, l, k);
    var next' := next[p := next[m]];
    forall i: nat ensures LinkOk(next', l', i) {
      var j := if i < k then i else i + 1;
      assert LinkOk(next, l, j);
      if i < |l'| {
        assert l'[i] == l[j] && (i + 1 < |l'| && i + 1 != k ==> l'[i + 1] == l[j + 1]);
        if i < k - 1 { OnceDistinct(l, i, k - 1); } else if i >= k { OnceDistinct(l, k - 1, i + 1); }
      }
    }
  }

  /** Cutting a chain after its first node, and linking the others in front of `free`. */
  lemma ChainSplice(next: seq<Ref>, l: seq<nat>, free: seq<nat>)
    requires l != [] && Chain(next, l) && Chain(next, free) && Once(l + free)
    ensures l[0] < |next| && l[|l| - 1] < |next|
    ensures var next1 := next[l[|l| - 1] := LinkTo(free, 0)];
            && next1[l[0]] == LinkTo(l[1..] + free, 0)
            && Chain(next1[l[0] := None], l[..1]) && Chain(next1[l[0] := None], l[1..] + free)
  {
    var z := |l| - 1;
    assert LinkOk(next, l, 0) && LinkOk(next, l, z);
    var next1 := next[l[z] := LinkTo(free, 0)];
    var next2 := next1[l[0] := None];
    var r := l[1..] + free;
    forall i: nat ensures LinkOk(next2, r, i) {
      if i < z {
        assert LinkOk(next, l, i + 1) && (l + free)[i + 1] == l[i + 1] == r[i] && (l + free)[0] == l[0];
        OnceDistinct(l + free, 0, i + 1);
        if i + 1 < z { assert (l + free)[z] == l[z]; OnceDistinct(l + free, i + 1, z); }
      } else if i < |r| {
        assert LinkOk(next, free, i - z) && (l + free)[i + 1] == free[i - z] == r[i] && (l + free)[z] == l[z];
        OnceDistinct(l + free, z, i + 1);
        OnceDistinct(l + free, 0, i + 1);
      }
    }
  }

  // ---- cell records, nodes and links -------------------------------------------------------------

  function HeadOf(c: Cell): Head { Head(LinkTo(c.list, 0), c.countdown, c.val, c.flag) }

  predicate HeadsOk(heads: map<Addr, Head>, cells: map<Addr, Cell>) {
    heads.Keys == cells.Keys && forall a: nat :: a in cells ==> heads[a] == HeadOf(cells[a])
  }

  ghost predicate ChainsOk(next: seq<Ref>, cells: map<Addr, Cell>) {
    forall a: nat {:trigger cells[a]} :: a in cells ==> Chain(next, cells[a].list)
  }

  /** Node `n` is up to date, given the constraint objects. */
  predicate Fresh(nodes: seq<Dep>, cons: seq<Cons>, n: nat) {
    n < |nodes| && nodes[n].ts >= (if nodes[n].cons < |cons| then cons[nodes[n].cons].ts else 0)
  }

  class Links {
    var heads: map<Addr, Head>
    var nodes: seq<Dep>
    var next: seq<Ref>
    var freeHead: Ref
    ghost var cells: map<Addr, Cell>
    ghost var free: seq<nat>

    /** The chains spell out the lists of the cells and the free list. */
    ghost predicate Valid()
      reads this
    {
      && |next| == |nodes| && freeHead == LinkTo(free, 0) && HeadsOk(heads, cells)
      && Chain(next, free) && ChainsOk(next, cells)
    }

    /** The lists are those of `s`, where no node is in two of them. */
    ghost predicate Shows(s: State)
      reads this
    {
      s.cells == cells && s.nodes == nodes && s.freeNodes == free && Partition(s)
    }

    constructor ()
      ensures Valid() && cells == map[] && nodes == [] && free == []
    {
      heads, nodes, next, freeHead, cells, free := map[], [], [], None, map[], [];
    }

    /** Allocates the record of `a` on first access. */
    method Touch(a: Addr)
      requires Valid()
      modifies this`heads, this`cells
      ensures Valid() && a in heads && cells == old(cells)[a := if a in old(cells) then old(cells)[a] else FRESH_CELL]
    {
      if a !in heads {
        heads, cells := heads[a := Head(None, CELL_COUNTDOWN, 0, Untouched)], cells[a := FRESH_CELL];
      }
      assert a in old(cells) ==> old(cells)[a := old(cells)[a]] == old(cells);
    }

    method SetFlag(a: Addr, f: Flag)
      requires Valid() && a in heads
      modifies this`heads, this`cells
      ensures Valid() && cells == old(cells)[a := old(cells)[a].(flag := f)]
    {
      heads, cells := heads[a := heads[a].(flag := f)], cells[a := cells[a].(flag := f)];
    }

    method SetValue(a: Addr, v: Word)
      requires Valid() && a in heads
      modifies this`heads, this`cells
      ensures Valid() && cells == old(cells)[a := old(cells)[a].(val := v)]
    {
      heads, cells := heads[a := heads[a].(val := v)], cells[a := cells[a].(val := v)];
    }

    /** Takes the first free node, or extends the pool. */
    method AllocNode() returns (n: nat)
      requires Valid()
      modifies this`nodes, this`next, this`freeHead, this`free
      ensures n == (if old(free) == [] then |old(nodes)| else old(free)[0]) && n < |nodes|
      ensures free == (if old(free) == [] then [] else old(free)[1..])
      ensures nodes == (if old(free) == [] then old(nodes) + [Dep(0, 0)] else old(nodes))
      ensures |next| == |nodes| && freeHead == LinkTo(free, 0) && Chain(next, free) && next[..|old(next)|] == old(next)
    {
      if freeHead == None {
        n := |nodes|;
        nodes, next := nodes + [Dep(0, 0)], next + [None];
      } else {
        n := freeHead.value;
        assert free == [n] + free[1..];
        ChainTail(next, n, free[1..]);
        freeHead := next[n];
        free := free[1..];
      }
    }

    /** The clean-up loop is at the last node `p` of `front`, and `rest` is still to be looked at. */
    ghost predicate At(p: nat, front: seq<nat>, rest: seq<nat>)
      reads this
    {
      && |next| == |nodes| && freeHead == LinkTo(free, 0) && Chain(next, free) && Chain(next, front + rest)
      && front != [] && p == front[|front| - 1] && p < |next| && next[p] == LinkTo(rest, 0) && Once(front + rest + free)
    }

    /** Only the nodes of `all` have been relinked. */
    ghost predicate Relinked(links: seq<Ref>, all: multiset<nat>, front: seq<nat>, rest: seq<nat>)
      reads this
    {
      && |next| == |links| && multiset(front + rest + free) == all
      && forall n: nat :: n < |next| && n !in all ==> next[n] == links[n]
    }

    /** Unlinks `m`, the node after `p`, and frees it. */
    method FreeNext(p: nat, ghost front: seq<nat>, ghost m: nat, ghost rest: seq<nat>, ghost links: seq<Ref>,
        ghost all: multiset<nat>)
      requires At(p, front, [m] + rest) && Relinked(links, all, front, [m] + rest)
      modifies this`next, this`freeHead, this`free
      ensures free == [m] + old(free) && At(p, front, rest) && Relinked(links, all, front, rest)
    {
      ghost var l := front + ([m] + rest);
      assert l[|front| - 1] == p && l[|front|] == m;
      Moved(front, m, rest, free);
      PartsApart(l, free, p);
      ChainBypass(next, front, m, rest);
      var stale := next[p].value;
      next := next[p := next[stale]];
      ChainFrame(old(next), next, free);
      ghost var between := next;
      next := next[stale := freeHead];
      ChainFrame(between, next, front + rest);
      ChainPush(between, m, free);
      freeHead, free := Some(stale), [m] + free;
    }

    /** One turn of the clean-up loop. */
    method CleanOne(p: nat, cons: seq<Cons>, countdown: nat, ghost first: nat, ghost kept: seq<nat>,
                    ghost rest: seq<nat>, ghost links: seq<Ref>, ghost all: multiset<nat>)
      returns (p': nat, count: nat, ghost kept': seq<nat>)
      requires rest != [] && At(p, [first] + kept, rest) && Relinked(links, all, [first] + kept, rest)
      modifies this`next, this`freeHead, this`free
      ensures At(p', [first] + kept', rest[1..]) && Relinked(links, all, [first] + kept', rest[1..])
      ensures if Fresh(nodes, cons, rest[0]) then kept' == kept + [rest[0]] && free == old(free) && count ==
          countdown + 1
              else kept' == kept && free == [rest[0]] + old(free) && count == countdown
    {
      var m := next[p].value;
      ghost var front := [first] + kept;
      p', count, kept' := p, countdown, kept;
      assert rest == [m] + rest[1..];
      if Fresh(nodes, cons, m) {
        p', count, kept' := m, countdown + 1, kept + [m];
        assert [first] + kept' + rest[1..] == front + rest && [first] + kept' == front + [m];
        assert LinkOk(next, front + rest, |front|);
      } else {
        FreeNext(p, front, m, rest[1..], links, all);
      }
    }

    /** The clean-up loop over the successors of `first`: frees the stale ones and counts the others. */
    method CleanUp(first: nat, cons: seq<Cons>, ghost list: seq<nat>, ghost s: State)
        returns (countdown: nat, ghost kept: seq<nat>)
      requires At(first, [first], list)
      requires s.cons == cons && |s.nodes| <= |nodes| && nodes[..|s.nodes|] == s.nodes
          && forall n: nat :: n in list ==> n < |s.nodes|
      modifies this`next, this`freeHead, this`free
      ensures kept == Keep(s, list) && countdown == |kept| && free == Release(s, list, old(free))
      ensures |next| == |nodes| && freeHead == LinkTo(free, 0) && Chain(next, free) && Chain(next, [first] + kept)
      ensures Relinked(old(next), multiset([first] + list + old(free)), [first] + kept, [])
    {
      var p := first;
      ghost var rest, all := list, multiset([first] + list + free);
      countdown, kept := 0, [];
      assert [first] + kept == [first];
      while next[p] != None
        invariant At(p, [first] + kept, rest) && Relinked(old(next), all, [first] + kept, rest)
        invariant (forall n: nat :: n in rest ==> n < |s.nodes|) && countdown == |kept|
        invariant Cleans(s, list, old(free), kept, rest, free)
        decreases |rest|
      {
        ghost var was, fr := kept, free;
        SameFreshness(s, nodes, rest);
        p, countdown, kept := CleanOne(p, cons, countdown, first, kept, rest, old(next), all);
        CleanStep(s, list, old(free), was, rest, fr, kept, free);
        rest := rest[1..];
      }
      assert kept + Keep(s, rest) == kept && [first] + kept + [] == [first] + kept;
    }

    /** Takes a node from the pool and links it in front of the list of `a`. */
    method PushNode(a: Addr, ghost s: State) returns (n: nat)
      requires Valid() && a in heads && Shows(s) && forall m: nat :: m in free ==> m < |nodes|
      modifies this`nodes, this`next, this`freeHead, this`free
      ensures n == (if old(free) == [] then |old(nodes)| else old(free)[0])
      ensures free == (if old(free) == [] then [] else old(free)[1..])
      ensures nodes == (if old(free) == [] then old(nodes) + [Dep(0, 0)] else old(nodes))
      ensures At(n, [n], cells[a].list) && |old(next)| <= |next|
      ensures forall m: nat :: m < |old(next)| && m != n ==> next[m] == old(next)[m]
      ensures forall b: nat, m: nat :: b != a && Listed(s, b, m) ==> m !in [n] + cells[a].list + free
    {
      ghost var links, list := next, cells[a].list;
      ListsInRange(s, next);
      MineApart(s, a);
      n := AllocNode();
      ChainFrame(links, next, list);
      ChainPush(next, n, list);
      ghost var before := next;
      next := next[n := heads[a].first];
      ChainFrame(before, next, free);
    }

    /** Puts a new node at the front of the list of `a`, and cleans the list up if its countdown is over. */
    method AddNode(a: Addr, d: Dep, cons: seq<Cons>, ghost s: State)
      requires Valid() && a in heads && Shows(s) && s.cons == cons
      requires forall n: nat :: n in cells[a].list || n in free ==> n < |nodes|
      modifies this
      ensures Valid()
      ensures var s' := DcState.AddNode(s, a, d); cells == s'.cells && nodes == s'.nodes && free == s'.freeNodes
    {
      ghost var links, list := next, cells[a].list;
      var n := PushNode(a, s);
      ghost var mine, kept, pushed := multiset([n] + list + free), list, next;
      var head := heads[a].(first := Some(n));
      if head.countdown > 0 {
        head := head.(countdown := head.countdown - 1);
      } else {
        var countdown;
        countdown, kept := CleanUp(n, cons, list, s);
        head := head.(countdown := countdown);
      }
      MineRelinked(links, pushed, next, n, mine);
      OthersChained(links, next, s, a, mine);
      PutNode(a, n, d, head, kept, s);
    }

    /** Fills in the new first node `n` of `a` and stores the record of the cell. */
    method PutNode(a: Addr, n: nat, d: Dep, head: Head, ghost kept: seq<nat>, ghost s: State)
      requires a in cells && s.cells == cells && n < |nodes| == |next| && freeHead == LinkTo(free, 0)
          && HeadsOk(heads, cells)
      requires n == (if s.freeNodes == [] then |s.nodes| else s.freeNodes[0])
      requires nodes == if s.freeNodes == [] then s.nodes + [Dep(0, 0)] else s.nodes
      requires Chain(next, free) && Chain(next, [n] + kept)
      requires forall b: nat {:trigger cells[b]} :: b in cells && b != a ==> Chain(next, cells[b].list)
      requires head == heads[a].(first := Some(n), countdown := if cells[a].countdown > 0
          then cells[a].countdown - 1 else |kept|)
      requires kept == if cells[a].countdown > 0 then cells[a].list else Keep(s, cells[a].list)
      requires free == var rest := if s.freeNodes == [] then [] else s.freeNodes[1..];
                       if cells[a].countdown > 0 then rest else Release(s, cells[a].list, rest)
      modifies this`heads, this`cells, this`nodes
      ensures Valid()
      ensures var s' := DcState.AddNode(s, a, d); cells == s'.cells && nodes == s'.nodes && free == s'.freeNodes
    {
      ghost var c, c' := cells[a], DcState.AddNode(s, a, d).cells[a];
      assert HeadOf(c') == head && c'.list == [n] + kept;
      heads, cells, nodes := heads[a := head], cells[a := c'], nodes[n := d];
      assert nodes == if n < |s.nodes| then s.nodes[n := d] else s.nodes + [d];
    }

    /** Overwrites the first node of `a` if it is stale, else adds one. */
    method LogDep(a: Addr, d: Dep, cons: seq<Cons>, ghost s: State)
      requires Valid() && a in heads && Shows(s) && s.cons == cons
      requires forall n: nat :: n in cells[a].list || n in free ==> n < |nodes|
      modifies this
      ensures Valid()
      ensures var s' := DcState.LogDep(s, a, d); cells == s'.cells && nodes == s'.nodes && free == s'.freeNodes
    {
      if heads[a].first == None || Fresh(nodes, cons, heads[a].first.value) {
        AddNode(a, d, cons, s);
      } else {
        assert heads[a].first.value in cells[a].list;
        nodes := nodes[heads[a].first.value := d];
      }
    }

    /** Frees every node of `a` but the first, by linking the last one to the free list. */
    method KeepFirst(a: Addr, last: nat, ghost s: State)
      requires Valid() && a in heads && Shows(s)
      requires cells[a].list != [] && last == cells[a].list[|cells[a].list| - 1]
      modifies this`next, this`freeHead, this`free, this`cells
      ensures Valid()
      ensures var s' := DcState.KeepFirst(s, a); cells == s'.cells && free == s'.freeNodes
      ensures a in old(cells) && old(cells)[a].list != [] && free == old(cells)[a].list[1..] + old(free)
      ensures cells == old(cells)[a := old(cells)[a].(list := [old(cells)[a].list[0]])]
    {
      ghost var links, list := next, cells[a].list;
      var first := heads[a].first.value;
      MineOnce(s, a);
      ChainSplice(next, list, free);
      next := next[last := freeHead];
      freeHead := next[first];
      next := next[first := None];
      OthersChained(links, next, s, a, multiset(list + free));
      assert list[..1] == [list[0]];
      cells, free := cells[a := cells[a].(list := list[..1])], list[1..] + free;
    }
  }

  /** All lists hold nodes of the pool. */
  lemma ListsInRange(s: State, next: seq<Ref>)
    requires ChainsOk(next, s.cells)
    ensures forall b: nat, n: nat :: Listed(s, b, n) ==> n < |next|
  {
    forall b: nat, n: nat | Listed(s, b, n) ensures n < |next| { ChainInRange(next, s.cells[b].list); }
  }

  lemma MineOnce(s: State, a: Addr)
    requires Partition(s) && a in s.cells
    ensures Once(s.cells[a].list + s.freeNodes)
    ensures forall b: nat, n: nat :: b != a && Listed(s, b, n) ==> n !in s.cells[a].list + s.freeNodes
  {
    var mine := s.cells[a].list + s.freeNodes;
    forall n: nat ensures Count(mine, n) <= 1 { assert Count(mine, n) == Occ(s, a, n) + OccFree(s, n); }
    forall b: nat, n: nat | b != a && Listed(s, b, n) ensures n !in mine {
      assert Occ(s, a, n) + Occ(s, b, n) <= 1 && Occ(s, b, n) + OccFree(s, n) <= 1;
    }
  }

  /** The node allocated next, the list of `a` and the rest of the free list have no node twice, and none of another
      list. */
  lemma MineApart(s: State, a: Addr)
    requires Partition(s) && a in s.cells && forall b: nat, n: nat :: Listed(s, b, n) ==> n < |s.nodes|
    requires forall n: nat :: n in s.freeNodes ==> n < |s.nodes|
    ensures var n := if s.freeNodes == [] then |s.nodes| else s.freeNodes[0];
            var rest := if s.freeNodes == [] then [] else s.freeNodes[1..];
            var mine := [n] + s.cells[a].list + rest;
            && Once(mine) && n !in s.cells[a].list && n !in rest
            && forall b: nat, m: nat :: b != a && Listed(s, b, m) ==> m !in mine
  {
    MineOnce(s, a);
    var l := s.cells[a].list;
    var n := if s.freeNodes == [] then |s.nodes| else s.freeNodes[0];
    var rest := if s.freeNodes == [] then [] else s.freeNodes[1..];
    var mine := [n] + l + rest;
    assert s.freeNodes != [] ==> s.freeNodes == [n] + rest;
    forall m: nat ensures Count(mine, m) <= 1 {
      assert Count(mine, m) == (if m == n then 1 else 0) + Count(l, m) + Count(rest, m);
      assert Count(l + s.freeNodes, m) == Count(l, m) + Count(s.freeNodes, m);
      assert s.freeNodes != [] ==> Count(s.freeNodes, m) == (if m == n then 1 else 0) + Count(rest, m);
      assert Listed(s, a, n) ==> n < |s.nodes|;
    }
    assert Count(mine, n) == 1 + Count(l, n) + Count(rest, n);
    forall b: nat, m: nat | b != a && Listed(s, b, m) ensures m !in mine { assert m in rest ==> m in s.freeNodes; }
  }

  lemma MineRelinked(links: seq<Ref>, pushed: seq<Ref>, next: seq<Ref>, n: nat, mine: multiset<nat>)
    requires |links| <= |pushed| == |next| && n in mine
    requires forall m: nat :: m < |links| && m != n ==> pushed[m] == links[m]
    requires forall m: nat :: m < |next| && m !in mine ==> next[m] == pushed[m]
    ensures forall m: nat :: m < |links| && m !in mine ==> next[m] == links[m]
  {}

  /** Links that differ only on nodes of `mine` leave the other lists alone. */
  lemma OthersChained(next: seq<Ref>, next': seq<Ref>, s: State, a: Addr, mine: multiset<nat>)
    requires ChainsOk(next, s.cells) && |next| <= |next'|
    requires forall n: nat :: n < |next| && n !in mine ==> next'[n] == next[n]
    requires forall b: nat, n: nat :: b != a && Listed(s, b, n) ==> n !in mine
    ensures forall b: nat {:trigger s.cells[b]} :: b in s.cells && b != a ==> Chain(next', s.cells[b].list)
  {
    forall b: nat | b in s.cells && b != a ensures Chain(next', s.cells[b].list) {
      var l := s.cells[b].list;
      assert forall n: nat :: n in l ==> Listed(s, b, n);
      ChainFrame(next, next', l);
    }
  }

  lemma OncePart(l: seq<nat>, m: seq<nat>)
    requires Once(l + m)
    ensures Once(l) && Once(m)
  {
    forall n: nat ensures Count(l, n) <= 1 && Count(m, n) <= 1 { assert Count(l + m, n) == Count(l, n) + Count(m, n); }
  }

  lemma PartsApart(l: seq<nat>, m: seq<nat>, n: nat)
    requires Once(l + m) && n in l
    ensures n !in m
  {
    assert Count(l + m, n) == Count(l, n) + Count(m, n);
  }

  /** A node moves from the middle of a chain to the front of the free list. */
  lemma Moved(front: seq<nat>, m: nat, rest: seq<nat>, free: seq<nat>)
    requires Once(front + ([m] + rest) + free)
    ensures multiset(front + rest + ([m] + free)) == multiset(front + ([m] + rest) + free)
    ensures Once(front + rest + ([m] + free)) && Once(front + ([m] + rest)) && m !in front && m !in rest && m !in free
  {
    var l := front + ([m] + rest) + free;
    assert multiset(l) == multiset(front) + multiset{m} + multiset(rest) + multiset(free);
    assert multiset(front + rest + ([m] + free)) == multiset(l);
    forall n: nat ensures Count(front + rest + ([m] + free), n) <= 1 { assert Count(l, n) <= 1; }
    OncePart(front + ([m] + rest), free);
    assert Count(l, m) == Count(front, m) + 1 + Count(rest, m) + Count(free, m);
  }

  /** What is kept and freed so far, and what will be of the rest, is what the clean-up of `list` keeps and frees. */
  ghost predicate Cleans(s: State, list: seq<nat>, free0: seq<nat>, kept: seq<nat>, rest: seq<nat>, free: seq<nat>) {
    Keep(s, list) == kept + Keep(s, rest) && Release(s, list, free0) == Release(s, rest, free)
  }

  lemma CleanStep(s: State, list: seq<nat>, free0: seq<nat>, kept: seq<nat>, rest: seq<nat>, free: seq<nat>,
      kept': seq<nat>, free': seq<nat>)
    requires Cleans(s, list, free0, kept, rest, free) && rest != []
    requires if UpToDate(s, rest[0]) then kept' == kept + [rest[0]] && free' == free
        else kept' == kept && free' == [rest[0]] + free
    ensures Cleans(s, list, free0, kept', rest[1..], free')
  {
    var k := Keep(s, rest[1..]);
    assert (kept + [rest[0]]) + k == kept + ([rest[0]] + k);
  }

  lemma SameFreshness(s: State, nodes: seq<Dep>, rest: seq<nat>)
    requires rest != [] && |s.nodes| <= |nodes| && nodes[..|s.nodes|] == s.nodes
        && forall n: nat :: n in rest ==> n < |s.nodes|
    ensures Fresh(nodes, s.cons, rest[0]) <==> UpToDate(s, rest[0])
    ensures forall n: nat :: n in rest[1..] ==> n < |s.nodes|
  {
    var m := rest[0];
    assert forall n: nat :: n in rest[1..] ==> n in rest;
    assert m in rest && nodes[m] == nodes[..|s.nodes|][m];
  }
}
