/** Reading: adding, reusing and cleaning up dependency nodes keeps the invariant. */
module DcLog {
  import opened DcState
  import opened DcInv

  /** The cleanup loop splits a list into the nodes it keeps and the nodes it frees. */
  lemma {:induction false} CleanupSplits(s: State, l: seq<nat>, free: seq<nat>)
    ensures forall n: nat :: Count(Keep(s, l), n) + Count(Release(s, l, free), n) == Count(l, n) + Count(free, n)
    ensures forall n: nat :: n in Keep(s, l) <==> n in l && UpToDate(s, n)
    ensures |Keep(s, l)| <= |l|
  {
    if l != [] {
      CountCons(l[0], l[1..]);
      CountCons(l[0], free);
      CountCons(l[0], Keep(s, l[1..]));
      assert l == [l[0]] + l[1..];
      CleanupSplits(s, l[1..], if UpToDate(s, l[0]) then free else [l[0]] + free);
    }
  }

  lemma CountCons(x: nat, l: seq<nat>)
    ensures forall n: nat :: Count([x] + l, n) == Count(l, n) + (if n == x then 1 else 0)
  {
    assert multiset([x] + l) == multiset{x} + multiset(l);
  }

  /** What logging a dependency `d` on `a` does to the store. */
  ghost predicate Logs(s: State, s': State, a: Addr, d: Dep) {
    && s' == s.(nodes := s'.nodes, freeNodes := s'.freeNodes, cells := s'.cells)
    && ListAt(s', a) != []
    && ListAt(s', a)[0] < |s'.nodes|
    && s'.nodes[ListAt(s', a)[0]] == d
    && |s.nodes| <= |s'.nodes|
    && (forall n: nat :: 0 <= n < |s.nodes| && n != ListAt(s', a)[0] ==> s'.nodes[n] == s.nodes[n])
    && (forall b: nat :: b != a ==> !Listed(s, b, ListAt(s', a)[0]))
    && (Listed(s, a, ListAt(s', a)[0]) ==> !UpToDate(s, ListAt(s', a)[0]))
    && (forall b: nat :: b != a ==> CellAt(s', b) == CellAt(s, b))
    && (forall n: nat :: Listed(s', a, n) && n != ListAt(s', a)[0] ==> Listed(s, a, n))
    && (forall n: nat :: Listed(s, a, n) && UpToDate(s, n) ==> Listed(s', a, n))
    && CellAt(s', a).val == CellAt(s, a).val && CellAt(s', a).flag == CellAt(s, a).flag
  }

  /** The new node comes from the free list or is brand new, and is in no cell list. */
  lemma AddNodeCounts(s: State, a: Addr, d: Dep)
    requires NodesOk(s)
    ensures var s' := AddNode(s, a, d);
            && ListAt(s', a) != []
            && |s.nodes| <= |s'.nodes| <= |s.nodes| + 1
            && (forall b: nat :: !Listed(s, b, ListAt(s', a)[0]))
            && (forall m: nat ::
                  Occ(s', a, m) + OccFree(s', m)
                  == Occ(s, a, m) + OccFree(s, m) + (if |s.nodes| <= m < |s'.nodes| then 1 else 0))
            && (forall m: nat :: m in s'.freeNodes ==> Occ(s, a, m) + OccFree(s, m) > 0)
  {
    var c := CellAt(s, a);
    var n := if s.freeNodes == [] then |s.nodes| else s.freeNodes[0];
    var free := if s.freeNodes == [] then [] else s.freeNodes[1..];
    var l := if c.countdown > 0 then c.list else Keep(s, c.list);
    var rest := if c.countdown > 0 then free else Release(s, c.list, free);
    CleanupSplits(s, c.list, free);
    NextNodeUnlisted(s, n);
    NodeCounts(s.freeNodes, n, free, |s.nodes|, c.list, l, rest);
    var s' := AddNode(s, a, d);
    assert ListAt(s', a) == [n] + l && s'.freeNodes == rest;
    assert s.freeNodes != [] ==> n in s.freeNodes;
    assert |s'.nodes| == |s.nodes| + (if s.freeNodes == [] then 1 else 0);
    forall m: nat ensures Occ(s', a, m) == Count([n] + l, m) && OccFree(s', m) == Count(rest, m) {}
  }

  /** Node `n`, the head of the free list or a new one, goes to the front of what is kept of a list. */
  lemma NodeCounts(was: seq<nat>, n: nat, free: seq<nat>, fresh': nat, old': seq<nat>, l: seq<nat>, rest: seq<nat>)
    requires n == (if was == [] then fresh' else was[0]) && free == if was == [] then [] else was[1..]
    requires forall m: nat :: Count(l, m) + Count(rest, m) == Count(old', m) + Count(free, m)
    requires forall m: nat :: m in was ==> m < fresh'
    ensures forall m: nat :: Count([n] + l, m) + Count(rest, m)
                          == Count(old', m) + Count(was, m) + (if was == [] && m == n then 1 else 0)
    ensures forall m: nat :: m in rest ==> Count(old', m) + Count(was, m) > 0
  {
    assert was != [] ==> was == [n] + free;
    CountCons(n, free);
    CountCons(n, l);
  }

  lemma NextNodeUnlisted(s: State, n: nat)
    requires NodesOk(s) && n == if s.freeNodes == [] then |s.nodes| else s.freeNodes[0]
    ensures forall b: nat :: !Listed(s, b, n)
  {
    assert s.freeNodes != [] ==> s.freeNodes[0] in s.freeNodes;
    forall b: nat ensures !Listed(s, b, n) {
      assert Occ(s, b, n) + OccFree(s, n) <= 1;
    }
  }

  lemma AddNodeKeepsNodes(s: State, a: Addr, d: Dep)
    requires NodesOk(s)
    ensures Partition(AddNode(s, a, d))
    ensures forall n: nat :: n in AddNode(s, a, d).freeNodes ==> n < |AddNode(s, a, d).nodes|
  {
    var s' := AddNode(s, a, d);
    AddNodeCounts(s, a, d);
    assert forall b: nat :: b != a ==> ListAt(s', b) == ListAt(s, b);
    PartitionStep(s, s', a);
    forall m: nat | m in s'.freeNodes ensures m < |s'.nodes| {
      assert Occ(s, a, m) > 0 ==> Listed(s, a, m);
      assert OccFree(s, m) > 0 ==> m in s.freeNodes;
    }
  }

  lemma AddNodeLogs(s: State, a: Addr, d: Dep)
    requires NodesOk(s)
    ensures Logs(s, AddNode(s, a, d), a, d)
  {
    AddNodeCounts(s, a, d);
    CleanupSplits(s, CellAt(s, a).list, s.freeNodes);
    assert s.freeNodes != [] ==> s.freeNodes[0] in s.freeNodes;
  }

  /** If the nodes of `a` and of the free list are conserved, but for a possible new node, so is the partition. */
  lemma PartitionStep(s: State, s': State, a: Addr)
    requires Partition(s) && |s.nodes| <= |s'.nodes| <= |s.nodes| + 1
    requires forall b: nat, m: nat :: Listed(s, b, m) ==> m < |s.nodes|
    requires forall m: nat :: m in s.freeNodes ==> m < |s.nodes|
    requires forall b: nat :: b != a ==> ListAt(s', b) == ListAt(s, b)
    requires forall m: nat ::
               Occ(s', a, m) + OccFree(s', m)
               == Occ(s, a, m) + OccFree(s, m) + (if |s.nodes| <= m < |s'.nodes| then 1 else 0)
    ensures Partition(s')
  {
    forall b: nat, m: nat
      ensures Occ(s', b, m) + OccFree(s', m) <= 1
    {
      assert Occ(s, a, m) + OccFree(s, m) <= 1;
      assert Occ(s, b, m) + OccFree(s, m) <= 1;
      assert b != a ==> Occ(s, a, m) + Occ(s, b, m) <= 1;
      assert Occ(s, b, m) > 0 ==> Listed(s, b, m);
      assert Occ(s, a, m) > 0 ==> Listed(s, a, m);
      assert b != a ==> Occ(s', b, m) == Occ(s, b, m);
      assert OccFree(s, m) > 0 ==> m in s.freeNodes;
    }
    forall b: nat, c: nat, m: nat | b != c
      ensures Occ(s', b, m) + Occ(s', c, m) <= 1
    {
      assert Occ(s, b, m) + Occ(s, c, m) <= 1;
      assert Occ(s, b, m) + OccFree(s, m) <= 1;
      assert Occ(s, c, m) + OccFree(s, m) <= 1;
      assert Occ(s, b, m) > 0 ==> Listed(s, b, m);
      assert Occ(s, c, m) > 0 ==> Listed(s, c, m);
      assert b != a ==> Occ(s', b, m) == Occ(s, b, m);
      assert c != a ==> Occ(s', c, m) == Occ(s, c, m);
      assert Occ(s', a, m) + OccFree(s', m) == Occ(s, a, m) + OccFree(s, m) + (if |s.nodes| <= m < |s'.nodes|
          then 1 else 0);
    }
    forall m: nat | 0 <= m < |s'.nodes|
      ensures m in s'.freeNodes || exists b: nat :: Listed(s', b, m)
    {
      if m < |s.nodes| && m !in s.freeNodes {
        var b: nat :| Listed(s, b, m);
        if b != a { assert Listed(s', b, m); }
      }
      if m !in s'.freeNodes && !(exists b: nat :: b != a && Listed(s', b, m)) {
        assert Occ(s', a, m) + OccFree(s', m) > 0;
        assert Listed(s', a, m);
      }
    }
  }

  lemma LogDepLogs(s: State, a: Addr, d: Dep)
    requires NodesOk(s)
    ensures Logs(s, LogDep(s, a, d), a, d)
    ensures Partition(LogDep(s, a, d))
    ensures forall n: nat :: n in LogDep(s, a, d).freeNodes ==> n < |LogDep(s, a, d).nodes|
  {
    var l := ListAt(s, a);
    if l == [] || l[0] >= |s.nodes| || UpToDate(s, l[0]) {
      AddNodeLogs(s, a, d);
      AddNodeKeepsNodes(s, a, d);
    } else {
      var s' := LogDep(s, a, d);
      assert forall b: nat :: CellAt(s', b) == CellAt(s, b);
      forall b: nat | b != a ensures !Listed(s, b, l[0]) {
        assert Occ(s, a, l[0]) + Occ(s, b, l[0]) <= 1;
      }
      assert forall b: nat, n: nat :: Listed(s', b, n) <==> Listed(s, b, n);
      assert forall b: nat, n: nat :: Occ(s', b, n) == Occ(s, b, n);
      assert forall n: nat :: OccFree(s', n) == OccFree(s, n);
    }
  }

  /** Logging keeps every other dependency and puts the new node first. */
  lemma LogsFresh(s: State, s': State, a: Addr, d: Dep)
    requires NodesOk(s) && Logs(s, s', a, d) && d.ts == s.time
    ensures forall j: nat, b: nat :: j != d.cons || b != a ==> (HasFresh(s', b, j) <==> HasFresh(s, b, j))
    ensures TsOf(s, d.cons) <= s.time ==> HasFresh(s', a, d.cons)
    ensures TsOf(s, d.cons) > s.time ==> (HasFresh(s', a, d.cons) <==> HasFresh(s, a, d.cons))
  {
    var n := ListAt(s', a)[0];
    assert Listed(s', a, n);
    assert TsOf(s, d.cons) <= s.time ==> FreshFor(s', n, d.cons);
    forall j: nat, b: nat | j != d.cons || b != a || TsOf(s, d.cons) > s.time
      ensures HasFresh(s', b, j) <==> HasFresh(s, b, j)
    {
      if HasFresh(s, b, j) {
        var m: nat :| Listed(s, b, m) && FreshFor(s, m, j);
        assert UpToDate(s, m);
        assert Listed(s', b, m) && FreshFor(s', m, j);
      }
      if HasFresh(s', b, j) {
        var m: nat :| Listed(s', b, m) && FreshFor(s', m, j);
        assert Listed(s, b, m) && FreshFor(s, m, j);
      }
    }
  }

  lemma LogsUnique(s: State, s': State, a: Addr, d: Dep)
    requires NodesOk(s) && Unique(s) && Logs(s, s', a, d) && d.ts == s.time
    requires TsOf(s, d.cons) <= s.time ==> !HasFresh(s, a, d.cons)
    ensures Unique(s')
  {
    var n := ListAt(s', a)[0];
    forall q: nat | Listed(s', a, q) && q != n && s'.nodes[q].cons == d.cons ensures !UpToDate(s', q) {
      assert Listed(s, a, q);
      assert FreshFor(s, q, d.cons) ==> HasFresh(s, a, d.cons);
    }
    forall b: nat, m: nat, p: nat | Listed(s', b, m) && Listed(s', b, p) && UpToDate(s', m) && UpToDate(s', p)
                                    && s'.nodes[m].cons == s'.nodes[p].cons
      ensures m == p
    {
      if b != a {
        assert Listed(s, b, m) && Listed(s, b, p);
      } else if m != n && p != n {
        assert Listed(s, a, m) && Listed(s, a, p);
      }
    }
  }

  /** Logging a read of the running constraint on a cell it has not logged. */
  lemma LogDepKeeps(s: State, a: Addr, k: nat)
    requires NodesOk(s) && Unique(s) && k < |s.cons|
    requires TsOf(s, k) <= s.time ==> !HasFresh(s, a, k)
    ensures var s' := LogDep(s, a, Dep(s.time, k));
            && NodesOk(s') && Unique(s') && Logs(s, s', a, Dep(s.time, k))
            && (forall b: nat, j: nat :: b != a || j != k ==> (HasFresh(s', b, j) <==> HasFresh(s, b, j)))
  {
    var d := Dep(s.time, k);
    LogDepLogs(s, a, d);
    LogsFresh(s, LogDep(s, a, d), a, d);
    LogsUnique(s, LogDep(s, a, d), a, d);
    LogsNodes(s, LogDep(s, a, d), a, d);
  }

  lemma SetFlagKeeps(s: State, a: Addr, f: Flag)
    ensures var s' := SetFlag(s, a, f);
            && SameStore(s, s') && SameObjects(s, s')
            && (forall b: nat :: CellAt(s', b) == if b == a then CellAt(s, b).(flag := f) else CellAt(s, b))
  {}

  /** The read handler keeps the invariant. */
  lemma ReadHandlerInv(s: State, a: Addr)
    requires Inv(s) && s.pc == Body && CellAt(s, a).flag == Untouched
    ensures Inv(ReadHandler(s, a))
  {
    var k := s.curr.value;
    var s0 := s.(rd := s.rd + [a], cells := s.cells[a := CellAt(s, a)]);
    SameStoreKeeps(s, s0);
    SameFresh(s, s0);
    assert TsOf(s, k) <= s.time ==> Resting(s, k) && a !in s.rd && !HasFresh(s, a, k);
    LogDepKeeps(s0, a, k);
    var s1 := LogDep(s0, a, Dep(s.time, k));
    var s' := SetFlag(s1, a, ReadMark);
    SetFlagKeeps(s1, a, ReadMark);
    ReadKeepsRest(s, s0, s1, s', a, k);
  }

  lemma ReadKeepsRest(s: State, s0: State, s1: State, s': State, a: Addr, k: nat)
    requires Inv(s) && s.pc == Body && s.curr == Some(k) && CellAt(s, a).flag == Untouched
    requires s0 == s.(rd := s.rd + [a], cells := s.cells[a := CellAt(s, a)]) && Logs(s0, s1, a, Dep(s.time, k))
    requires NodesOk(s1) && Unique(s1)
    requires forall b: nat, j: nat :: b != a || j != k ==> (HasFresh(s1, b, j) <==> HasFresh(s, b, j))
    requires s' == s1.(cells := s'.cells) && SameStore(s1, s')
    requires forall b: nat :: CellAt(s', b) == if b == a then CellAt(s1, b).(flag := ReadMark) else CellAt(s1, b)
    ensures Inv(s')
  {
    SameStoreKeeps(s1, s');
    SameFresh(s1, s');
    SameObjectsKeep(s, s', None);
    ReadDepOk(s, s', a);
    ReadMemOk(s, s', a);
    if Resting(s', k) {
      SameStoreKeeps(s, s0);
      SameFresh(s, s0);
      LogsFront(s0, s1, s', a, Dep(s.time, k), s.rd);
    }
  }

  lemma ReadDepOk(s: State, s': State, a: Addr)
    requires DepOk(s) && s'.cons == s.cons && s'.curr == s.curr && s.curr.Some?
    requires forall b: nat, j: nat :: b != a || Some(j) != s.curr ==> (HasFresh(s', b, j) <==> HasFresh(s, b, j))
    requires forall b: nat :: CellAt(s', b).val == CellAt(s, b).val
    ensures DepOk(s')
  {
    forall j: nat | Resting(s', j) && s'.curr != Some(j) ensures DepFor(s', j) { assert DepFor(s, j); }
  }

  lemma ReadMemOk(s: State, s': State, a: Addr)
    requires MemOk(s) && s'.mem == s.mem && s'.wr == s.wr && s'.rd == s.rd + [a]
    requires forall b: nat :: CellAt(s', b).val == CellAt(s, b).val
    requires forall b: nat :: CellAt(s', b).flag == if b == a then ReadMark else CellAt(s, b).flag
    requires CellAt(s, a).flag == Untouched
    ensures MemOk(s')
  {}

  lemma LogsNodes(s: State, s': State, a: Addr, d: Dep)
    requires NodesOk(s) && Logs(s, s', a, d) && d.ts <= s.time && d.cons < |s.cons|
    requires Partition(s') && forall n: nat :: n in s'.freeNodes ==> n < |s'.nodes|
    ensures NodesOk(s')
  {
    forall b: nat, n: nat | Listed(s', b, n)
      ensures n < |s'.nodes| && s'.nodes[n].ts <= s'.time && s'.nodes[n].cons < |s'.cons|
    {
      if n != ListAt(s', a)[0] {
        assert b != a ==> ListAt(s', b) == ListAt(s, b);
        assert Listed(s, b, n);
      }
    }
  }

  /** The running constraint depends on what it logged, this cell included, always by the first node. */
  lemma LogsFront(s0: State, s1: State, s': State, a: Addr, d: Dep, rd: seq<Addr>)
    requires NodesOk(s0) && Logs(s0, s1, a, d) && d.ts == s0.time && TsOf(s0, d.cons) == s0.time
    requires SameStore(s1, s') && s'.cons == s1.cons && s'.rd == rd + [a]
    requires FrontFor(s0, d.cons, Cells(rd))
    requires !HasFresh(s0, a, d.cons)
    ensures FrontFor(s', d.cons, Cells(s'.rd))
  {
    var k := d.cons;
    LogsFresh(s0, s1, a, d);
    SameFresh(s1, s');
    forall b: nat, n: nat | Listed(s', b, n) && FreshFor(s', n, k) ensures ListAt(s', b)[0] == n {
      assert b != a ==> ListAt(s', b) == ListAt(s0, b);
      if n != ListAt(s1, a)[0] {
        assert Listed(s0, b, n) && FreshFor(s0, n, k);
      } else {
        if b != a { assert Listed(s0, b, n); }
      }
    }
  }
}
