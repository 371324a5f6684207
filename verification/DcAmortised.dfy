/** The amortised cost of cleaning up dependency lists, over every run. */
module DcAmortised {
  import opened DcState
  import opened DcLog
  import opened DcInv
  import opened DcSteps
  import opened DcTheorems

  /** The list of a cell is at most twice as long as the countdown set by its last cleanup, plus one,
      and cleanups have visited at most two nodes for each node allocated. */
  predicate Balanced(c: Cell) {
    && c.countdown <= c.base
    && |c.list| + c.countdown <= 2 * c.base + 1
    && c.visits + 2 * (c.base - c.countdown) <= 2 * c.allocs
  }

  ghost predicate AllBalanced(s: State) {
    forall a: nat :: Balanced(CellAt(s, a))
  }

  /** No cell has allocated or visited anything, and no list has grown. */
  ghost predicate Shrinks(s: State, s': State) {
    forall a: nat ::
      && |ListAt(s', a)| <= |ListAt(s, a)|
      && CellAt(s', a) == CellAt(s, a).(list := ListAt(s', a), val := CellAt(s', a).val, flag := CellAt(s', a).flag)
  }

  lemma ShrinksKeep(s: State, s': State)
    requires AllBalanced(s) && Shrinks(s, s')
    ensures AllBalanced(s')
  {
    forall a: nat ensures Balanced(CellAt(s', a)) { assert Balanced(CellAt(s, a)); }
  }

  lemma AddNodeBalanced(s: State, a: Addr, d: Dep)
    requires AllBalanced(s)
    ensures AllBalanced(AddNode(s, a, d))
  {
    var s' := AddNode(s, a, d);
    CleanupSplits(s, ListAt(s, a), []);
    forall b: nat ensures Balanced(CellAt(s', b)) {
      assert Balanced(CellAt(s, b)) && Balanced(CellAt(s, a));
    }
  }

  lemma LogDepBalanced(s: State, a: Addr, d: Dep)
    requires AllBalanced(s)
    ensures AllBalanced(LogDep(s, a, d))
  {
    AddNodeBalanced(s, a, d);
    assert LogDep(s, a, d).cells == s.cells || LogDep(s, a, d) == AddNode(s, a, d);
    if LogDep(s, a, d).cells == s.cells { SameCells(s, LogDep(s, a, d)); }
  }

  lemma ReadHandlerBalanced(s: State, a: Addr)
    requires AllBalanced(s)
    ensures AllBalanced(ReadHandler(s, a))
  {
    var s0 := s.(rd := s.rd + [a], cells := s.cells[a := CellAt(s, a)]);
    var d := Dep(s.time, if s.curr.Some? then s.curr.value else 0);
    ShrinksKeep(s, s0);
    LogDepBalanced(s0, a, d);
    SetFlagKeeps(LogDep(s0, a, d), a, ReadMark);
    ShrinksKeep(LogDep(s0, a, d), SetFlag(LogDep(s0, a, d), a, ReadMark));
  }

  lemma ReadBalanced(s: State, a: Addr)
    requires AllBalanced(s)
    ensures AllBalanced(ReadOp(s, a))
  {
    ReadHandlerBalanced(s, a);
    SameCells(if s.noLog == 0 && CellAt(s, a).flag == Untouched then ReadHandler(s, a) else s, ReadOp(s, a));
  }

  lemma SameCells(s: State, s': State)
    requires AllBalanced(s) && s'.cells == s.cells
    ensures AllBalanced(s')
  {
    forall a: nat ensures Balanced(CellAt(s', a)) { assert Balanced(CellAt(s, a)); }
  }

  lemma {:induction false} ScanCells(s: State, l: seq<nat>)
    ensures Scan(s, l).cells == s.cells
    decreases |l|
  {
    if l != [] {
      ScanCells(if UpToDate(s, l[0]) then Trigger(s, s.nodes[l[0]].cons) else s, l[1..]);
    }
  }

  lemma CheckShrinks(s: State, a: Addr)
    ensures Shrinks(s, Check(s, a))
  {
    var c := CellAt(s, a);
    if c.val != MemAt(s, a) {
      var s1 := s.(cells := s.cells[a := c.(val := MemAt(s, a))]);
      ScanCells(s1, ListAt(s1, a));
    }
  }

  lemma {:induction false} FlushBalanced(s: State, l: seq<Addr>)
    requires AllBalanced(s)
    ensures AllBalanced(Flush(s, l))
    decreases |l|
  {
    if l != [] {
      SetFlagKeeps(s, l[0], Untouched);
      ShrinksKeep(s, SetFlag(s, l[0], Untouched));
      CheckShrinks(SetFlag(s, l[0], Untouched), l[0]);
      ShrinksKeep(SetFlag(s, l[0], Untouched), Check(SetFlag(s, l[0], Untouched), l[0]));
      FlushBalanced(Check(SetFlag(s, l[0], Untouched), l[0]), l[1..]);
    }
  }

  lemma FinalizeBalanced(s: State)
    requires AllBalanced(s)
    ensures AllBalanced(Finalize(s))
  {
    PreparedShape(s);
    assert Shrinks(s, Prepared(s));
    ShrinksKeep(s, Prepared(s));
    FlushBalanced(Prepared(s), s.wr);
    SameCells(Flush(Prepared(s), s.wr), Finalize(s));
  }

  lemma WriteBalanced(s: State, a: Addr, v: Word)
    requires AllBalanced(s)
    ensures AllBalanced(WriteOp(s, a, v))
  {
    var s1 := s.(mem := s.mem[a := v], trace := if s.pc == Body then s.trace + [Wr(a, v)] else s.trace);
    SameCells(s, s1);
    if CellAt(s1, a).flag != WrittenMark {
      if s1.atomic != 0 {
        SetFlagKeeps(s1.(wr := s1.wr + [a]), a, WrittenMark);
        ShrinksKeep(s1, WriteOp(s, a, v));
      } else {
        var s2 := s1.(cells := s1.cells[a := CellAt(s1, a)]);
        ShrinksKeep(s1, s2);
        CheckShrinks(s2, a);
        ShrinksKeep(s2, Check(s2, a));
        SameCells(Check(s2, a), Check(s2, a).(atomic := 1, pc := Loop));
      }
    }
  }

  lemma RunTopCells(s: State, item: Item, k: nat)
    ensures RunTop(s, item, k).cells == s.cells
  {}

  lemma RunInGroupCells(s: State, g: nat, k: nat)
    requires g < |s.groups| && k < |s.cons|
    ensures RunInGroup(s, g, k).cells == s.cells
  {}

  lemma TurnCells(s: State, item: Item, k: nat)
    ensures DispatchTurn(s, item, k).cells == s.cells
  {
    if s.initList == [] {
      match s.currGroup
      case None => RunTopCells(s, item, k);
      case Some(g) =>
        if g < |s.groups| && s.groups[g].sched != multiset{} {
          if k < |s.cons| { RunInGroupCells(s, g, k); }
        } else {
          assert LeaveGroup(s).cells == s.cells;
          RunTopCells(LeaveGroup(s), item, k);
        }
    }
  }

  lemma NewConsCells(s: State, fun: nat, g: Option<nat>)
    ensures NewCons(s, fun, g).cells == s.cells
  {}

  lemma ApplyBalanced(s: State, op: Op)
    requires AllBalanced(s)
    ensures AllBalanced(Apply(s, op))
  {
    if Enabled(s, op) {
      match op
      case Read(a) => ReadBalanced(s, a);
      case Write(a, v) => WriteBalanced(s, a, v);
      case New(fun, g) => NewConsCells(s, fun, g); SameCells(s, Apply(s, op));
      case CloseAt =>
        if s.curr == None && s.atomic == 1 {
          SameCells(s, s.(atomic := 0));
          FinalizeBalanced(s.(atomic := 0));
          SameCells(Finalize(s.(atomic := 0)), Apply(s, op));
        } else {
          SameCells(s, Apply(s, op));
        }
      case EndBody =>
        SameCells(s, Finishing(s));
        FinalizeBalanced(Finishing(s));
        SameCells(Finalize(Finishing(s)), Apply(s, op));
      case Turn(item, k) => TurnCells(s, item, k); SameCells(s, Apply(s, op));
      case _ => SameCells(s, Apply(s, op));
    }
  }

  lemma {:induction false} RunBalanced(s: State, ops: seq<Op>)
    requires AllBalanced(s)
    ensures AllBalanced(Run(s, ops))
    decreases |ops|
  {
    if ops != [] {
      ApplyBalanced(s, ops[0]);
      RunBalanced(Apply(s, ops[0]), ops[1..]);
    }
  }

  /** Amortised cleanup: whatever the run, the nodes visited by the cleanup loops of a cell are at most
      twice the nodes allocated for it, and its list is at most twice as long, plus one, as the number
      of nodes that were up to date at its last cleanup (two, if there was none). */
  lemma AmortisedCleanup(s: State, a: Addr)
    requires Reachable(s)
    ensures CellAt(s, a).visits <= 2 * CellAt(s, a).allocs
    ensures |ListAt(s, a)| + CellAt(s, a).countdown <= 2 * CellAt(s, a).base + 1
  {
    var ops: seq<Op> :| s == Run(Init(), ops);
    RunBalanced(Init(), ops);
    assert Balanced(CellAt(s, a));
  }

  /** What the history fields count: a read allocates a node unless it reuses a stale first node, and a
      cleanup visits all nodes that were there and leaves those that were up to date. */
  lemma ReadCounts(s: State, a: Addr)
    requires Good(s) && s.pc == Body && s.noLog == 0 && CellAt(s, a).flag == Untouched
    ensures var c, c' := CellAt(s, a), CellAt(ReadOp(s, a), a);
            var l := c.list;
            if l != [] && !UpToDate(s, l[0]) then c' == c.(flag := ReadMark)
            else if c.countdown > 0 then
              && c'.allocs == c.allocs + 1 && c'.visits == c.visits && c'.base == c.base
              && c'.countdown == c.countdown - 1 && c'.list[1..] == l
            else
              && c'.allocs == c.allocs + 1 && c'.visits == c.visits + |l| && c'.base == c'.countdown == |c'.list| - 1
              && (forall n: nat :: n in c'.list[1..] <==> n in l && UpToDate(s, n))
  {
    CleanupSplits(s, ListAt(s, a), []);
    assert ListAt(s, a) != [] ==> Listed(s, a, ListAt(s, a)[0]);
    var s0 := s.(rd := s.rd + [a], cells := s.cells[a := CellAt(s, a)]);
    KeepAlike(s, s0, ListAt(s, a));
    assert ListAt(s, a) != [] ==> (UpToDate(s0, ListAt(s, a)[0]) <==> UpToDate(s, ListAt(s, a)[0]));
  }

  lemma {:induction false} KeepAlike(s: State, s0: State, l: seq<nat>)
    requires s0 == s.(rd := s0.rd, cells := s0.cells)
    ensures Keep(s0, l) == Keep(s, l)
  {
    if l != [] { KeepAlike(s, s0, l[1..]); }
  }
}
