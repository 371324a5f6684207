/** What each step does to the variables it is about, field by field. */
module DcEffects {
  import opened DcState
  import opened DcInv
  import opened DcLog
  import opened DcFlush
  import opened DcSteps
  import opened DcTurn
  import opened DcTheorems
  import opened DcStale
  import opened DcAmortised

  // ---- loads and stores --------------------------------------------------------------------------

  /** A load is logged if and only if logging is on, that is within a body but not within a no-log block, and the
      cell is neither logged as read nor as written in this body. */
  lemma ReadDoes(s: State, a: Addr)
    requires Good(s) && UserMode(s)
    ensures var s' := ReadOp(s, a);
            var logged := s.noLog == 0 && CellAt(s, a).flag == Untouched;
            && s'.rd == (if logged then s.rd + [a] else s.rd)
            && CellAt(s', a).flag == (if logged then ReadMark else CellAt(s, a).flag)
            && (!logged ==> s'.nodes == s.nodes && s'.freeNodes == s.freeNodes && s'.cells == s.cells)
            && (logged ==> ListAt(s', a) != [] && ListAt(s', a)[0] < |s'.nodes|
                           && s'.nodes[ListAt(s', a)[0]] == Dep(s.time, s.curr.value) && s.curr.Some?)
            && (forall b: nat :: b != a ==> CellAt(s', b) == CellAt(s, b))
            && s'.trace == (if s.pc == Body then s.trace + [Rd(a, MemAt(s, a))] else s.trace)
            && s'.mem == s.mem && s'.cons == s.cons && s'.wr == s.wr && s'.pc == s.pc && s'.top == s.top
            && s'.groups == s.groups
  {
    ReadRest(s, a);
    if s.noLog == 0 && CellAt(s, a).flag == Untouched { LoggedRead(s, a, s.curr.value); }
  }

  lemma LoggedRead(s: State, a: Addr, k: nat)
    requires NodesOk(s) && s.curr == Some(k)
    ensures var s' := ReadHandler(s, a);
            && s'.rd == s.rd + [a] && CellAt(s', a).flag == ReadMark && ListAt(s', a) != []
            && ListAt(s', a)[0] < |s'.nodes| && s'.nodes[ListAt(s', a)[0]] == Dep(s.time, k)
            && forall b: nat :: b != a ==> CellAt(s', b) == CellAt(s, b)
  {
    var s0 := s.(rd := s.rd + [a], cells := s.cells[a := CellAt(s, a)]);
    SameStoreKeeps(s, s0);
    LogDepLogs(s0, a, Dep(s.time, k));
    SetFlagKeeps(LogDep(s0, a, Dep(s.time, k)), a, ReadMark);
  }

  /** A cell that is read for the first time gets a record with one node and one addition to go before a clean-up. */
  lemma FirstRead(s: State, a: Addr)
    requires Good(s) && s.pc == Body && s.noLog == 0 && a !in s.cells
    ensures var c := CellAt(ReadOp(s, a), a);
            |c.list| == 1 && c.countdown == 1 && c.base == 2 && c.allocs == 1 && c.visits == 0 && c.val == 0
  {
    ReadCounts(s, a);
  }

  /** A store within an atomic section changes memory and logs the cell, once, and does nothing else. */
  lemma LoggedStoreDoes(s: State, a: Addr, v: Word)
    requires Good(s) && UserMode(s) && s.atomic > 0
    ensures var s' := WriteOp(s, a, v);
            var logged := a !in s.wr;
            && s'.mem == s.mem[a := v] && s'.wr == (if logged then s.wr + [a] else s.wr)
            && CellAt(s', a) == CellAt(s, a).(flag := WrittenMark)
            && (forall b: nat :: b != a ==> CellAt(s', b) == CellAt(s, b))
            && s'.trace == (if s.pc == Body then s.trace + [Wr(a, v)] else s.trace)
            && s' == s.(mem := s'.mem, wr := s'.wr, cells := s'.cells, trace := s'.trace)
  {
    assert CellAt(s, a).flag == WrittenMark <==> a in s.wr;
  }

  /** A store outside any section changes memory and the last known value, and starts the solver if and only if the
      value was another one. */
  lemma PlainStoreDoes(s: State, a: Addr, v: Word)
    requires Good(s) && s.pc == Idle && s.atomic == 0
    ensures var s' := WriteOp(s, a, v);
            && s'.mem == s.mem[a := v] && CellAt(s', a).val == v && s'.wr == s.wr && s'.rd == s.rd
            && (if MemAt(s, a) == v then s'.pc == Idle && s'.atomic == 0 && s'.cons == s.cons && s'.top == s.top
                else s'.pc == Loop && s'.atomic == 1)
            && (MemAt(s, a) != v && ListAt(s, a) != [] ==> ListAt(s', a) == [ListAt(s, a)[0]])
            && (forall b: nat :: b != a ==> CellAt(s', b) == CellAt(s, b))
  {
    WriteNowFlushes(s, a, v);
    assert CellAt(s, a).val == MemAt(s, a);
    var s0 := Stored(s, a, v);
    StoredDoes(s, a, v, s0);
    CheckDoes(s0, a);
    CheckRest(s0, a);
  }

  lemma StoredDoes(s: State, a: Addr, v: Word, s0: State)
    requires s0 == Stored(s, a, v)
    ensures s0 == s.(mem := s.mem[a := v], cells := s0.cells) && MemAt(s0, a) == v
    ensures forall b: nat :: CellAt(s0, b) == CellAt(s, b)
  {}

  lemma CheckRest(s: State, a: Addr)
    ensures Check(s, a).wr == s.wr && Check(s, a).rd == s.rd && Check(s, a).mem == s.mem
  {
    if Changed(s, a) {
      var s0 := s.(cells := s.cells[a := CellAt(s, a).(val := MemAt(s, a))]);
      ScanLeaves(s0, ListAt(s0, a));
    }
  }

  /** A changed cell keeps its first node only. */
  lemma CheckDoes(s: State, a: Addr)
    requires Core(s)
    ensures var s' := Check(s, a);
            && CellAt(s', a).val == MemAt(s, a) && s'.mem == s.mem
            && (Changed(s, a) && ListAt(s, a) != [] ==>
                  ListAt(s', a) == [ListAt(s, a)[0]] && s'.freeNodes == ListAt(s, a)[1..] + s.freeNodes)
            && (forall b: nat :: b != a ==> CellAt(s', b) == CellAt(s, b))
  {
    if Changed(s, a) {
      var s0 := s.(cells := s.cells[a := CellAt(s, a).(val := MemAt(s, a))]);
      ScanLeaves(s0, ListAt(s0, a));
    }
  }

  lemma {:induction false} ScanLeaves(s: State, l: seq<nat>)
    ensures var s' := Scan(s, l); s' == s.(top := s'.top, cons := s'.cons, groups := s'.groups)
    decreases |l|
  {
    if l != [] {
      var s1 := if UpToDate(s, l[0]) then Trigger(s, s.nodes[l[0]].cons) else s;
      if UpToDate(s, l[0]) { TriggerLeaves(s, s.nodes[l[0]].cons); }
      ScanLeaves(s1, l[1..]);
    }
  }

  lemma TriggerLeaves(s: State, k: nat)
    ensures var s' := Trigger(s, k); s' == s.(top := s'.top, cons := s'.cons, groups := s'.groups)
  {}

  // ---- creating and deleting -----------------------------------------------------------------------

  /** A new constraint is the first free object, or a new one. Within a section it is put behind those created before
      it; otherwise it is entered at once, with its group current. */
  lemma NewDoes(s: State, fun: nat, g: Option<nat>)
    requires Good(s) && UserMode(s) && (g.Some? ==> g.value < |s.groups|)
    ensures var s' := NewCons(s, fun, g);
            var k := if s.freeCons == [] then |s.cons| else s.freeCons[0];
            && k < |s'.cons| && s'.cons[k].fun == fun && s'.cons[k].group == g
            && s'.freeCons == (if s.freeCons == [] then [] else s.freeCons[1..])
            && (s.atomic > 0 ==> s'.tempList == s.tempList + [k] && s'.initList == s.initList && s'.pc == s.pc
                                 && s'.time == s.time && s'.cons[k].ts == SCHED_TIME_STAMP && s'.groups == s.groups)
            && (s.atomic == 0 ==> s'.tempList == s.tempList && s'.atomic == 1 && s'.currGroup == g
                                  && s'.selfTrigger == (g.Some? && s.groups[g.value].self))
            && (s.atomic == 0 && s.time < MAX_TIME_STAMP ==>
                  && s'.pc == Body && s'.curr == Some(k) && s'.noLog == 0
                  && s'.time == s.time + 1 && s'.cons[k].ts == s.time + 1)
            && s'.mem == s.mem && s'.cells == s.cells && s'.nodes == s.nodes && s'.top == s.top
  {
    AllocConsObjects(s, fun, g);
    NewConsCells(s, fun, g);
    NewConsNodes(s, fun, g);
    if s.atomic == 0 { EnteredNew(s, fun, g); }
  }

  lemma EnteredNew(s: State, fun: nat, g: Option<nat>)
    requires Good(s) && s.pc == Idle && s.atomic == 0 && (g.Some? ==> g.value < |s.groups|)
    ensures var s1 := AllocCons(s, fun, g, InNew);
            var e := EnterGroup(s1, g);
            && NextCons(s) < |s1.cons| && NewCons(s, fun, g) == ExecCons(e, NextCons(s))
            && e == s1.(atomic := 1, currGroup := g, pc := Loop, selfTrigger := e.selfTrigger, groups := e.groups)
            && e.selfTrigger == (g.Some? && s.groups[g.value].self)
  {
    AllocConsObjects(s, fun, g);
  }

  /** A deleted constraint is stamped so; if it is not queued, its object is free at once. */
  lemma DelDoes(s: State, k: nat)
    requires Good(s) && Live(s, k)
    ensures var s' := DelCons(s, k);
            && |s'.cons| == |s.cons| && s'.cons[k].ts == DEL_TIME_STAMP
            && s'.freeCons == (if Resting(s, k) then [k] + s.freeCons else s.freeCons)
            && (forall j: nat :: j < |s.cons| && j != k ==> s'.cons[j] == s.cons[j])
            && s' == s.(cons := s'.cons, freeCons := s'.freeCons)
  {
    assert Unscheduled(s.cons[k].ts) <==> s.cons[k].place == AtRest;
  }

  // ---- blocks and sections -------------------------------------------------------------------------

  /** Closing an inner block only counts down. */
  lemma InnerEndAtDoes(s: State)
    requires s.curr == None && s.atomic > 1
    ensures EndAt(s) == s.(atomic := s.atomic - 1)
  {}

  /** Closing the outermost block: the new constraints go in front of those that wait, in creation order, nothing is
      logged or flagged any more, and the dispatch loop follows. */
  lemma OuterEndAtDoes(s: State)
    requires Good(s) && s.pc == Idle && s.atomic == 1
    ensures var s' := EndAt(s);
            && s'.pc == Loop && s'.atomic == 1 && s'.mem == s.mem
            && s'.initList == s.tempList + s.initList && s'.tempList == [] && s'.rd == [] && s'.wr == []
            && forall a: nat :: CellAt(s', a).flag == Untouched && CellAt(s', a).val == MemAt(s, a)
  {
    EndAtFlushes(s);
    EndAtInv(s);
    SettledFlags(EndAt(s));
  }

  /** So does the end of a body. */
  lemma LeaveDoes(s: State)
    requires Good(s) && s.pc == Body
    ensures var s' := Leave(s);
            && s'.pc == Loop && s'.curr == None && s'.noLog == 1 && s'.time == s.time && s'.mem == s.mem
            && s'.initList == s.tempList + s.initList && s'.tempList == [] && s'.rd == [] && s'.wr == []
            && s'.currGroup == s.currGroup && s'.selfTrigger == s.selfTrigger
            && forall a: nat :: CellAt(s', a).flag == Untouched && CellAt(s', a).val == MemAt(s, a)
  {
    LeaveFlushes(s);
    LeaveInv(s);
    SettledFlags(Leave(s));
  }

  lemma SettledFlags(s: State)
    requires MemOk(s) && s.rd == [] && s.wr == []
    ensures forall a: nat :: CellAt(s, a).flag == Untouched && CellAt(s, a).val == MemAt(s, a)
  {}

  // ---- turns of the dispatch loop --------------------------------------------------------------------

  /** Constraint `k` is freed if it has been deleted, and otherwise entered with a stamp above all others that rest. */
  ghost predicate Executed(s: State, s': State, k: nat) {
    && k < |s.cons| && |s'.cons| == |s.cons|
    && (forall j: nat :: j < |s.cons| && j != k ==> s'.cons[j] == s.cons[j])
    && (if s.cons[k].ts == DEL_TIME_STAMP then Freed(s, s', k)
        else if s.time == MAX_TIME_STAMP then s'.pc == Halted && s'.cons == s.cons
        else Entered(s, s', k))
  }

  predicate Freed(s: State, s': State, k: nat) {
    s'.pc == Loop && s'.curr == None && s'.time == s.time && s'.freeCons == [k] + s.freeCons
  }

  ghost predicate Entered(s: State, s': State, k: nat)
    requires k < |s'.cons|
  {
    && s'.pc == Body && s'.curr == Some(k) && s'.noLog == 0 && s'.trace == [] && s'.freeCons == s.freeCons
    && s'.time == s.time + 1 && s'.cons[k].ts == s'.time && s'.cons[k].place == AtRest
    && (forall j: nat :: Resting(s, j) ==> s.cons[j].ts < s'.cons[k].ts)
  }

  lemma ExecDoes(s: State, k: nat)
    requires StampsOk(s) && k < |s.cons| && s.pc == Loop && s.curr == None
    ensures var s' := ExecCons(s, k);
            && Executed(s, s', k) && s'.initList == s.initList && s'.top == s.top && s'.groups == s.groups
            && s'.currGroup == s.currGroup && s'.selfTrigger == s.selfTrigger
  {}

  /** A turn when new constraints wait: the first of them. */
  lemma TurnNewDoes(s: State, item: Item, i: nat)
    requires Good(s) && s.pc == Loop && s.initList != []
    ensures var s' := DispatchTurn(s, item, i);
            && Executed(s, s', s.initList[0]) && s'.initList == s.initList[1..] && s'.top == s.top
                && s'.groups == s.groups
            && s'.currGroup == s.currGroup && s'.selfTrigger == s.selfTrigger
  {
    RunNewInv(s);
    ExecDoes(s.(initList := s.initList[1..]), s.initList[0]);
  }

  /** A turn within a group with members to run: one of them. */
  lemma TurnMemberDoes(s: State, item: Item, i: nat, g: nat)
    requires Good(s) && s.pc == Loop && s.initList == [] && s.currGroup == Some(g) && i in s.groups[g].sched
    ensures var s' := DispatchTurn(s, item, i);
            && Executed(s, s', i) && s'.currGroup == Some(g) && s'.selfTrigger == s.selfTrigger && s'.top == s.top
            && s'.groups == s.groups[g := s.groups[g].(sched := s.groups[g].sched - multiset{i})]
  {
    assert s.groups[g].sched[i] == InSched(s, None, g, i);
    ExecDoes(s.(groups := s.groups[g := s.groups[g].(sched := s.groups[g].sched - multiset{i})]), i);
  }

  /** There is no group, or it has nothing left to run. */
  predicate NoMember(s: State) {
    && s.initList == []
    && match s.currGroup case None => true case Some(g) => g < |s.groups| && s.groups[g].sched == multiset{}
  }

  /** The group that is left gets the time of the latest execution as its stamp. */
  ghost predicate Stamped(s: State, s': State, but: Option<nat>) {
    && |s'.groups| == |s.groups|
    && forall h: nat :: h < |s.groups| && but != Some(h) ==>
         s'.groups[h] == if s.currGroup == Some(h) then s.groups[h].(ts := s.time, spot := Off) else s.groups[h]
  }

  /** Leaving the group, if there is one, and picking from the top level. */
  lemma TurnLeaves(s: State, item: Item, i: nat) returns (t: State)
    requires Good(s) && s.pc == Loop && NoMember(s)
    ensures DispatchTurn(s, item, i) == RunTop(t, item, i) && Good(t) && Stamped(s, t, None)
    ensures t == s.(currGroup := None, selfTrigger := false, groups := t.groups)
  {
    t := LeaveGroup(s);
    if s.currGroup.Some? { LeaveGroupGood(s, s.currGroup.value); }
  }

  lemma SameExecuted(s: State, t: State, s': State, k: nat)
    requires Executed(t, s', k) && t.cons == s.cons && t.time == s.time && t.freeCons == s.freeCons
    ensures Executed(s, s', k)
  {
    assert forall j: nat :: Resting(s, j) <==> Resting(t, j);
  }

  /** A turn with nothing left to run: the solver is done, no group is current and nothing triggers itself. */
  lemma TurnDoneDoes(s: State, item: Item, i: nat)
    requires Good(s) && s.pc == Loop && NoMember(s) && s.top == multiset{}
    ensures var s' := DispatchTurn(s, item, i);
            && s'.pc == Idle && s'.atomic == 0 && s'.currGroup == None && !s'.selfTrigger && s'.curr == None
            && Stamped(s, s', None) && s'.cons == s.cons && s'.time == s.time && s'.mem == s.mem
  {
    if s.currGroup.Some? { LeaveGroupGood(s, s.currGroup.value); }
  }

  /** A turn that picks a constraint from the top level. */
  lemma TurnTopDoes(s: State, item: Item, i: nat)
    requires Good(s) && s.pc == Loop && NoMember(s) && IsMin(s.top, item) && item.obj.ConsObj?
    ensures var s' := DispatchTurn(s, item, i);
            && Executed(s, s', item.obj.k) && s'.top == s.top - multiset{item} && Stamped(s, s', None)
            && s'.currGroup == None && !s'.selfTrigger
  {
    var t := LeaveGroup(s);
    if s.currGroup.Some? { LeaveGroupGood(s, s.currGroup.value); }
    assert s.top[item] == AtTop(s, None, item);
    ExecDoes(t.(top := t.top - multiset{item}), item.obj.k);
  }

  /** A turn that picks a group: it becomes current, its own flag decides on self-triggering, and one of its
      members is executed. */
  lemma TurnGroupDoes(s: State, item: Item, i: nat, g: nat)
    requires Good(s) && s.pc == Loop && NoMember(s) && IsMin(s.top, item) && item.obj == GroupObj(g)
    requires g < |s.groups| && i in s.groups[g].sched
    ensures var s' := DispatchTurn(s, item, i);
            && Executed(s, s', i) && s'.top == s.top - multiset{item} && Stamped(s, s', Some(g))
            && s'.currGroup == Some(g) && s'.selfTrigger == s.groups[g].self
            && s'.groups[g].sched == s.groups[g].sched - multiset{i} && s'.groups[g].spot == Current
  {
    var t := TurnLeaves(s, item, i);
    assert s.top[item] == AtTop(s, None, item) && GroupOk(s, g) && t.groups[g] == s.groups[g];
    PickedGroupDoes(t, item, i, g);
    SameExecuted(s, t, RunTop(t, item, i), i);
  }

  lemma PickedGroupDoes(s: State, item: Item, i: nat, g: nat)
    requires Good(s) && s.pc == Loop && s.initList == [] && s.currGroup == None && IsMin(s.top, item)
    requires item.obj == GroupObj(g) && g < |s.groups| && i in s.groups[g].sched
    ensures var s' := RunTop(s, item, i);
            && Executed(s, s', i) && s'.top == s.top - multiset{item} && s'.currGroup == Some(g)
            && s'.selfTrigger == s.groups[g].self
            && s'.groups == s.groups[g := s.groups[g].(spot := Current, sched := s.groups[g].sched - multiset{i})]
  {
    PickGroupGood(s, item);
    var u := PickGroup(s, item, g);
    assert u.groups[g].sched[i] == InSched(u, None, g, i);
    var v := u.(groups := u.groups[g := u.groups[g].(sched := u.groups[g].sched - multiset{i})]);
    ExecDoes(v, i);
    SameExecuted(s, v, ExecCons(v, i), i);
    assert RunTop(s, item, i) == RunInGroup(u, g, i) == ExecCons(v, i);
  }
}
