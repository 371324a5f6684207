/** The solver as the program has it: global variables that the handlers update in place, with the
    clean-up, scan, flush and dispatch loops. Every method is proved to do exactly what the state machine
    of `DcState` does, so the theorems about its runs are theorems about these methods. */
module Solver {
  import opened DcState
  import opened DcInv
  import opened DcSched
  import opened DcSteps
  import opened DcTurn
  import opened DcTheorems
  import opened DcLifecycle
  import opened DcEffects
  import DepLists
  import SchedHeap

  /** What a step of the dispatch loop leads to. */
  datatype Outcome = Continues | Enters(k: nat) | Finishes | Stops

  class Globals {
    ghost var pc: Pc
    var time: nat
    var atomicBlocks: nat
    var noLogBlocks: nat
    var currCons: Option<nat>
    var currGroup: Option<nat>
    var selfTrigger: bool
    var rdCells: seq<Addr>
    var wrCells: seq<Addr>
    var initList: seq<nat>
    var tempList: seq<nat>
    const topLevel: SchedHeap.Heap
    const deps: DepLists.Links
    var cons: seq<Cons>
    var freeCons: seq<nat>
    var groups: seq<Group>
    var consCounts: seq<nat>
    var mem: map<Addr, Word>
    var trace: seq<Event> // history

    /** The state these variables make up. */
    ghost function St(): State
      requires Sound()
      reads this, deps, topLevel, topLevel.heap
    {
      State(pc, time, atomicBlocks, noLogBlocks, currCons, currGroup, selfTrigger, rdCells, wrCells,
            initList, tempList, topLevel.Contents(), deps.cells, deps.nodes, deps.free, cons, freeCons, groups, mem,
                trace)
    }

    /** The scheduler and the dependency lists are well formed. */
    ghost predicate Sound()
      reads deps, topLevel, topLevel.heap
    {
      topLevel.Valid() && deps.Valid()
    }

    /** These variables hold a state that some run of the state machine leads to, and each group counts its live
        constraints. */
    ghost predicate Valid()
      reads this, deps, topLevel, topLevel.heap
    {
      Sound() && Reachable(St()) && CountsOk(St(), consCounts)
    }

    constructor ()
      ensures Valid() && St() == Init() && fresh(topLevel) && fresh(topLevel.heap) && fresh(deps)
    {
      pc, time, atomicBlocks, noLogBlocks := Idle, 0, 0, 1;
      currCons, currGroup, selfTrigger := None, None, false;
      rdCells, wrCells, initList, tempList := [], [], [], [];
      topLevel := new SchedHeap.Heap();
      deps := new DepLists.Links();
      cons, freeCons, groups, consCounts, mem, trace := [], [], [], [], map[], [];
      new;
      assert St() == Run(Init(), []);
    }

    // ---- reading -------------------------------------------------------------------------------

    /** The handler of the first logged read of a cell by the running constraint. */
    method ReadHandler(a: Addr)
      requires Sound() && currCons.Some? && Linked(St())
      modifies this`rdCells, deps
      ensures Sound() && St() == DcState.ReadHandler(old(St()), a)
    {
      LogRead(a);
      LogDep(a, Dep(time, currCons.value));
      deps.SetFlag(a, ReadMark);
    }

    /** Logs the read, and allocates a record for the cell. */
    method LogRead(a: Addr)
      requires Sound() && Linked(St())
      modifies this`rdCells, deps
      ensures Sound() && Linked(St()) && a in deps.heads
      ensures var s := old(St()); St() == s.(rd := s.rd + [a], cells := s.cells[a := CellAt(s, a)])
    {
      ghost var s := St();
      rdCells := rdCells + [a];
      deps.Touch(a);
      LinkedStays(s, St());
    }

    /** Overwrites the first node if it is stale, else adds one. */
    method LogDep(a: Addr, d: Dep)
      requires Sound() && Linked(St()) && a in deps.heads
      modifies deps
      ensures Sound() && St() == DcState.LogDep(old(St()), a, d) && a in deps.heads
    {
      forall m: nat | m in deps.cells[a].list ensures m < |deps.nodes| { assert Listed(St(), a, m); }
      deps.LogDep(a, d, cons, St());
    }

    // ---- scheduling ----------------------------------------------------------------------------

    /** Queues constraint `k` and its group, for one up-to-date node. */
    method Trigger(k: nat)
      requires Sound() && k < |cons| && (cons[k].group.Some? ==> cons[k].group.value < |groups|)
      modifies this`cons, this`groups, topLevel, topLevel.heap
      ensures Sound() && (topLevel.heap == old(topLevel.heap) || fresh(topLevel.heap))
      ensures St() == DcState.Trigger(old(St()), k)
    {
      var group := cons[k].group;
      if Unscheduled(cons[k].ts) && (selfTrigger || currCons != Some(k)) { EnqueueCons(k); }
      if group.Some? { EnqueueGroup(group.value); }
    }

    /** Queues constraint `k` in its group, or at top level if it has none. */
    method EnqueueCons(k: nat)
      requires Sound() && k < |cons| && (cons[k].group.Some? ==> cons[k].group.value < |groups|)
      modifies this`cons, this`groups, topLevel, topLevel.heap
      ensures Sound() && (topLevel.heap == old(topLevel.heap) || fresh(topLevel.heap))
      ensures St() == QueueCons(old(St()), k)
    {
      match cons[k].group
      case None =>
        topLevel.Schedule(ConsObj(k), cons[k].ts);
        cons := cons[k := cons[k].(ts := SCHED_TIME_STAMP, place := InTop(cons[k].ts))];
      case Some(g) =>
        groups := groups[g := groups[g].(sched := groups[g].sched + multiset{k})];
        cons := cons[k := cons[k].(ts := SCHED_TIME_STAMP, place := InGroup)];
    }

    /** Queues group `g` at top level unless it is queued or current. */
    method EnqueueGroup(g: nat)
      requires Sound() && g < |groups|
      modifies this`groups, topLevel, topLevel.heap
      ensures Sound() && (topLevel.heap == old(topLevel.heap) || fresh(topLevel.heap))
      ensures St() == QueueGroup(old(St()), g)
    {
      if Unscheduled(groups[g].ts) {
        topLevel.Schedule(GroupObj(g), groups[g].ts);
        groups := groups[g := groups[g].(ts := SCHED_TIME_STAMP, spot := Queued(groups[g].ts))];
      }
    }

    /** Scans the nodes of a changed cell, and frees all but the first. */
    method Schedule(a: Addr)
      requires Sound() && a in deps.heads && Linked(St())
      modifies this`cons, this`groups, deps, topLevel, topLevel.heap
      ensures Sound() && (topLevel.heap == old(topLevel.heap) || fresh(topLevel.heap))
      ensures St() == DcState.Schedule(old(St()), a) && deps.heads.Keys == old(deps.heads.Keys)
    {
      ghost var s, list := St(), deps.cells[a].list;
      if deps.heads[a].first == None { return; }
      forall n: nat | n in list ensures NodeInRange(s, n) { assert Listed(s, a, n); }
      assert AllInRange(s, list);
      var last := ScanList(deps.heads[a].first.value, list, s);
      ScanLinked(s, list);
      SamePartition(s, St());
      deps.KeepFirst(a, last, St());
    }

    /** The scan loop, which follows the links from the first node to the last one. */
    method ScanList(first: nat, ghost list: seq<nat>, ghost s: State) returns (dep: nat)
      requires Sound() && s == St() && GroupsInRange(s) && AllInRange(s, list)
      requires list != [] && first == list[0] && DepLists.Chain(deps.next, list)
      modifies this`cons, this`groups, topLevel, topLevel.heap
      ensures Sound() && (topLevel.heap == old(topLevel.heap) || fresh(topLevel.heap))
      ensures St() == Scan(s, list) && dep == list[|list| - 1]
    {
      dep := first;
      ghost var i := 0;
      ScanPosition(deps.next, list, 0);
      ScanNode(dep, list, s);
      while deps.next[dep] != None
        invariant i < |list| && dep == list[i] && Sound() && DepLists.LinkOk(deps.next, list, i)
        invariant topLevel.heap == old(topLevel.heap) || fresh(topLevel.heap)
        invariant GroupsInRange(St()) && AllInRange(St(), list)
        invariant Scan(St(), list[i + 1..]) == Scan(s, list)
        decreases |list| - i
      {
        dep, i := ScanNext(dep, list, i);
      }
    }

    /** Goes on to the next node. */
    method ScanNext(dep: nat, ghost list: seq<nat>, ghost i: nat) returns (dep': nat, ghost i': nat)
      requires Sound() && i < |list| && dep == list[i] && DepLists.LinkOk(deps.next, list, i) && deps.next[dep] != None
      requires GroupsInRange(St()) && AllInRange(St(), list) && DepLists.Chain(deps.next, list)
      modifies this`cons, this`groups, topLevel, topLevel.heap
      ensures Sound() && (topLevel.heap == old(topLevel.heap) || fresh(topLevel.heap))
      ensures i' == i + 1 < |list| && dep' == list[i'] && DepLists.LinkOk(deps.next, list, i')
      ensures GroupsInRange(St()) && AllInRange(St(), list)
          && Scan(old(St()), list[i + 1..]) == Scan(St(), list[i' + 1..])
    {
      dep', i' := deps.next[dep].value, i + 1;
      ScanPosition(deps.next, list, i');
      ScanNode(dep', list[i'..], St());
    }

    /** One turn of the scan loop. */
    method ScanNode(n: nat, ghost l: seq<nat>, ghost s: State)
      requires Sound() && s == St() && GroupsInRange(s) && NodeInRange(s, n) && l != [] && l[0] == n
      modifies this`cons, this`groups, topLevel, topLevel.heap
      ensures Sound() && (topLevel.heap == old(topLevel.heap) || fresh(topLevel.heap))
      ensures GroupsInRange(St()) && |cons| == |s.cons| && Scan(s, l) == Scan(St(), l[1..])
    {
      if DepLists.Fresh(deps.nodes, cons, n) {
        Trigger(deps.nodes[n].cons);
        TriggerRanges(s, deps.nodes[n].cons);
      }
    }

    // ---- writing and closing atomic sections ---------------------------------------------------

    /** Compares memory with the last known value of `a`, and schedules its dependents if it changed. */
    method CheckCell(a: Addr)
      requires Sound() && a in deps.heads && Linked(St())
      modifies this`cons, this`groups, deps, topLevel, topLevel.heap
      ensures Sound() && (topLevel.heap == old(topLevel.heap) || fresh(topLevel.heap))
      ensures St() == Check(old(St()), a) && deps.heads.Keys == old(deps.heads.Keys)
    {
      var val := if a in mem then mem[a] else 0;
      if deps.heads[a].val != val {
        ghost var s := St();
        deps.SetValue(a, val);
        LinkedStays(s, St());
        Schedule(a);
      }
    }

    /** Makes cell `a` untouched again. */
    method ClearFlag(a: Addr)
      requires Sound() && a in deps.heads
      modifies deps
      ensures Sound() && St() == SetFlag(old(St()), a, Untouched) && deps.heads.Keys == old(deps.heads.Keys)
    {
      deps.SetFlag(a, Untouched);
    }

    /** Clears the flags of the cells read. */
    method ClearReadFlags()
      requires Sound() && forall a: nat :: a in rdCells ==> a in deps.heads
      modifies deps
      ensures Sound() && St() == ClearFlags(old(St()), old(St()).rd) && deps.heads.Keys == old(deps.heads.Keys)
    {
      ghost var s := St();
      var i := 0;
      while i < |rdCells|
        invariant 0 <= i <= |rdCells| && Sound() && deps.heads.Keys == old(deps.heads.Keys)
        invariant ClearFlags(St(), rdCells[i..]) == ClearFlags(s, s.rd)
        invariant St() == s.(cells := deps.cells)
      {
        assert rdCells[i..][0] == rdCells[i] && rdCells[i..][1..] == rdCells[i + 1..];
        assert rdCells[i] in rdCells;
        ClearFlag(rdCells[i]);
        i := i + 1;
      }
    }

    /** One turn of the loop over the cells written. */
    method FlushCell(a: Addr, ghost l: seq<Addr>)
      requires Sound() && a in deps.heads && Linked(St()) && l != [] && l[0] == a
      modifies this`cons, this`groups, deps, topLevel, topLevel.heap
      ensures Sound() && (topLevel.heap == old(topLevel.heap) || fresh(topLevel.heap))
      ensures Flush(old(St()), l) == Flush(St(), l[1..])
      ensures Linked(St()) && deps.heads.Keys == old(deps.heads.Keys)
    {
      ghost var s := St();
      ClearFlag(a);
      LinkedStays(s, St());
      CheckLinked(St(), a);
      CheckCell(a);
    }

    /** The loop over the cells written. */
    method FlushWritten()
      requires Sound() && Linked(St()) && forall a: nat :: a in wrCells ==> a in deps.heads
      modifies this`cons, this`groups, deps, topLevel, topLevel.heap
      ensures Sound() && (topLevel.heap == old(topLevel.heap) || fresh(topLevel.heap))
      ensures St() == Flush(old(St()), old(St()).wr)
    {
      ghost var s := St();
      var i := 0;
      while i < |wrCells|
        invariant 0 <= i <= |wrCells| && Sound() && deps.heads.Keys == old(deps.heads.Keys)
        invariant topLevel.heap == old(topLevel.heap) || fresh(topLevel.heap)
        invariant Linked(St())
        invariant Flush(St(), wrCells[i..]) == Flush(s, s.wr)
      {
        assert wrCells[i] in wrCells && wrCells[i..][1..] == wrCells[i + 1..];
        FlushCell(wrCells[i], wrCells[i..]);
        i := i + 1;
      }
    }

    /** The cells in the logs have records. */
    ghost predicate Recorded()
      reads this`wrCells, this`rdCells, deps
    {
      forall a: nat :: a in wrCells || a in rdCells ==> a in deps.heads
    }

    /** The end of an atomic section: merges the lists of new constraints, clears flags, compares the
        written cells with their last known values. */
    method FinalizeAtomic()
      requires Sound() && Linked(St())
      requires Recorded()
      modifies this`cons, this`groups, deps, this`initList, this`tempList, this`rdCells, this`wrCells
      modifies topLevel, topLevel.heap
      ensures Sound() && (topLevel.heap == old(topLevel.heap) || fresh(topLevel.heap))
      ensures St() == Finalize(old(St()))
    {
      PrepareFlush();
      FlushWritten();
      wrCells := [];
    }

    /** Everything before the loop over the cells written. */
    method PrepareFlush()
      requires Sound() && Linked(St()) && Recorded()
      modifies deps, this`initList, this`tempList, this`rdCells
      ensures Sound() && St() == Prepared(old(St())) && Linked(St())
          && forall a: nat :: a in wrCells ==> a in deps.heads
    {
      ghost var s := St();
      MergeNew();
      ghost var s1 := St();
      ClearFlagsLists(s1, s1.rd);
      ClearReadFlags();
      rdCells := [];
      assert forall b: nat :: ListAt(St(), b) == ListAt(ClearFlags(s1, s1.rd), b);
      LinkedStays(s, St());
    }

    /** Puts the constraints created in the section in front of the other new constraints. */
    method MergeNew()
      requires Sound()
      modifies this`initList, this`tempList
      ensures St() == old(St()).(initList := old(St()).tempList + old(St()).initList, tempList := [])
    {
      ghost var s := St();
      if tempList != [] {
        initList := tempList + initList;
        tempList := [];
      }
      assert s.tempList == [] ==> s.tempList + s.initList == s.initList;
    }

    /** Cell `a` has been logged as read or as written. */
    predicate IsTouched(a: Addr)
      reads deps
    {
      a in deps.heads && deps.heads[a].flag != Untouched
    }

    /** A load from reactive memory, which is logged if and only if logging is on and the cell has not been touched. */
    method Load(a: Addr) returns (v: Word)
      requires Valid() && (pc == Idle || pc == Body)
      modifies this`rdCells, deps, this`trace
      ensures Valid() && St() == Apply(old(St()), Read(a)) && v == MemAt(old(St()), a)
      ensures rdCells == if old(noLogBlocks) == 0 && !old(IsTouched(a)) then old(rdCells) + [a] else old(rdCells)
    {
      LoadFields(St(), a);
      StepKeeps(St(), Read(a), consCounts);
      Facts(St());
      v := LoadLogged(a);
    }

    /** A load, which is logged if logging is on and the cell has not been touched. */
    method LoadLogged(a: Addr) returns (v: Word)
      requires Sound() && Linked(St())
      requires (pc == Body <==> currCons.Some?) && (noLogBlocks == 0 ==> pc == Body)
      modifies this`rdCells, deps, this`trace
      ensures Sound() && St() == ReadOp(old(St()), a) && v == MemAt(old(St()), a)
    {
      v := if a in mem then mem[a] else 0;
      if noLogBlocks == 0 && (a in deps.heads ==> deps.heads[a].flag == Untouched) {
        ReadHandler(a);
      }
      if currCons.Some? { trace := trace + [Rd(a, v)]; }
    }

    /** A store to reactive memory: within an atomic section it is logged, otherwise it is acted on. */
    method Store(a: Addr, v: Word)
      requires Valid() && (pc == Idle || pc == Body)
      modifies this, deps, topLevel, topLevel.heap
      ensures Valid() && (topLevel.heap == old(topLevel.heap) || fresh(topLevel.heap))
      ensures St() == Apply(old(St()), Write(a, v))
    {
      StepKeeps(St(), Write(a, v), consCounts);
      Facts(St());
      StoreValue(a, v);
    }

    method StoreValue(a: Addr, v: Word)
      requires Sound() && Linked(St()) && (pc == Body <==> currCons.Some?)
      requires atomicBlocks == 0 ==> pc == Idle && CellAt(St(), a).flag != WrittenMark
      modifies this`mem, this`trace, this`wrCells, this`cons, this`groups, this`atomicBlocks, this`pc, deps,
      topLevel, topLevel.heap
      ensures Sound() && (topLevel.heap == old(topLevel.heap) || fresh(topLevel.heap))
      ensures St() == WriteOp(old(St()), a, v)
    {
      if atomicBlocks != 0 { StoreLogged(a, v); } else { StoreNow(a, v); }
    }

    /** A store within an atomic section. */
    method StoreLogged(a: Addr, v: Word)
      requires Sound() && (pc == Body <==> currCons.Some?) && atomicBlocks != 0
      modifies this`mem, this`trace, deps, this`wrCells
      ensures Sound() && St() == WriteOp(old(St()), a, v)
    {
      PutMem(a, v);
      if !(a in deps.heads && deps.heads[a].flag == WrittenMark) { LogWrite(a); }
    }

    method PutMem(a: Addr, v: Word)
      requires Sound()
      modifies this`mem, this`trace
      ensures var s := old(St());
              St() == s.(mem := s.mem[a := v], trace := if s.curr.Some? then s.trace + [Wr(a, v)] else s.trace)
    {
      mem, trace := mem[a := v], if currCons.Some? then trace + [Wr(a, v)] else trace;
    }

    /** The write handler within an atomic section. */
    method LogWrite(a: Addr)
      requires Sound()
      modifies deps, this`wrCells
      ensures Sound() && var s := old(St()); St() == SetFlag(s.(wr := s.wr + [a]), a, WrittenMark)
    {
      wrCells := wrCells + [a];
      MarkWritten(a);
    }

    method MarkWritten(a: Addr)
      requires Sound()
      modifies deps
      ensures Sound() && St() == SetFlag(old(St()), a, WrittenMark)
    {
      ghost var was := deps.cells;
      ghost var c := if a in was then was[a] else FRESH_CELL;
      deps.Touch(a);
      deps.SetFlag(a, WrittenMark);
      assert was[a := c][a := c.(flag := WrittenMark)] == was[a := c.(flag := WrittenMark)];
    }

    /** A store outside any atomic section, after which the dispatch loop is to be entered if the value
        has changed. */
    method StoreNow(a: Addr, v: Word)
      requires Sound() && Linked(St()) && pc == Idle && atomicBlocks == 0 && CellAt(St(), a).flag != WrittenMark
      modifies this`mem, deps, this`cons, this`groups, this`atomicBlocks, this`pc
      modifies topLevel, topLevel.heap
      ensures Sound() && (topLevel.heap == old(topLevel.heap) || fresh(topLevel.heap))
      ensures St() == WriteOp(old(St()), a, v)
    {
      PutValue(a, v);
      if deps.heads[a].val != v {
        CheckCell(a);
        StartLoop();
      }
    }

    /** Stores `v`, and allocates a record for the cell. */
    method PutValue(a: Addr, v: Word)
      requires Sound() && Linked(St())
      modifies this`mem, deps
      ensures Sound() && St() == Stored(old(St()), a, v) && Linked(St()) && a in deps.heads
    {
      ghost var s := St();
      mem := mem[a := v];
      deps.Touch(a);
      LinkedStays(s, St());
    }

    /** Opens the atomic section of the dispatch loop. */
    method StartLoop()
      requires Sound()
      modifies this`atomicBlocks, this`pc
      ensures St() == old(St()).(atomic := 1, pc := Loop)
    {
      atomicBlocks, pc := 1, Loop;
    }

    // ---- executing constraints -----------------------------------------------------------------

    /** Frees a constraint deleted while queued, or enters the body of any other. */
    method ExecCons(k: nat) returns (outcome: Outcome)
      requires Sound() && k < |cons| && pc == Loop && currCons == None
      modifies this`freeCons, this`cons, this`time, this`pc, this`currCons, this`noLogBlocks, this`trace
      ensures St() == DcState.ExecCons(old(St()), k) && Reports(outcome)
    {
      if cons[k].ts == DEL_TIME_STAMP {
        FreeCons(k);
        outcome := Continues;
      } else {
        outcome := StartCons(k);
      }
    }

    /** Executes a constraint that has not been deleted, if there is a time stamp for it. */
    method StartCons(k: nat) returns (outcome: Outcome)
      requires Sound() && k < |cons| && pc == Loop && currCons == None && cons[k].ts != DEL_TIME_STAMP
      modifies this`cons, this`time, this`pc, this`currCons, this`noLogBlocks, this`trace
      ensures St() == DcState.ExecCons(old(St()), k) && Reports(outcome)
    {
      if time + 1 > MAX_TIME_STAMP {
        time, pc := time + 1, Halted;
        outcome := Stops;
      } else {
        EnterCons(k);
        outcome := Enters(k);
      }
    }

    /** Gives the object of a deleted constraint back to the pool. */
    method FreeCons(k: nat)
      requires k < |cons|
      modifies this`freeCons, this`cons
      ensures freeCons == [k] + old(freeCons) && cons == old(cons)[k := old(cons)[k].(place := Free)]
    {
      freeCons, cons := [k] + freeCons, cons[k := cons[k].(place := Free)];
    }

    /** Stamps constraint `k`, makes it current and turns logging on. */
    method EnterCons(k: nat)
      requires k < |cons|
      modifies this`cons, this`time, this`pc, this`currCons, this`noLogBlocks, this`trace
      ensures time == old(time) + 1 && cons == old(cons)[k := old(cons)[k].(ts := time, place := AtRest)]
      ensures currCons == Some(k) && noLogBlocks == 0 && pc == Body && trace == []
    {
      time := time + 1;
      cons := cons[k := cons[k].(ts := time, place := AtRest)];
      pc, currCons, noLogBlocks, trace := Body, Some(k), 0, [];
    }

    /** The result of a step tells the control point it leads to. */
    ghost predicate Reports(outcome: Outcome)
      reads this
    {
      match outcome
      case Continues => pc == Loop
      case Enters(k) => pc == Body && currCons == Some(k) && k < |cons|
      case Finishes => pc == Idle && atomicBlocks == 0
      case Stops => pc == Halted || pc == Stuck
    }

    /** History: what the finishing execution logged. */
    method Remember()
      requires Sound()
      modifies this`cons
      ensures St() == DcState.Remember(old(St()))
    {
      if currCons.Some? && currCons.value < |cons| && cons[currCons.value].place == AtRest {
        var k := currCons.value;
        var seen := map a | a in rdCells :: if a in mem then mem[a] else 0;
        assert seen == map a | a in rdCells :: MemAt(St(), a);
        cons := cons[k := cons[k].(seen := seen, trace := trace)];
      }
    }

    /** Remembers what was logged and turns logging off. */
    method FinishBody()
      requires Sound() && Linked(St())
      modifies this`cons, this`noLogBlocks
      ensures St() == Finishing(old(St())) && Linked(St())
    {
      ghost var s := St();
      Remember();
      noLogBlocks := 1;
      LinkedStays(s, St());
    }

    /** Goes from a body back to the dispatch loop. */
    method LeaveBody()
      requires Sound()
      modifies this`currCons, this`pc, this`trace
      ensures St() == old(St()).(curr := None, pc := Loop, trace := [])
    {
      currCons, pc, trace := None, Loop, [];
    }

    /** The end of a constraint body. */
    method LeaveCons()
      requires Valid() && pc == Body
      modifies this, deps, topLevel, topLevel.heap
      ensures Valid() && (topLevel.heap == old(topLevel.heap) || fresh(topLevel.heap))
      ensures St() == Apply(old(St()), EndBody)
    {
      StepKeeps(St(), EndBody, consCounts);
      Facts(St());
      CloseBody();
    }

    /** Remembers what was logged, closes the atomic section and goes back to the dispatch loop. */
    method CloseBody()
      requires Sound() && Linked(St())
      requires Recorded()
      modifies this`cons, this`noLogBlocks, this`currCons, this`pc, this`trace, this`groups, this`initList,
      this`tempList
      modifies this`rdCells, this`wrCells, deps, topLevel, topLevel.heap
      ensures Sound() && (topLevel.heap == old(topLevel.heap) || fresh(topLevel.heap))
      ensures St() == Leave(old(St()))
    {
      FinishBody();
      FinalizeAtomic();
      LeaveBody();
    }

    // ---- the dispatch loop ---------------------------------------------------------------------

    /** Takes the first of the new constraints. */
    method TakeNew() returns (outcome: Outcome)
      requires Sound() && pc == Loop && currCons == None && initList != [] && initList[0] < |cons|
      modifies this`initList, this`freeCons, this`cons, this`time, this`pc, this`currCons, this`noLogBlocks, this`trace
      ensures St() == RunNew(old(St())) && Reports(outcome)
    {
      var head := initList[0];
      initList := initList[1..];
      outcome := ExecCons(head);
    }

    /** Takes a constraint out of the scheduler of group `g`. Its class decides which. */
    method TakeMember(g: nat) returns (outcome: Outcome, k: nat)
      requires Sound() && pc == Loop && currCons == None
      requires g < |groups| && groups[g].sched != multiset{} && MembersInRange(St(), g)
      modifies this`groups, this`freeCons, this`cons, this`time, this`pc, this`currCons, this`noLogBlocks, this`trace
      ensures k in old(groups)[g].sched && k < old(|cons|)
      ensures St() == RunInGroup(old(St()), g, k) && Reports(outcome)
    {
      k :| k in groups[g].sched;
      groups := groups[g := groups[g].(sched := groups[g].sched - multiset{k})];
      outcome := ExecCons(k);
    }

    /** Leaves the current group, which has nothing left to run. */
    method ExitGroup(g: nat)
      requires Sound() && currGroup == Some(g) && g < |groups|
      modifies this`groups, this`currGroup, this`selfTrigger
      ensures St() == LeaveGroup(old(St()))
    {
      groups := groups[g := groups[g].(ts := time, spot := Off)];
      currGroup, selfTrigger := None, false;
    }

    /** One turn of the dispatch loop up to the execution of a constraint. */
    method DispatchOne() returns (outcome: Outcome, ghost op: Op)
      requires Valid() && pc == Loop
      modifies this, deps, topLevel, topLevel.heap
      ensures Valid() && topLevel.heap == old(topLevel.heap)
      ensures op.Turn? && St() == Apply(old(St()), op) && Reports(outcome)
    {
      ghost var s := St();
      QueueFacts(s);
      outcome, op := DispatchNext();
      TurnKeeps(s, op, St(), consCounts);
    }

    /** Runs a new constraint, else one of the current group, else leaves the group and picks. */
    method DispatchNext() returns (outcome: Outcome, ghost op: Op)
      requires Sound() && pc == Loop && currCons == None && Ranged(St())
      modifies this`groups, this`currGroup, this`selfTrigger, this`atomicBlocks, this`initList, topLevel, topLevel.heap
      modifies this`freeCons, this`cons, this`time, this`pc, this`currCons, this`noLogBlocks, this`trace
      ensures Sound() && topLevel.heap == old(topLevel.heap)
      ensures op.Turn? && St() == DispatchTurn(old(St()), op.item, op.k) && Reports(outcome)
    {
      if initList != [] {
        assert initList[0] in initList;
        op := Turn(Item(0, ConsObj(0)), 0);
        outcome := TakeNew();
      } else {
        outcome, op := TakeScheduled();
      }
    }

    /** The next turn when there are no new constraints. */
    method TakeScheduled() returns (outcome: Outcome, ghost op: Op)
      requires Sound() && pc == Loop && currCons == None && initList == [] && Ranged(St())
      modifies this`groups, this`currGroup, this`selfTrigger, this`atomicBlocks, topLevel, topLevel.heap
      modifies this`freeCons, this`cons, this`time, this`pc, this`currCons, this`noLogBlocks, this`trace
      ensures Sound() && topLevel.heap == old(topLevel.heap)
      ensures op.Turn? && St() == DispatchTurn(old(St()), op.item, op.k) && Reports(outcome)
    {
      op := Turn(Item(0, ConsObj(0)), 0);
      if currGroup == None {
        outcome, op := DispatchTop();
      } else if groups[currGroup.value].sched != multiset{} {
        var k;
        outcome, k := TakeMember(currGroup.value);
        op := Turn(op.item, k);
      } else {
        outcome, op := LeaveAndPick(currGroup.value);
      }
    }

    /** Leaves the current group, which has nothing left to run, and picks from the top level. */
    method LeaveAndPick(g: nat) returns (outcome: Outcome, ghost op: Op)
      requires Sound() && pc == Loop && currCons == None && initList == [] && Ranged(St())
      requires currGroup == Some(g) && groups[g].sched == multiset{}
      modifies this`groups, this`currGroup, this`selfTrigger, this`atomicBlocks, topLevel, topLevel.heap
      modifies this`freeCons, this`cons, this`time, this`pc, this`currCons, this`noLogBlocks, this`trace
      ensures Sound() && topLevel.heap == old(topLevel.heap)
      ensures op.Turn? && St() == RunTop(LeaveGroup(old(St())), op.item, op.k) && Reports(outcome)
    {
      ghost var s := St();
      ExitGroup(g);
      forall h: nat | h < |groups| ensures MembersInRange(St(), h) { assert MembersInRange(s, h); }
      outcome, op := DispatchTop();
    }

    /** Makes `g`, just picked as `item`, the current group. */
    method EnterPicked(g: nat, ghost item: Item, ghost s: State)
      requires Sound() && g < |groups| && St() == s.(top := s.top - multiset{item})
      modifies this`groups, this`currGroup, this`selfTrigger
      ensures St() == PickGroup(s, item, g)
    {
      currGroup, selfTrigger := Some(g), groups[g].self;
      groups := groups[g := groups[g].(spot := Current)];
    }

    /** Takes an entry of minimum stamp from the top-level scheduler, if there is one. */
    method PickTop() returns (picked: Option<Item>)
      requires Sound()
      modifies topLevel, topLevel.heap
      ensures Sound() && topLevel.heap == old(topLevel.heap)
      ensures var s := old(St());
              if s.top == multiset{} then picked == None && St() == s
              else picked.Some? && IsMin(s.top, picked.value) && St() == s.(top := s.top - multiset{picked.value})
    {
      picked := topLevel.Pick();
    }

    /** Nothing is left to run. */
    method FinishLoop()
      requires Sound()
      modifies this`atomicBlocks, this`pc
      ensures St() == old(St()).(atomic := 0, pc := Idle)
    {
      atomicBlocks, pc := 0, Idle;
    }

    /** Picks from the top-level scheduler. */
    method DispatchTop() returns (outcome: Outcome, ghost op: Op)
      requires Sound() && pc == Loop && currCons == None && initList == [] && currGroup == None && Ranged(St())
      modifies this`groups, this`currGroup, this`selfTrigger, this`atomicBlocks, topLevel, topLevel.heap
      modifies this`freeCons, this`cons, this`time, this`pc, this`currCons, this`noLogBlocks, this`trace
      ensures Sound() && topLevel.heap == old(topLevel.heap)
      ensures op.Turn? && St() == RunTop(old(St()), op.item, op.k) && Reports(outcome)
    {
      ghost var s := St();
      op := Turn(Item(0, ConsObj(0)), 0);
      var picked := PickTop();
      if picked == None {
        FinishLoop();
        outcome := Finishes;
      } else {
        outcome, op := RunItem(picked.value, s);
      }
    }

    /** Runs the constraint just picked, or one of the group just picked. */
    method RunItem(item: Item, ghost s: State) returns (outcome: Outcome, ghost op: Op)
      requires Sound() && pc == Loop && currCons == None && Ranged(s) && IsMin(s.top, item)
          && St() == s.(top := s.top - multiset{item})
      modifies this`groups, this`currGroup, this`selfTrigger
      modifies this`freeCons, this`cons, this`time, this`pc, this`currCons, this`noLogBlocks, this`trace
      ensures op.Turn? && St() == RunTop(s, op.item, op.k) && Reports(outcome)
    {
      if item.obj.ConsObj? {
        op := Turn(item, 0);
        outcome := ExecCons(item.obj.k);
      } else {
        EnterPicked(item.obj.g, item, s);
        outcome, op := RunPicked(item, s);
      }
    }

    /** Runs a constraint of the group just entered, if it has any. */
    method RunPicked(item: Item, ghost s: State) returns (outcome: Outcome, ghost op: Op)
      requires Sound() && item.obj.GroupObj? && item.obj.g < |s.groups| && St() == PickGroup(s, item, item.obj.g)
      requires MembersInRange(s, item.obj.g) && pc == Loop && currCons == None && IsMin(s.top, item)
      modifies this`groups, this`freeCons, this`cons, this`time, this`pc, this`currCons, this`noLogBlocks, this`trace
      ensures op.Turn? && St() == RunTop(s, op.item, op.k) && Reports(outcome)
    {
      var g := item.obj.g;
      op := Turn(item, 0);
      RunTopGroup(s, item, g);
      if groups[g].sched == multiset{} {
        pc := Stuck;
        outcome := Stops;
      } else {
        var k;
        outcome, k := TakeMember(g);
        op := Turn(item, k);
      }
    }

    // ---- constraints and groups ------------------------------------------------------------------

    /** Takes a constraint object from the pool and initialises it. */
    method AllocCons(fun: nat, g: Option<nat>) returns (k: nat)
      requires Sound() && forall j: nat :: j in freeCons ==> j < |cons|
      modifies this`cons, this`freeCons
      ensures k == NextCons(old(St())) && k < |cons| && St() == DcState.AllocCons(old(St()), fun, g, InNew)
    {
      var c := Cons(fun, SCHED_TIME_STAMP, g, InNew, map[], []);
      if freeCons != [] {
        k := freeCons[0];
        assert k in freeCons;
        cons, freeCons := cons[k := c], freeCons[1..];
      } else {
        k := |cons|;
        cons := cons + [c];
      }
    }

    /** Creates a constraint. Within an atomic section it waits among the new constraints, otherwise its
        group becomes current and its body is entered. */
    method NewCons(fun: nat, g: Option<nat>) returns (k: nat)
      requires Valid() && (pc == Idle || pc == Body) && (g.Some? ==> g.value < |groups|)
      modifies this
      ensures Valid() && St() == Apply(old(St()), New(fun, g)) && k == NextCons(old(St()))
      ensures old(atomicBlocks) > 0 ==> tempList == old(tempList) + [k] && pc == old(pc) && time == old(time)
      ensures old(atomicBlocks) == 0 ==> currGroup == g && atomicBlocks == 1
      ensures old(atomicBlocks) == 0 && old(time) < MAX_TIME_STAMP ==>
                pc == Body && currCons == Some(k) && noLogBlocks == 0 && time == old(time) + 1
      ensures consCounts == if g.Some? then old(consCounts)[g.value := old(consCounts)[g.value] + 1]
          else old(consCounts)
    {
      ghost var s := St();
      NewKeeps(s, fun, g, consCounts);
      NewFields(s, fun, g);
      k := CreateCons(fun, g);
      if g.Some? { consCounts := consCounts[g.value := consCounts[g.value] + 1]; }
    }

    method CreateCons(fun: nat, g: Option<nat>) returns (k: nat)
      requires Sound() && Linked(St()) && (g.Some? ==> g.value < |groups|) && (atomicBlocks == 0 ==> currCons == None)
      requires forall j: nat :: j in freeCons ==> j < |cons|
      modifies this`atomicBlocks, this`currGroup, this`selfTrigger, this`groups, this`tempList
      modifies this`freeCons, this`cons, this`time, this`pc, this`currCons, this`noLogBlocks, this`trace
      ensures St() == DcState.NewCons(old(St()), fun, g) && k == NextCons(old(St()))
    {
      k := AllocCons(fun, g);
      if atomicBlocks != 0 {
        tempList := tempList + [k];
      } else {
        ExecNew(k, g);
      }
    }

    /** Executes the constraint just created. */
    method ExecNew(k: nat, g: Option<nat>)
      requires Sound() && (g.Some? ==> g.value < |groups|) && k < |cons| && currCons == None
      modifies this`atomicBlocks, this`currGroup, this`selfTrigger, this`groups
      modifies this`freeCons, this`cons, this`time, this`pc, this`currCons, this`noLogBlocks, this`trace
      ensures St() == DcState.ExecCons(EnterGroup(old(St()), g), k)
    {
      StartGroup(g);
      var outcome := ExecCons(k);
    }

    /** Opens the atomic section of the dispatch loop with `g` as the current group. */
    method StartGroup(g: Option<nat>)
      requires Sound() && (g.Some? ==> g.value < |groups|)
      modifies this`atomicBlocks, this`currGroup, this`pc, this`selfTrigger, this`groups
      ensures St() == EnterGroup(old(St()), g)
    {
      StartLoop();
      if g.Some? { HoldGroup(g.value); }
      currGroup := g;
    }

    method HoldGroup(h: nat)
      requires Sound() && h < |groups|
      modifies this`selfTrigger, this`groups
      ensures selfTrigger == old(groups)[h].self
      ensures groups == old(groups)[h := old(groups)[h].(ts := SCHED_TIME_STAMP, spot := Current)]
    {
      selfTrigger := groups[h].self;
      groups := groups[h := groups[h].(ts := SCHED_TIME_STAMP, spot := Current)];
    }

    /** Deletes a constraint. If it is queued, it is marked, and freed when it is picked. */
    method DelCons(k: nat)
      requires Valid() && (pc == Idle || pc == Body) && Live(St(), k)
      modifies this`freeCons, this`cons, this`consCounts
      ensures Valid() && St() == Apply(old(St()), Del(k)) && |cons| == |old(cons)| && cons[k].ts == DEL_TIME_STAMP
      ensures freeCons == if Unscheduled(old(cons)[k].ts) then [k] + old(freeCons) else old(freeCons)
      ensures |consCounts| == |old(consCounts)|
      ensures forall g: nat :: g < |consCounts| ==>
                old(consCounts)[g] == consCounts[g] + if old(cons)[k].group == Some(g) then 1 else 0
    {
      DelKeeps(St(), k, consCounts);
      if cons[k].group.Some? { consCounts := consCounts[cons[k].group.value := consCounts[cons[k].group.value] - 1]; }
      RetireCons(k);
    }

    /** Frees a constraint that is not queued, and marks it in any case. */
    method RetireCons(k: nat)
      requires Sound() && k < |cons|
      modifies this`freeCons, this`cons
      ensures St() == DcState.DelCons(old(St()), k)
    {
      if Unscheduled(cons[k].ts) {
        freeCons, cons := [k] + freeCons, cons[k := cons[k].(ts := DEL_TIME_STAMP, place := Free)];
      } else {
        cons := cons[k := cons[k].(ts := DEL_TIME_STAMP)];
      }
    }

    /** Whether a group may be deleted: exactly if it has no live constraints. */
    method IsEmptyGroup(g: nat) returns (empty: bool)
      requires Valid() && g < |groups|
      ensures empty <==> forall k: nat :: Live(St(), k) ==> cons[k].group != Some(g)
    {
      empty := consCounts[g] == 0;
      ghost var members := LiveMembers(St(), g);
      assert forall k: nat :: k in members <==> Live(St(), k) && cons[k].group == Some(g);
      assert members == {} <==> |members| == 0;
    }

    method NewGroup() returns (g: nat)
      requires Valid() && (pc == Idle || pc == Body)
      modifies this`groups, this`consCounts
      ensures Valid() && St() == Apply(old(St()), Op.NewGroup) && g == |old(groups)|
          && consCounts == old(consCounts) + [0]
      ensures groups == old(groups) + [Group(0, false, multiset{}, Off)]
    {
      NewGroupKeeps(St(), consCounts);
      g := |groups|;
      groups, consCounts := groups + [Group(0, false, multiset{}, Off)], consCounts + [0];
    }

    method SetSelfTrigger(g: nat, self: bool)
      requires Valid() && (pc == Idle || pc == Body) && g < |groups|
      modifies this`groups
      ensures Valid() && St() == Apply(old(St()), SetSelf(g, self))
      ensures groups == old(groups)[g := old(groups)[g].(self := self)]
    {
      StepKeeps(St(), SetSelf(g, self), consCounts);
      groups := groups[g := groups[g].(self := self)];
    }

    // ---- atomic and no-log blocks ----------------------------------------------------------------

    /** Opens an atomic block, which fails within bodies and if too many are open. */
    method BeginAt() returns (ok: bool)
      requires Valid() && (pc == Idle || pc == Body)
      modifies this`atomicBlocks
      ensures Valid() && St() == Apply(old(St()), OpenAt)
      ensures ok <==> currCons == None && old(atomicBlocks) != MAX_NESTING
      ensures atomicBlocks == old(atomicBlocks) + if ok then 1 else 0
    {
      StepKeeps(St(), OpenAt, consCounts);
      ok := currCons == None && atomicBlocks != MAX_NESTING;
      if ok { atomicBlocks := atomicBlocks + 1; }
    }

    /** Closes an atomic block, which fails within bodies and if none is open. */
    method EndAt() returns (ok: bool)
      requires Valid() && (pc == Idle || pc == Body)
      modifies this, deps, topLevel, topLevel.heap
      ensures Valid() && (topLevel.heap == old(topLevel.heap) || fresh(topLevel.heap))
      ensures St() == Apply(old(St()), CloseAt)
      ensures ok <==> old(currCons) == None && old(atomicBlocks) != 0
      ensures !ok ==> St() == old(St())
      ensures ok && old(atomicBlocks) > 1 ==>
                atomicBlocks == old(atomicBlocks) - 1 && St() == old(St()).(atomic := old(atomicBlocks) - 1)
      ensures ok && old(atomicBlocks) == 1 ==>
                atomicBlocks == 1 && pc == Loop && initList == old(tempList) + old(initList) && tempList == []
    {
      ghost var s := St();
      Facts(s);
      EndAtFields(s);
      StepKeeps(s, CloseAt, consCounts);
      ok := currCons == None && atomicBlocks != 0;
      LeaveAtomic();
    }

    /** Closes an atomic block: the outermost one ends the section. */
    method LeaveAtomic()
      requires Sound() && Linked(St())
      requires Recorded()
      modifies this, deps, topLevel, topLevel.heap
      ensures Sound() && (topLevel.heap == old(topLevel.heap) || fresh(topLevel.heap))
      ensures St() == DcState.EndAt(old(St())) && consCounts == old(consCounts)
    {
      if currCons == None && atomicBlocks == 1 {
        CloseAtomic();
      } else if currCons == None && atomicBlocks > 1 {
        atomicBlocks := atomicBlocks - 1;
      }
    }

    /** Closes the outermost atomic block, and goes on to the dispatch loop. */
    method CloseAtomic()
      requires Sound() && Linked(St())
      requires Recorded()
      modifies this, deps, topLevel, topLevel.heap
      ensures Sound() && (topLevel.heap == old(topLevel.heap) || fresh(topLevel.heap))
      ensures St() == Finalize(old(St()).(atomic := 0)).(atomic := 1, pc := Loop) && consCounts == old(consCounts)
    {
      ghost var s := St();
      atomicBlocks := 0;
      LinkedStays(s, St());
      FinalizeAtomic();
      StartLoop();
    }

    /** Opens a no-log block, which fails outside bodies and if too many are open. */
    method BeginNoLog() returns (ok: bool)
      requires Valid() && (pc == Idle || pc == Body)
      modifies this`noLogBlocks
      ensures Valid() && St() == Apply(old(St()), OpenNoLog)
      ensures ok <==> currCons.Some? && old(noLogBlocks) != MAX_NESTING
      ensures noLogBlocks == old(noLogBlocks) + if ok then 1 else 0
    {
      StepKeeps(St(), OpenNoLog, consCounts);
      ok := CountNoLog(currCons.Some? && noLogBlocks != MAX_NESTING, noLogBlocks + 1);
    }

    /** Closes a no-log block, which fails outside bodies and if none is open. */
    method EndNoLog() returns (ok: bool)
      requires Valid() && (pc == Idle || pc == Body)
      modifies this`noLogBlocks
      ensures Valid() && St() == Apply(old(St()), CloseNoLog)
      ensures ok <==> currCons.Some? && old(noLogBlocks) != 0
      ensures old(noLogBlocks) == noLogBlocks + if ok then 1 else 0
    {
      StepKeeps(St(), CloseNoLog, consCounts);
      ok := CountNoLog(currCons.Some? && noLogBlocks != 0, noLogBlocks - 1);
    }

    method CountNoLog(ok: bool, n: int) returns (done: bool)
      requires Sound() && (ok ==> n >= 0)
      modifies this`noLogBlocks
      ensures St() == old(St()).(noLog := if ok then n else old(noLogBlocks)) && done == ok
    {
      done := ok;
      if ok { noLogBlocks := n; }
    }

    // ---- running user code -----------------------------------------------------------------------

    /** Whether user code may do `op` now. */
    method Allowed(op: Op) returns (ok: bool)
      requires Valid() && (pc == Idle || pc == Body)
      ensures ok <==> Enabled(St(), op)
    {
      Facts(St());
      match op
      case New(_, g) => ok := g.Some? ==> g.value < |groups|;
      case Del(k) => ok := k < |cons| && cons[k].place != Free && cons[k].ts != DEL_TIME_STAMP;
      case SetSelf(g, _) => ok := g < |groups|;
      case EndBody => ok := currCons.Some?;
      case Turn(_, _) => ok := false;
      case _ => ok := true;
    }

    /** One operation of user code, and what it is told. */
    method Perform(op: Op) returns (told: nat)
      requires Valid() && (pc == Idle || pc == Body) && Enabled(St(), op)
      modifies this, deps, topLevel, topLevel.heap
      ensures Valid() && (topLevel.heap == old(topLevel.heap) || fresh(topLevel.heap))
      ensures St() == Apply(old(St()), op) && told == Told(old(St()), op)
    {
      var ok := true;
      told := 0;
      match op {
        case Read(a) => told := Load(a);
        case Write(a, v) => Store(a, v);
        case New(fun, g) => told := NewCons(fun, g);
        case Del(k) => DelCons(k);
        case OpenAt => ok := BeginAt();
        case CloseAt => ok := EndAt();
        case OpenNoLog => ok := BeginNoLog();
        case CloseNoLog => ok := EndNoLog();
        case NewGroup => told := NewGroup();
        case SetSelf(g, self) => SetSelfTrigger(g, self);
        case EndBody => LeaveCons();
      }
      if !ok { told := 1; }
    }

    /** What the body of the current constraint does next; what it may not do is passed over. */
    method StepBody(op: Op) returns (told: nat)
      requires Valid() && pc == Body
      modifies this, deps, topLevel, topLevel.heap
      ensures Valid() && (topLevel.heap == old(topLevel.heap) || fresh(topLevel.heap))
      ensures St() == Apply(old(St()), op) && (Enabled(old(St()), op) ==> told == Told(old(St()), op))
      ensures if op.EndBody? then pc == Loop else pc == Body && currCons == old(currCons) && |cons| >= |old(cons)|
    {
      BodyStays(St(), op);
      var ok := Allowed(op);
      told := 0;
      if ok { told := Perform(op); }
    }

    /** Takes turns of the dispatch loop and runs the bodies it enters, until it returns, stops, or has
        taken `fuel` steps: cyclic constraints may never settle. If it returns, no dependency was lost. */
    method Dispatch(bodies: nat -> Script, fuel: nat) returns (outcome: Outcome, ghost ops: seq<Op>)
      requires Valid() && (pc == Loop || pc == Body)
      modifies this, deps, topLevel, topLevel.heap
      ensures Valid() && (topLevel.heap == old(topLevel.heap) || fresh(topLevel.heap))
      ensures St() == Run(old(St()), ops) && Reports(outcome)
      ensures outcome == Finishes ==> Returned(St()) && forall k: nat :: Live(St(), k) ==> InStep(St(), k)
    {
      ghost var s := St();
      outcome, ops := Continues, [];
      LoopFacts(s);
      if currCons.Some? { outcome := Enters(currCons.value); }
      var left, past := fuel, [];
      while left > 0 && !outcome.Finishes? && !outcome.Stops?
        invariant Valid() && Reports(outcome)
        invariant topLevel.heap == old(topLevel.heap) || fresh(topLevel.heap)
        invariant St() == Run(s, ops)
        decreases left
      {
        ghost var op, s1 := EndBody, St();
        if outcome.Enters? {
          var next := bodies(cons[outcome.k].fun)(past);
          var told := StepBody(next);
          op, past := next, past + [Did(next, told)];
          if next.EndBody? { outcome := Continues; }
        } else {
          outcome, op := DispatchOne();
          past := [];
        }
        RunAppend(s, ops, [op]);
        assert Run(s1, [op]) == Run(Apply(s1, op), []);
        ops, left := ops + [op], left - 1;
      }
      if outcome == Finishes { AllInStep(St()); }
    }

    /** A whole call of the program, outside any body: one operation and, if it starts the solver, the dispatch
        loop to its end. */
    method Call(op: Op, bodies: nat -> Script, fuel: nat) returns (told: nat, outcome: Outcome, ghost ops: seq<Op>)
      requires Valid() && pc == Idle && Enabled(St(), op)
      modifies this, deps, topLevel, topLevel.heap
      ensures Valid() && (topLevel.heap == old(topLevel.heap) || fresh(topLevel.heap))
      ensures St() == Run(old(St()), [op] + ops) && told == Told(old(St()), op)
      ensures outcome == Finishes ==> pc == Idle
      ensures outcome == Finishes && atomicBlocks == 0 ==> forall k: nat :: Live(St(), k) ==> InStep(St(), k)
    {
      ghost var s := St();
      CallLeads(s, op);
      var before := atomicBlocks;
      told := Perform(op);
      outcome, ops := Finishes, [];
      if ((op.Write? || op.New?) && before == 0 && atomicBlocks == 1) || (op.CloseAt? && before == 1) {
        if time > MAX_TIME_STAMP { outcome := Stops; } else { outcome, ops := Dispatch(bodies, fuel); }
      } else if atomicBlocks == 0 {
        AllInStep(St());
      }
      assert ([op] + ops)[1..] == ops;
    }
  }

  /** What user code has done, and was told: the value read, the object created, or, for blocks, 1 for failure. */
  datatype Did = Did(op: Op, told: nat)

  /** What a body does next, given all it has done. */
  type Script = seq<Did> -> Op

  function Told(s: State, op: Op): nat {
    match op
    case Read(a) => MemAt(s, a)
    case New(_, _) => NextCons(s)
    case NewGroup => |s.groups|
    case OpenAt => if s.curr.Some? || s.atomic == MAX_NESTING then 1 else 0
    case CloseAt => if s.curr.Some? || s.atomic == 0 then 1 else 0
    case OpenNoLog => if s.curr == None || s.noLog == MAX_NESTING then 1 else 0
    case CloseNoLog => if s.curr == None || s.noLog == 0 then 1 else 0
    case _ => 0
  }

  /** A body stays in its mode until it ends. */
  lemma BodyStays(s: State, op: Op)
    requires Reachable(s) && s.pc == Body
    ensures var s' := Apply(s, op);
            if op.EndBody? then s'.pc == Loop else s'.pc == Body && s'.curr == s.curr && |s'.cons| >= |s.cons|
  {
    Facts(s);
    if op.Read? { ReadStamps(s, op.a); }
  }

  lemma LoopFacts(s: State)
    requires Reachable(s) && (s.pc == Loop || s.pc == Body)
    ensures s.pc == Body <==> s.curr.Some?
    ensures s.curr.Some? ==> s.curr.value < |s.cons|
  {
    ReachableInv(s);
  }

  /** What the steps of these methods do to single variables. */
  lemma EndAtFields(s: State)
    requires Reachable(s) && UserMode(s)
    ensures s.curr == None && s.atomic > 1 ==> Apply(s, CloseAt) == s.(atomic := s.atomic - 1)
    ensures s.curr == None && s.atomic == 1 ==>
              var s' := Apply(s, CloseAt);
              s'.atomic == 1 && s'.pc == Loop && s'.initList == s.tempList + s.initList && s'.tempList == []
  {
    ReachableInv(s);
    if s.curr == None && s.atomic == 1 { OuterEndAtDoes(s); }
  }

  lemma LoadFields(s: State, a: Addr)
    requires Reachable(s) && UserMode(s)
    ensures Apply(s, Read(a)).rd == if s.noLog == 0 && CellAt(s, a).flag == Untouched then s.rd + [a] else s.rd
  {
    ReachableInv(s);
    ReadDoes(s, a);
  }

  lemma NewFields(s: State, fun: nat, g: Option<nat>)
    requires Reachable(s) && UserMode(s) && (g.Some? ==> g.value < |s.groups|)
    ensures var s' := NewCons(s, fun, g);
            && (s.atomic > 0 ==> s'.tempList == s.tempList + [NextCons(s)] && s'.pc == s.pc && s'.time == s.time)
            && (s.atomic == 0 ==> s'.currGroup == g && s'.atomic == 1)
            && (s.atomic == 0 && s.time < MAX_TIME_STAMP ==>
                  s'.pc == Body && s'.curr == Some(NextCons(s)) && s'.noLog == 0 && s'.time == s.time + 1)
  {
    ReachableInv(s);
    NewDoes(s, fun, g);
  }

  /** Whether an operation of the program starts the solver. */
  lemma CallLeads(s: State, op: Op)
    requires Reachable(s) && s.pc == Idle && Enabled(s, op)
    ensures var s' := Apply(s, op);
            if ((op.Write? || op.New?) && s.atomic == 0 && s'.atomic == 1) || (op.CloseAt? && s.atomic == 1)
            then (if s'.time > MAX_TIME_STAMP then s'.pc == Halted else s'.pc == Loop || s'.pc == Body)
            else s'.pc == Idle
  {
    ReachableInv(s);
    match op
    case CloseAt => if s.atomic == 1 { EndAtFlushes(s); }
    case Write(a, v) => if s.atomic == 0 { WriteNowFlushes(s, a, v); }
    case _ =>
  }

  lemma ScanPosition(next: seq<DepLists.Ref>, list: seq<nat>, i: nat)
    requires i < |list| && DepLists.Chain(next, list)
    ensures list[i] in list && list[i..][0] == list[i] && list[i..][1..] == list[i + 1..]
        && DepLists.LinkOk(next, list, i)
    ensures list[0..] == list
  {}

  /** What picking a group leads to. */
  lemma RunTopGroup(s: State, item: Item, g: nat)
    requires item.obj == GroupObj(g) && g < |s.groups| && IsMin(s.top, item)
    ensures var t := PickGroup(s, item, g);
            && (t.groups[g].sched == multiset{} ==> RunTop(s, item, 0) == t.(pc := Stuck))
            && forall k: nat :: k in t.groups[g].sched && k < |t.cons| ==> RunTop(s, item, k) == RunInGroup(t, g, k)
  {
  }

  /** Constraint `k` is unscheduled, and what it read is as it was when it last finished. */
  ghost predicate InStep(s: State, k: nat)
    requires k < |s.cons|
  {
    && Unscheduled(s.cons[k].ts)
    && forall a: nat :: a in s.cons[k].seen ==> MemAt(s, a) == s.cons[k].seen[a]
  }

  lemma AllInStep(s: State)
    requires Reachable(s) && Returned(s)
    ensures forall k: nat :: Live(s, k) ==> InStep(s, k)
  {
    forall k: nat | Live(s, k) ensures InStep(s, k) { NoLostDependency(s, k); }
  }

  // ---- what reachable states promise the methods -------------------------------------------------

  predicate NodeInRange(s: State, n: nat) { n < |s.nodes| && s.nodes[n].cons < |s.cons| }

  ghost predicate AllInRange(s: State, l: seq<nat>) { forall n: nat :: n in l ==> NodeInRange(s, n) }

  ghost predicate GroupsInRange(s: State) {
    forall k: nat :: k < |s.cons| && s.cons[k].group.Some? ==> s.cons[k].group.value < |s.groups|
  }

  /** The links between cells, nodes, constraints and groups lead somewhere. */
  ghost predicate Linked(s: State) {
    && (forall a: nat, n: nat :: Listed(s, a, n) ==> NodeInRange(s, n))
    && (forall n: nat :: n in s.freeNodes ==> n < |s.nodes|)
    && GroupsInRange(s) && Partition(s)
  }

  /** The same lists. */
  lemma SamePartition(s: State, s': State)
    requires Partition(s) && s'.nodes == s.nodes && s'.freeNodes == s.freeNodes
        && forall a: nat :: ListAt(s', a) == ListAt(s, a)
    ensures Partition(s')
  {
    assert forall a: nat, n: nat :: Occ(s', a, n) == Occ(s, a, n);
    assert forall n: nat :: OccFree(s', n) == OccFree(s, n);
    assert forall a: nat, n: nat :: Listed(s', a, n) <==> Listed(s, a, n);
  }

  lemma LinkedStays(s: State, s': State)
    requires Linked(s) && s'.nodes == s.nodes && s'.freeNodes == s.freeNodes && s'.groups == s.groups
    requires |s'.cons| == |s.cons| && forall k: nat :: k < |s.cons| ==> s'.cons[k].group == s.cons[k].group
    requires forall a: nat :: ListAt(s', a) == ListAt(s, a)
    ensures Linked(s')
  {
    SamePartition(s, s');
    forall a: nat, n: nat | Listed(s', a, n) ensures NodeInRange(s', n) { assert Listed(s, a, n); }
  }

  ghost predicate MembersInRange(s: State, g: nat)
    requires g < |s.groups|
  {
    forall k: nat :: k in s.groups[g].sched ==> k < |s.cons|
  }

  predicate ObjInRange(s: State, obj: Obj) {
    match obj case ConsObj(k) => k < |s.cons| case GroupObj(g) => g < |s.groups|
  }

  /** The queues hold constraints and groups that exist. */
  ghost predicate Ranged(s: State) {
    && (forall k: nat :: k in s.initList ==> k < |s.cons|)
    && (forall g: nat :: g < |s.groups| ==> MembersInRange(s, g))
    && (forall item :: item in s.top ==> ObjInRange(s, item.obj))
    && (s.currGroup.Some? ==> s.currGroup.value < |s.groups|)
  }

  lemma StepKeeps(s: State, op: Op, counts: seq<nat>)
    requires Reachable(s) && CountsOk(s, counts) && !op.New? && !op.Del? && !op.NewGroup?
    ensures Reachable(Apply(s, op)) && CountsOk(Apply(s, op), counts)
  {
    StepReachable(s, op);
    StepCounts(s, op, counts);
  }

  lemma NewKeeps(s: State, fun: nat, g: Option<nat>, counts: seq<nat>)
    requires Reachable(s) && UserMode(s) && (g.Some? ==> g.value < |s.groups|) && CountsOk(s, counts)
    ensures Reachable(NewCons(s, fun, g)) && Apply(s, New(fun, g)) == NewCons(s, fun, g)
    ensures CountsOk(NewCons(s, fun, g), if g.Some? then counts[g.value := counts[g.value] + 1] else counts)
    ensures Linked(s) && (s.atomic == 0 ==> s.curr == None) && forall j: nat :: j in s.freeCons ==> j < |s.cons|
  {
    ReachableInv(s);
    StepReachable(s, New(fun, g));
    NewCounts(s, fun, g, NewCons(s, fun, g), counts);
    Facts(s);
  }

  lemma DelKeeps(s: State, k: nat, counts: seq<nat>)
    requires Reachable(s) && UserMode(s) && Live(s, k) && CountsOk(s, counts)
    ensures Reachable(DelCons(s, k)) && Apply(s, Del(k)) == DelCons(s, k)
    ensures var g := s.cons[k].group;
            && (g.Some? ==> g.value < |counts| && counts[g.value] > 0)
            && CountsOk(DelCons(s, k), if g.Some? then counts[g.value := counts[g.value] - 1] else counts)
  {
    ReachableInv(s);
    StepReachable(s, Del(k));
    DelCounts(s, k, DelCons(s, k), counts);
  }

  lemma NewGroupKeeps(s: State, counts: seq<nat>)
    requires Reachable(s) && UserMode(s) && CountsOk(s, counts)
    ensures Reachable(Apply(s, Op.NewGroup)) && CountsOk(Apply(s, Op.NewGroup), counts + [0])
  {
    ReachableInv(s);
    StepReachable(s, Op.NewGroup);
    NewGroupCounts(s, Apply(s, Op.NewGroup), counts);
  }

  lemma TurnKeeps(s: State, op: Op, s': State, counts: seq<nat>)
    requires Reachable(s) && CountsOk(s, counts) && s.pc == Loop && op.Turn? && s' == DispatchTurn(s, op.item, op.k)
    ensures s' == Apply(s, op) && Reachable(s') && CountsOk(s', counts)
  {
    StepKeeps(s, op, counts);
  }

  /** What user code and the end of a body rely on. */
  lemma Facts(s: State)
    requires Reachable(s) && UserMode(s)
    ensures Linked(s) && (s.pc == Body <==> s.curr.Some?) && (s.noLog == 0 ==> s.pc == Body)
    ensures s.pc == Body ==> s.atomic == 1
    ensures s.curr.Some? ==> s.curr.value < |s.cons|
    ensures forall a: nat :: a in s.wr || a in s.rd ==> a in s.cells
    ensures s.atomic == 0 ==> s.pc == Idle && forall a: nat :: CellAt(s, a).flag != WrittenMark
    ensures forall k: nat :: k in s.freeCons ==> k < |s.cons|
  {
    ReachableInv(s);
    LoggedHaveRecords(s);
    forall k: nat | k in s.freeCons ensures k < |s.cons| { assert Count(s.freeCons, k) == InFree(s, None, k); }
  }

  /** What the dispatch loop relies on. */
  lemma QueueFacts(s: State)
    requires Reachable(s) && s.pc == Loop
    ensures Ranged(s) && s.curr == None
  {
    ReachableInv(s);
    forall k: nat | k in s.initList ensures k < |s.cons| {
      assert Count(s.tempList, k) + Count(s.initList, k) == AmongNew(s, None, k);
    }
    forall g: nat, k: nat | g < |s.groups| && k in s.groups[g].sched ensures k < |s.cons| {
      assert s.groups[g].sched[k] == InSched(s, None, g, k);
    }
    forall item | item in s.top ensures ObjInRange(s, item.obj) {
      assert s.top[item] == AtTop(s, None, item);
    }
  }

  /** The constraints are the same objects, in the same groups. */
  ghost predicate SameMembers(s: State, s': State) {
    && |s'.cons| == |s.cons| && |s'.groups| == |s.groups|
    && forall k: nat :: k < |s.cons| ==> s'.cons[k].group == s.cons[k].group
  }

  lemma TriggerRanges(s: State, k: nat)
    requires GroupsInRange(s) && k < |s.cons|
    ensures var s' := DcState.Trigger(s, k);
            GroupsInRange(s') && |s'.cons| == |s.cons| && s'.nodes == s.nodes && s'.cells == s.cells
                && s'.freeNodes == s.freeNodes
  {
    var s1 := if Triggers(s, k) then QueueCons(s, k) else s;
    QueueConsRanges(s, k);
    if GroupOf(s, k).Some? { QueueGroupRanges(s1, GroupOf(s, k).value); }
  }

  lemma QueueConsRanges(s: State, k: nat)
    requires GroupsInRange(s) && k < |s.cons|
    ensures var s' := QueueCons(s, k);
            GroupsInRange(s') && |s'.cons| == |s.cons| && s'.nodes == s.nodes && s'.cells == s.cells
                && s'.freeNodes == s.freeNodes
  {
    assert SameMembers(s, QueueCons(s, k));
  }

  lemma QueueGroupRanges(s: State, g: nat)
    requires GroupsInRange(s)
    ensures var s' := QueueGroup(s, g);
            GroupsInRange(s') && |s'.cons| == |s.cons| && s'.nodes == s.nodes && s'.cells == s.cells
                && s'.freeNodes == s.freeNodes
  {
    assert SameMembers(s, QueueGroup(s, g));
  }

  lemma {:induction false} ScanLinked(s: State, l: seq<nat>)
    requires GroupsInRange(s) && forall n: nat :: n in l ==> NodeInRange(s, n)
    ensures var s' := Scan(s, l);
            GroupsInRange(s') && |s'.cons| == |s.cons| && s'.nodes == s.nodes && s'.cells == s.cells
                && s'.freeNodes == s.freeNodes
    decreases |l|
  {
    if l != [] {
      assert l[0] in l;
      var s1 := if UpToDate(s, l[0]) then DcState.Trigger(s, s.nodes[l[0]].cons) else s;
      TriggerRanges(s, s.nodes[l[0]].cons);
      forall n: nat | n in l[1..] ensures NodeInRange(s1, n) { assert n in l; }
      ScanLinked(s1, l[1..]);
    }
  }

  lemma CheckLinked(s: State, a: Addr)
    requires Linked(s)
    ensures Linked(Check(s, a))
  {
    var l := ListAt(s, a);
    forall n: nat | n in l ensures NodeInRange(s, n) { assert Listed(s, a, n); }
    var s1 := s.(cells := s.cells[a := CellAt(s, a).(val := MemAt(s, a))]);
    ScanLinked(s1, l);
    var s2 := Scan(s1, l);
    assert ListAt(s2, a) == l && forall b: nat :: ListAt(s2, b) == ListAt(s, b);
    SamePartition(s, s2);
    forall b: nat, n: nat | Listed(s2, b, n) ensures NodeInRange(s2, n) { assert Listed(s, b, n); }
    TruncatedLinked(s2, a);
  }

  lemma TruncatedLinked(s: State, a: Addr)
    requires Linked(s)
    ensures Linked(KeepFirst(s, a))
  {
    var l, s' := ListAt(s, a), KeepFirst(s, a);
    KeepFirstPartition(s, a);
    forall b: nat, n: nat | Listed(s', b, n) ensures NodeInRange(s', n) { assert Listed(s, b, n); }
    forall n: nat | n in s'.freeNodes ensures n < |s'.nodes| {
      if n !in s.freeNodes { assert n in l[1..] && Listed(s, a, n); }
    }
  }

  lemma {:induction false} ClearFlagsLists(s: State, l: seq<Addr>)
    ensures var s' := ClearFlags(s, l);
            && (forall b: nat :: ListAt(s', b) == ListAt(s, b)) && s' == s.(cells := s'.cells)
    decreases |l|
  {
    if l != [] { ClearFlagsLists(SetFlag(s, l[0], Untouched), l[1..]); }
  }

  /** The cells in the logs have records. */
  lemma LoggedHaveRecords(s: State)
    requires MemOk(s)
    ensures forall a: nat :: a in s.wr || a in s.rd ==> a in s.cells
  {
    forall a: nat | a in s.wr || a in s.rd ensures a in s.cells {
      assert CellAt(s, a).flag != Untouched;
    }
  }
}
