/** When dependency nodes go stale. The comment that clean-up keeps at most half of a list stale
    (dc2/src/dc_solver.c:135-140) is false: all nodes of a list of any length may be stale. This module gives
    the runs, says exactly when a node goes stale, and how much of a list can be stale after a clean-up. */
module DcStale {
  import opened DcState
  import opened DcInv
  import opened DcLog
  import opened DcFlush
  import opened DcSteps
  import opened DcTurn
  import opened DcTheorems
  import opened DcAmortised
  import opened DcLifecycle
  import opened DcSched

  // ---- one step --------------------------------------------------------------------------------

  /** `op` deletes `k`, or puts it in a scheduler. */
  predicate Disturbs(s: State, op: Op, k: nat) {
    (op == Del(k) && Enabled(s, op)) || (Resting(s, k) && Waiting(Apply(s, op), k))
  }

  predicate Waiting(s: State, k: nat) { k < |s.cons| && (s.cons[k].place == InGroup || s.cons[k].place.InTop?) }

  /** `k` has been queued, or only what it remembers has changed. */
  predicate QueuedOrKept(s: State, s': State, k: nat) {
    && k < |s.cons| && k < |s'.cons|
    && s'.cons[k] == s.cons[k].(ts := s'.cons[k].ts, place := s'.cons[k].place,
                                seen := s'.cons[k].seen, trace := s'.cons[k].trace)
    && if Waiting(s', k) then s'.cons[k].ts == SCHED_TIME_STAMP
       else s'.cons[k].ts == s.cons[k].ts && s'.cons[k].place == s.cons[k].place
  }

  lemma FlushedOrKept(s: State, s': State, l: seq<Addr>, k: nat)
    requires Flushes(s, s', l) && Resting(s, k)
    ensures QueuedOrKept(s, s', k)
  {
    assert s'.cons[k] == s.cons[k] || Enqueued(s, s', k);
  }

  lemma EndAtOrKept(s: State, k: nat)
    requires Good(s) && UserMode(s) && Resting(s, k)
    ensures QueuedOrKept(s, EndAt(s), k)
  {
    if s.curr == None && s.atomic == 1 {
      EndAtFlushes(s);
      var p := Prepared(s.(atomic := 0));
      FlushedOrKept(p, Flush(p, s.wr), s.wr, k);
    }
  }

  lemma LeaveOrKept(s: State, k: nat)
    requires Good(s) && s.pc == Body && Resting(s, k)
    ensures QueuedOrKept(s, Leave(s), k)
  {
    LeaveFlushes(s);
    PreparedRests(s, k);
    var p := Prepared(Finishing(s));
    var t := Flush(p, s.wr);
    FlushedOrKept(p, t, s.wr, k);
  }

  lemma PreparedRests(s: State, k: nat)
    requires Good(s) && s.pc == Body && Resting(s, k)
    ensures var p := Prepared(Finishing(s));
            Resting(p, k) && p.cons[k].ts == s.cons[k].ts && p.cons[k].group == s.cons[k].group
  {
    LeaveFlushes(s);
  }

  lemma WriteOrKept(s: State, a: Addr, v: Word, k: nat)
    requires Good(s) && UserMode(s) && Resting(s, k)
    ensures QueuedOrKept(s, WriteOp(s, a, v), k)
  {
    if s.atomic == 0 {
      WriteNowFlushes(s, a, v);
      FlushedOrKept(Stored(s, a, v), Check(Stored(s, a, v), a), [a], k);
    }
  }

  lemma NewConsKept(s: State, fun: nat, g: Option<nat>, k: nat)
    requires Good(s) && UserMode(s) && (g.Some? ==> g.value < |s.groups|) && Resting(s, k)
    ensures k < |NewCons(s, fun, g).cons| && NewCons(s, fun, g).cons[k] == s.cons[k]
  {
    NewConsOther(s, fun, g, k);
  }

  /** The constraint picked is not at rest, so a resting one keeps its record. */
  lemma PickKept(s: State, c: nat, k: nat)
    requires c < |s.cons| && Resting(s, k) && !Resting(s, c)
    ensures k < |ExecCons(s, c).cons| && ExecCons(s, c).cons[k] == s.cons[k]
  {}

  lemma MemberKept(s: State, g: nat, i: nat, k: nat)
    requires ConsOk(s, None) && g < |s.groups| && i in s.groups[g].sched && Resting(s, k)
    ensures i < |s.cons| && k < |RunInGroup(s, g, i).cons| && RunInGroup(s, g, i).cons[k] == s.cons[k]
  {
    assert s.groups[g].sched[i] == InSched(s, None, g, i);
    PickKept(s.(groups := s.groups[g := s.groups[g].(sched := s.groups[g].sched - multiset{i})]), i, k);
  }

  lemma NewKept(s: State, k: nat)
    requires Good(s) && s.pc == Loop && s.initList != [] && Resting(s, k)
    ensures s.initList[0] < |s.cons| && k < |RunNew(s).cons| && RunNew(s).cons[k] == s.cons[k]
  {
    var h := s.initList[0];
    assert s.initList == [h] + s.initList[1..];
    CountCons(h, s.initList[1..]);
    assert Count(s.tempList, h) + Count(s.initList, h) == AmongNew(s, None, h);
    PickKept(s.(initList := s.initList[1..]), h, k);
  }

  /** No turn of the dispatch loop picks a resting constraint. */
  lemma TurnKept(s: State, item: Item, i: nat, k: nat)
    requires Good(s) && s.pc == Loop && Resting(s, k)
    ensures k < |DispatchTurn(s, item, i).cons| && DispatchTurn(s, item, i).cons[k] == s.cons[k]
  {
    if s.initList != [] {
      NewKept(s, k);
    } else {
      match s.currGroup
      case None => RunTopKept(s, item, i, k);
      case Some(g) =>
        if s.groups[g].sched != multiset{} {
          if i in s.groups[g].sched { MemberKept(s, g, i, k); }
        } else {
          LeaveGroupGood(s, g);
          RunTopKept(LeaveGroup(s), item, i, k);
        }
    }
  }

  lemma RunTopKept(s: State, item: Item, i: nat, k: nat)
    requires Good(s) && s.pc == Loop && s.initList == [] && s.currGroup == None && Resting(s, k)
    ensures k < |RunTop(s, item, i).cons| && RunTop(s, item, i).cons[k] == s.cons[k]
  {
    assert s.top[item] == AtTop(s, None, item);
    if s.top != multiset{} && IsMin(s.top, item) {
      match item.obj
      case ConsObj(c) => PickKept(s.(top := s.top - multiset{item}), c, k);
      case GroupObj(g) =>
        PickGroupGood(s, item);
        if i in s.groups[g].sched { MemberKept(PickGroup(s, item, g), g, i, k); }
    }
  }

  lemma StepOrKept(s: State, op: Op, k: nat)
    requires Good(s) && Enabled(s, op) && Resting(s, k) && op != Del(k)
    ensures QueuedOrKept(s, Apply(s, op), k)
  {
    match op
    case Read(a) => ReadStamps(s, a);
    case Write(a, v) => WriteOrKept(s, a, v, k);
    case New(fun, g) => NewConsKept(s, fun, g, k);
    case CloseAt => EndAtOrKept(s, k);
    case EndBody => LeaveOrKept(s, k);
    case Turn(item, i) => TurnKept(s, item, i, k);
    case _ =>
  }

  /** The stamp of a resting constraint changes in exactly the steps that queue or delete it. */
  lemma StampMoves(s: State, op: Op, k: nat, s': State)
    requires Good(s) && Enabled(s, op) && Resting(s, k) && s' == Apply(s, op)
    ensures TsOf(s', k) == s.cons[k].ts <==> !Disturbs(s, op, k)
    ensures !Disturbs(s, op, k) ==> Resting(s', k)
  {
    if op != Del(k) { StepOrKept(s, op, k); }
  }

  // ---- where up-to-date nodes are --------------------------------------------------------------

  /** Node `n` is in the list of `a`, with the up-to-date record `d`. */
  predicate Holds(s: State, a: Addr, n: nat, d: Dep) {
    Listed(s, a, n) && n < |s.nodes| && s.nodes[n] == d && UpToDate(s, n)
  }

  /** Nodes keep their records, and lists lose nodes only. */
  ghost predicate Thins(s: State, s': State) {
    s'.nodes == s.nodes && forall a: nat, n: nat :: Listed(s', a, n) ==> Listed(s, a, n)
  }

  lemma CheckThins(s: State, a: Addr)
    ensures Thins(s, Check(s, a))
  {
    if CellAt(s, a).val != MemAt(s, a) {
      var s1 := s.(cells := s.cells[a := CellAt(s, a).(val := MemAt(s, a))]);
      var l := ListAt(s1, a);
      ScanThins(s1, l);
      forall b: nat, n: nat | Listed(Check(s, a), b, n) ensures Listed(s, b, n) {
        if b == a && l != [] { assert n in l[..1]; }
      }
    }
  }

  lemma {:induction false} ScanThins(s: State, l: seq<nat>)
    ensures Scan(s, l).cells == s.cells && Scan(s, l).nodes == s.nodes
    decreases |l|
  {
    if l != [] { ScanThins(if UpToDate(s, l[0]) then Trigger(s, s.nodes[l[0]].cons) else s, l[1..]); }
  }

  lemma {:induction false} FlushThins(s: State, l: seq<Addr>)
    ensures Thins(s, Flush(s, l))
    decreases |l|
  {
    if l != [] {
      var s1 := SetFlag(s, l[0], Untouched);
      assert forall a: nat, n: nat :: Listed(s1, a, n) ==> Listed(s, a, n);
      CheckThins(s1, l[0]);
      FlushThins(Check(s1, l[0]), l[1..]);
    }
  }

  lemma FinalizeThins(s: State)
    ensures Thins(s, Finalize(s))
  {
    PreparedShape(s);
    FlushThins(Prepared(s), s.wr);
    var f := Flush(Prepared(s), s.wr);
    forall a: nat, n: nat | Listed(Finalize(s), a, n) ensures Listed(s, a, n) {
      assert Listed(f, a, n) && Listed(Prepared(s), a, n);
    }
  }

  lemma WriteThins(s: State, a: Addr, v: Word)
    ensures Thins(s, WriteOp(s, a, v))
  {
    var s1 := s.(mem := s.mem[a := v], trace := if s.pc == Body then s.trace + [Wr(a, v)] else s.trace);
    var s2 := s1.(cells := s1.cells[a := CellAt(s1, a)]);
    CheckThins(s2, a);
    assert Thins(s, s2);
  }

  /** If the constraint still depends on the cell, the node is still there. */
  lemma StillHeld(s: State, s': State, a: Addr, n: nat, d: Dep)
    requires NodesOk(s) && Unique(s) && Thins(s, s') && Holds(s, a, n, d) && TsOf(s', d.cons) == TsOf(s, d.cons)
    requires HasFresh(s', a, d.cons)
    ensures Holds(s', a, n, d)
  {
    var m: nat :| Listed(s', a, m) && FreshFor(s', m, d.cons);
    assert Listed(s, a, m) && UpToDate(s, m);
  }

  lemma HeldFresh(s: State, a: Addr, n: nat, d: Dep)
    requires Good(s) && Holds(s, a, n, d)
    ensures Resting(s, d.cons) && HasFresh(s, a, d.cons) && d.ts <= s.time && s.cons[d.cons].ts <= d.ts
  {
    assert FreshFor(s, n, d.cons);
  }

  /** From `s` to `s'`, with no constraint running afterwards, cells were checked, and `k` was not queued. */
  ghost predicate Lets(s: State, s': State, k: nat) {
    && Good(s') && Thins(s, s') && s'.curr == None
    && Resting(s, k) && Resting(s', k) && s'.cons[k].ts == s.cons[k].ts
    && (if s.curr == Some(k) then s'.cons[k].seen.Keys == Cells(s.rd) else s'.cons[k].seen == s.cons[k].seen)
  }

  lemma LetsHold(s: State, s': State, a: Addr, n: nat, d: Dep)
    requires Good(s) && Lets(s, s', d.cons) && Holds(s, a, n, d)
    ensures Holds(s', a, n, d)
  {
    HeldFresh(s, a, n, d);
    assert DepFor(s', d.cons);
    if s.curr != Some(d.cons) { assert DepFor(s, d.cons); } else { assert a in Cells(s.rd); }
    StillHeld(s, s', a, n, d);
  }

  lemma ReadHolds(s: State, b: Addr, a: Addr, n: nat, d: Dep)
    requires Good(s) && UserMode(s) && Holds(s, a, n, d)
    ensures Holds(ReadOp(s, b), a, n, d)
  {
    if s.noLog == 0 && CellAt(s, b).flag == Untouched {
      var s0 := s.(rd := s.rd + [b], cells := s.cells[b := CellAt(s, b)]);
      SameStoreKeeps(s, s0);
      var e := Dep(s.time, if s.curr.Some? then s.curr.value else 0);
      LogDepLogs(s0, b, e);
      var s1 := LogDep(s0, b, e);
      assert Listed(s0, a, n) && UpToDate(s0, n);
      assert Listed(s1, a, n) && s1.nodes[n] == d;
      SetFlagKeeps(s1, b, ReadMark);
      assert Listed(ReadHandler(s, b), a, n);
    }
  }

  lemma WriteHolds(s: State, b: Addr, v: Word, s': State, a: Addr, n: nat, d: Dep)
    requires Good(s) && UserMode(s) && Holds(s, a, n, d) && s' == WriteOp(s, b, v) && !Waiting(s', d.cons)
    ensures Holds(s', a, n, d)
  {
    HeldFresh(s, a, n, d);
    if s.atomic != 0 {
      assert ListAt(s', a) == ListAt(s, a);
    } else {
      WriteLets(s, b, v, d.cons, s');
      LetsHold(s, s', a, n, d);
    }
  }

  lemma WriteLets(s: State, b: Addr, v: Word, k: nat, s': State)
    requires Good(s) && s.pc == Idle && s.atomic == 0 && Resting(s, k) && s' == WriteOp(s, b, v) && !Waiting(s', k)
    ensures Lets(s, s', k)
  {
    WriteThins(s, b, v);
    WriteOrKept(s, b, v, k);
    WriteOpInv(s, b, v);
    WriteNowFlushes(s, b, v);
    assert s'.cons[k] == s.cons[k] || Enqueued(Stored(s, b, v), Check(Stored(s, b, v), b), k);
  }

  lemma EndAtHolds(s: State, s': State, a: Addr, n: nat, d: Dep)
    requires Good(s) && UserMode(s) && Holds(s, a, n, d) && s' == EndAt(s) && !Waiting(s', d.cons)
    ensures Holds(s', a, n, d)
  {
    HeldFresh(s, a, n, d);
    if s.curr == None && s.atomic == 1 {
      EndAtLets(s, d.cons, s');
      LetsHold(s, s', a, n, d);
    }
  }

  lemma EndAtLets(s: State, k: nat, s': State)
    requires Good(s) && s.pc == Idle && s.atomic == 1 && Resting(s, k) && s' == EndAt(s) && !Waiting(s', k)
    ensures Lets(s, s', k)
  {
    FinalizeThins(s.(atomic := 0));
    ThinsAlike(s, s.(atomic := 0), Finalize(s.(atomic := 0)), s');
    EndAtInv(s);
    EndAtSeen(s, k, s');
  }

  lemma EndAtSeen(s: State, k: nat, s': State)
    requires Good(s) && s.pc == Idle && s.atomic == 1 && Resting(s, k) && s' == EndAt(s) && !Waiting(s', k)
    ensures k < |s'.cons| && s'.cons[k] == s.cons[k] && s'.curr == None && s'.pc == Loop
  {
    EndAtFlushes(s);
    var p := Prepared(s.(atomic := 0));
    assert s'.cons[k] == s.cons[k] || Enqueued(p, Flush(p, s.wr), k);
  }

  lemma LeaveHolds(s: State, s': State, a: Addr, n: nat, d: Dep)
    requires Good(s) && s.pc == Body && Holds(s, a, n, d) && s' == Leave(s) && !Waiting(s', d.cons)
    ensures Holds(s', a, n, d)
  {
    HeldFresh(s, a, n, d);
    LeaveLets(s, d.cons, s');
    LetsHold(s, s', a, n, d);
  }

  lemma LeaveLets(s: State, k: nat, s': State)
    requires Good(s) && s.pc == Body && Resting(s, k) && s' == Leave(s) && !Waiting(s', k)
    ensures Lets(s, s', k)
  {
    LeaveThins(s, s');
    LeaveInv(s);
    LeaveSeen(s, k, s');
    RememberedSeen(s, k);
  }

  lemma RememberedSeen(s: State, k: nat)
    requires Resting(s, k)
    ensures k < |Remember(s).cons| && Remember(s).cons[k] ==
        s.cons[k].(seen := Remember(s).cons[k].seen, trace := Remember(s).cons[k].trace)
    ensures if s.curr == Some(k) then Remember(s).cons[k].seen.Keys == Cells(s.rd)
        else Remember(s).cons[k].seen == s.cons[k].seen
  {}

  lemma LeaveThins(s: State, s': State)
    requires s' == Leave(s)
    ensures Thins(s, s')
  {
    FinalizeThins(Finishing(s));
    ThinsAlike(s, Finishing(s), Finalize(Finishing(s)), s');
  }

  lemma ThinsAlike(s: State, t: State, t': State, s': State)
    requires Thins(t, t') && t.nodes == s.nodes && t.cells == s.cells && s'.nodes == t'.nodes && s'.cells == t'.cells
    ensures Thins(s, s')
  {
    forall a: nat, n: nat | Listed(s', a, n) ensures Listed(s, a, n) { assert Listed(t', a, n) && Listed(t, a, n); }
  }

  lemma LeaveSeen(s: State, k: nat, s': State)
    requires Good(s) && s.pc == Body && Resting(s, k) && s' == Leave(s) && !Waiting(s', k)
    ensures k < |s'.cons| && s'.cons[k] == Remember(s).cons[k] && s'.curr == None && s'.pc == Loop
  {
    LeaveFlushes(s);
    var p := Prepared(Finishing(s));
    assert Flush(p, s.wr).cons[k] == p.cons[k] || Enqueued(p, Flush(p, s.wr), k);
  }

  lemma StepHolds(s: State, op: Op, s': State, a: Addr, n: nat, d: Dep)
    requires Good(s) && Enabled(s, op) && Holds(s, a, n, d) && s' == Apply(s, op) && !Disturbs(s, op, d.cons)
    ensures Holds(s', a, n, d)
  {
    HeldFresh(s, a, n, d);
    assert !Waiting(s', d.cons);
    match op
    case Read(b) => ReadHolds(s, b, a, n, d);
    case Write(b, v) => WriteHolds(s, b, v, s', a, n, d);
    case CloseAt => EndAtHolds(s, s', a, n, d);
    case EndBody => LeaveHolds(s, s', a, n, d);
    case _ => OtherHolds(s, op, s', a, n, d);
  }

  lemma OtherHolds(s: State, op: Op, s': State, a: Addr, n: nat, d: Dep)
    requires Good(s) && Enabled(s, op) && Holds(s, a, n, d) && s' == Apply(s, op) && !Disturbs(s, op, d.cons)
    requires !op.Read? && !op.Write? && !op.CloseAt? && !op.EndBody?
    ensures Holds(s', a, n, d)
  {
    HeldFresh(s, a, n, d);
    StampMoves(s, op, d.cons, s');
    StepNodes(s, op);
    SameNodesHold(s, s', a, n, d);
  }

  lemma SameNodesHold(s: State, s': State, a: Addr, n: nat, d: Dep)
    requires Holds(s, a, n, d) && s'.cells == s.cells && s'.nodes == s.nodes && TsOf(s', d.cons) == TsOf(s, d.cons)
    ensures Holds(s', a, n, d)
  {}

  /** All other steps leave nodes and lists alone. */
  lemma StepNodes(s: State, op: Op)
    requires !op.Read? && !op.Write? && !op.CloseAt? && !op.EndBody?
    ensures Apply(s, op).cells == s.cells && Apply(s, op).nodes == s.nodes
  {
    match op
    case New(fun, g) => NewConsCells(s, fun, g); NewConsNodes(s, fun, g);
    case Turn(item, i) => TurnCells(s, item, i); TurnNodes(s, item, i);
    case _ =>
  }

  lemma NewConsNodes(s: State, fun: nat, g: Option<nat>)
    ensures NewCons(s, fun, g).nodes == s.nodes
  {}

  lemma RunTopNodes(s: State, item: Item, i: nat)
    ensures RunTop(s, item, i).nodes == s.nodes
  {}

  lemma TurnNodes(s: State, item: Item, i: nat)
    ensures DispatchTurn(s, item, i).nodes == s.nodes
  {
    if s.initList == [] {
      match s.currGroup
      case None => RunTopNodes(s, item, i);
      case Some(g) =>
        if g < |s.groups| && s.groups[g].sched != multiset{} {
          if i < |s.cons| { assert RunInGroup(s, g, i).nodes == s.nodes; }
        } else {
          assert LeaveGroup(s).nodes == s.nodes;
          RunTopNodes(LeaveGroup(s), item, i);
        }
    }
  }

  // ---- runs ------------------------------------------------------------------------------------

  /** No step of the run queues or deletes `k`. */
  predicate Undisturbed(s: State, ops: seq<Op>, k: nat)
    decreases |ops|
  {
    ops == [] || (!Disturbs(s, ops[0], k) && Undisturbed(Apply(s, ops[0]), ops[1..], k))
  }

  /** An up-to-date node stays in its list, and up to date, exactly as long as its constraint is neither queued nor
      deleted; afterwards no node with its record is ever up to date. */
  lemma {:induction false} StaleExactly(s: State, ops: seq<Op>, a: Addr, n: nat, d: Dep)
    requires Good(s) && Holds(s, a, n, d)
    ensures Holds(Run(s, ops), a, n, d) <==> Undisturbed(s, ops, d.cons)
    ensures Stale(Run(s, ops), d.ts, d.cons) <==> !Undisturbed(s, ops, d.cons)
    decreases |ops|
  {
    HeldFresh(s, a, n, d);
    if ops != [] {
      if Enabled(s, ops[0]) {
        var s' := Apply(s, ops[0]);
        StampMoves(s, ops[0], d.cons, s');
        ApplyInv(s, ops[0]);
        ApplyStamps(s, ops[0]);
        if Disturbs(s, ops[0], d.cons) {
          StaleForever(s', ops[1..], d.ts, d.cons);
        } else {
          StepHolds(s, ops[0], s', a, n, d);
          if s'.pc == Stuck || s'.pc == Halted {
            StoppedRun(s', ops[1..], d.cons);
          } else {
            StaleExactly(s', ops[1..], a, n, d);
          }
        }
      } else {
        StaleExactly(s, ops[1..], a, n, d);
      }
    }
  }

  lemma {:induction false} StoppedRun(s: State, ops: seq<Op>, k: nat)
    requires s.pc == Stuck || s.pc == Halted
    ensures Run(s, ops) == s && (Resting(s, k) ==> Undisturbed(s, ops, k))
    decreases |ops|
  {
    if ops != [] { StoppedRun(s, ops[1..], k); }
  }

  // ---- how much of a list is stale --------------------------------------------------------------

  function Stales(s: State, l: seq<nat>): nat {
    if l == [] then 0 else (if UpToDate(s, l[0]) then 0 else 1) + Stales(s, l[1..])
  }

  /** The nodes of `l` whose constraints the run queues or deletes. */
  function Hit(s: State, ops: seq<Op>, l: seq<nat>): nat {
    if l == [] then 0
    else (if l[0] < |s.nodes| && Undisturbed(s, ops, s.nodes[l[0]].cons) then 0 else 1) + Hit(s, ops, l[1..])
  }

  /** `l` are up-to-date nodes of the list of `a`, which have kept their records in `s'`. */
  predicate Survivors(s: State, s': State, a: Addr, l: seq<nat>) {
    forall n: nat :: n in l ==>
        n < |s.nodes| && Holds(s, a, n, s.nodes[n]) && n < |s'.nodes| && s'.nodes[n] == s.nodes[n]
  }

  /** Of nodes that were up to date, exactly those are stale whose constraints have been queued or deleted. */
  lemma {:induction false} StalesAreHit(s: State, ops: seq<Op>, a: Addr, l: seq<nat>)
    requires Good(s) && Survivors(s, Run(s, ops), a, l)
    ensures Stales(Run(s, ops), l) == Hit(s, ops, l)
  {
    if l != [] {
      assert l[0] in l;
      StaleExactly(s, ops, a, l[0], s.nodes[l[0]]);
      forall n: nat | n in l[1..] ensures n in l {}
      StalesAreHit(s, ops, a, l[1..]);
    }
  }

  lemma {:induction false} StalesSplit(s: State, l: seq<nat>, m: seq<nat>)
    ensures Stales(s, l + m) == Stales(s, l) + Stales(s, m) && Stales(s, l) <= |l|
  {
    if l == [] {
      assert l + m == m;
    } else {
      assert (l + m)[1..] == l[1..] + m;
      StalesSplit(s, l[1..], m);
    }
  }

  /** A clean-up leaves only up-to-date nodes behind the new one, and counts them. */
  lemma CleanupLeavesFresh(s: State, a: Addr)
    requires Good(s) && s.pc == Body && s.noLog == 0 && CellAt(s, a).flag == Untouched
    requires CellAt(s, a).countdown == 0 && (ListAt(s, a) == [] || UpToDate(s, ListAt(s, a)[0]))
    ensures var s' := ReadOp(s, a);
            CleanedUp(s', a) && CellAt(s', a).visits == CellAt(s, a).visits + |ListAt(s, a)|
  {
    var s' := ReadOp(s, a);
    ReadCounts(s, a);
    var l' := ListAt(s', a);
    forall n: nat | n in l'[1..] ensures UpToDate(s', n) {
      assert n in ListAt(s, a) && UpToDate(s, n) && Listed(s, a, n);
      ReadHolds(s, a, a, n, s.nodes[n]);
    }
  }

  /** The list of `a` has as many nodes behind the first one as its last clean-up has counted, all up to date. */
  predicate CleanedUp(s: State, a: Addr) {
    var l := ListAt(s, a);
    l != [] && |l| == CellAt(s, a).base + 1 && forall n: nat :: n in l[1..] ==> UpToDate(s, n)
  }

  /** After a clean-up, with no other one since: as long as the constraints of the nodes that survived it are neither
      queued nor deleted, at most half of the list, rounded up, is stale; each of them that is queued or deleted
      adds one stale node to that. */
  lemma HalfStale(s: State, ops: seq<Op>, s': State, a: Addr, added: seq<nat>)
    requires Reachable(s) && s.pc != Stuck && s.pc != Halted && CleanedUp(s, a) && s' == Run(s, ops)
    requires ListAt(s', a) == added + ListAt(s, a) && CellAt(s', a).base == CellAt(s, a).base
    requires forall n: nat :: n in ListAt(s, a)[1..] ==> n < |s.nodes| && n < |s'.nodes| && s'.nodes[n] == s.nodes[n]
    ensures var hit, stale := Hit(s, ops, ListAt(s, a)[1..]), Stales(s', ListAt(s', a));
            hit <= stale && 2 * stale <= |ListAt(s', a)| + 1 + 2 * hit
  {
    var l, l' := ListAt(s, a), ListAt(s', a);
    ReachableInv(s);
    SurvivorsAre(s, s', a, l);
    StalesAreHit(s, ops, a, l[1..]);
    RunReachable(s, ops);
    AmortisedCleanup(s', a);
    HalfBound(s', added, l, Hit(s, ops, l[1..]));
  }

  lemma SurvivorsAre(s: State, s': State, a: Addr, l: seq<nat>)
    requires CleanedUp(s, a) && l == ListAt(s, a)
    requires forall n: nat :: n in l[1..] ==> n < |s.nodes| && n < |s'.nodes| && s'.nodes[n] == s.nodes[n]
    ensures Survivors(s, s', a, l[1..])
  {
    forall n: nat | n in l[1..] ensures Listed(s, a, n) {}
  }

  lemma HalfBound(s: State, added: seq<nat>, l: seq<nat>, hit: nat)
    requires l != [] && hit == Stales(s, l[1..]) && |added| + |l| <= 2 * (|l| - 1) + 1
    ensures var stale := Stales(s, added + l); hit <= stale && 2 * stale <= |added + l| + 1 + 2 * hit
  {
    assert added + l == (added + [l[0]]) + l[1..];
    StalesSplit(s, added + [l[0]], l[1..]);
  }

  /** Exactly when at most half of a list is stale, if all of it was up to date at first and nothing was logged
      since. */
  lemma HalfStaleExactly(s: State, ops: seq<Op>, a: Addr)
    requires Reachable(s) && s.pc != Stuck && s.pc != Halted && Survivors(s, Run(s, ops), a, ListAt(s, a))
    requires ListAt(Run(s, ops), a) == ListAt(s, a)
    ensures var l := ListAt(Run(s, ops), a);
            2 * Stales(Run(s, ops), l) <= |l| <==> 2 * Hit(s, ops, l) <= |l|
  {
    ReachableInv(s);
    StalesAreHit(s, ops, a, ListAt(s, a));
  }

  // ---- lists that are all stale ------------------------------------------------------------------

  predicate AllAtRest(s: State) { forall k: nat :: k < |s.cons| ==> s.cons[k].place == AtRest }

  /** `m` live constraints, created and run one after the other, depend on cell 5. */
  ghost predicate Readers(s: State, m: nat) {
    && Reachable(s) && Good(s) && Returned(s) && s.time == m == |s.cons| && s.freeCons == [] && |ListAt(s, 5)| == m
    && (forall n: nat :: n in ListAt(s, 5) ==> UpToDate(s, n))
    && AllAtRest(s)
  }

  lemma OneMoreReader(s: State, m: nat) returns (s': State)
    requires Readers(s, m) && m < MAX_TIME_STAMP
    ensures Readers(s', m + 1)
  {
    var s1 := Apply(s, New(7, None));
    StepReachable(s, New(7, None));
    ReaderStarts(s, m, s1);
    var s2 := Apply(s1, Read(5));
    StepReachable(s1, Read(5));
    ReaderReads(s1, m, s2);
    var s3 := Apply(s2, EndBody);
    StepReachable(s2, EndBody);
    ReaderEnds(s2, m + 1, s3);
    s' := Apply(s3, Turn(Item(0, ConsObj(0)), 0));
    StepReachable(s3, Turn(Item(0, ConsObj(0)), 0));
    ReaderDone(s3, m + 1, s');
  }

  /** A constraint has been created and its body entered. */
  lemma ReaderStarts(s: State, m: nat, s1: State)
    requires Readers(s, m) && m < MAX_TIME_STAMP && s1 == Apply(s, New(7, None)) && Reachable(s1)
    ensures Reading(s1, m, m + 1) && s1.noLog == 0 && s1.curr == Some(m) && s1.cons[m].ts == m + 1
    ensures CellAt(s1, 5).flag == Untouched
  {
    assert s.top == multiset{} && s.wr == [] && s.tempList == [] && s.initList == [];
    NewReader(s, m);
    ReachableInv(s1);
    assert CellAt(s1, 5) == CellAt(s, 5) && CellAt(s, 5).flag == Untouched;
    forall n: nat | n in ListAt(s1, 5) ensures UpToDate(s1, n) { assert Listed(s, 5, n) && UpToDate(s, n); }
  }

  lemma NewReader(s: State, m: nat)
    requires s.pc == Idle && s.atomic == 0 && s.freeCons == [] && |s.cons| == m == s.time && m < MAX_TIME_STAMP
    ensures NewCons(s, 7, None)
         == s.(time := m + 1, atomic := 1, noLog := 0, pc := Body, curr := Some(m), currGroup := None, trace := [],
               cons := s.cons + [Cons(7, m + 1, None, AtRest, map[], [])])
  {
    var c := Cons(7, SCHED_TIME_STAMP, None, InNew, map[], []);
    assert (s.cons + [c])[m := c.(ts := m + 1, place := AtRest)] == s.cons + [c.(ts := m + 1, place := AtRest)];
  }

  /** Within a body of the example, when `m` nodes have been logged. */
  ghost predicate Reading(s: State, m: nat, t: nat) {
    && Good(s) && s.pc == Body && s.wr == [] && s.tempList == [] && s.initList == [] && s.top == multiset{}
        && s.currGroup == None
    && s.time == t == |s.cons| && s.freeCons == [] && |ListAt(s, 5)| == m
    && (forall n: nat :: n in ListAt(s, 5) ==> UpToDate(s, n))
    && AllAtRest(s)
  }

  lemma ReaderReads(s1: State, m: nat, s2: State)
    requires Reading(s1, m, m + 1) && s1.noLog == 0 && s1.curr == Some(m) && s1.cons[m].ts == m + 1
    requires CellAt(s1, 5).flag == Untouched && s2 == Apply(s1, Read(5))
    ensures Reading(s2, m + 1, m + 1)
  {
    ReadOpInv(s1, 5);
    ReaderLogs(s1, m, s2);
    ReadRest(s1, 5);
  }

  lemma ReadRest(s: State, a: Addr)
    ensures var s' := ReadOp(s, a);
            s' == s.(nodes := s'.nodes, freeNodes := s'.freeNodes, cells := s'.cells, rd := s'.rd, trace := s'.trace)
  {
    var s0 := s.(rd := s.rd + [a], cells := s.cells[a := CellAt(s, a)]);
    var d := Dep(s.time, if s.curr.Some? then s.curr.value else 0);
    LogDepRest(s0, a, d);
    var s1 := LogDep(s0, a, d);
    assert ReadHandler(s, a) == SetFlag(s1, a, ReadMark);
  }

  lemma LogDepRest(s: State, a: Addr, d: Dep)
    ensures var s' := LogDep(s, a, d); s' == s.(nodes := s'.nodes, freeNodes := s'.freeNodes, cells := s'.cells)
  {
    var s' := AddNode(s, a, d);
    assert s' == s.(nodes := s'.nodes, freeNodes := s'.freeNodes, cells := s'.cells);
  }

  lemma {:induction false} KeepAll(s: State, l: seq<nat>)
    requires forall n: nat :: n in l ==> UpToDate(s, n)
    ensures Keep(s, l) == l
  {
    if l != [] {
      forall n: nat | n in l[1..] ensures UpToDate(s, n) { assert n in l; }
      assert l[0] in l;
      KeepAll(s, l[1..]);
    }
  }

  /** The new node is put in front of the others, all of which stay. */
  lemma ReaderNode(s: State, m: nat, s': State)
    requires Good(s) && s.pc == Body && s.noLog == 0 && CellAt(s, 5).flag == Untouched && s' == ReadOp(s, 5)
    requires s.curr == Some(m) && m < |s.cons| && s.cons[m].ts == s.time
    requires forall n: nat :: n in ListAt(s, 5) ==> UpToDate(s, n)
    ensures ListAt(s', 5) != [] && ListAt(s', 5)[1..] == ListAt(s, 5) && UpToDate(s', ListAt(s', 5)[0])
  {
    var l := ListAt(s, 5);
    var s0 := s.(rd := s.rd + [5], cells := s.cells[5 := CellAt(s, 5)]);
    SameStoreKeeps(s, s0);
    forall n: nat | n in l ensures UpToDate(s0, n) { assert UpToDate(s, n); }
    assert l != [] ==> l[0] in l;
    KeepAll(s0, l);
    var s1 := LogDep(s0, 5, Dep(s.time, m));
    assert s1 == AddNode(s0, 5, Dep(s.time, m));
    LogDepLogs(s0, 5, Dep(s.time, m));
    SetFlagKeeps(s1, 5, ReadMark);
  }

  lemma ReaderLogs(s: State, m: nat, s': State)
    requires Good(s) && s.pc == Body && s.noLog == 0 && CellAt(s, 5).flag == Untouched && |ListAt(s, 5)| == m
    requires s' == ReadOp(s, 5) && s.curr == Some(m) && m < |s.cons| && s.cons[m].ts == s.time
    requires forall n: nat :: n in ListAt(s, 5) ==> UpToDate(s, n)
    ensures |ListAt(s', 5)| == m + 1 && forall n: nat :: n in ListAt(s', 5) ==> UpToDate(s', n)
  {
    var l, l' := ListAt(s, 5), ListAt(s', 5);
    ReaderNode(s, m, s');
    forall n: nat | n in l' ensures UpToDate(s', n) {
      if n != l'[0] {
        assert n in l'[1..] && Listed(s, 5, n);
        ReadHolds(s, 5, 5, n, s.nodes[n]);
      }
    }
  }

  /** Without writes the end of the body changes no list and no stamp. */
  lemma ReaderEnds(s: State, m: nat, s3: State)
    requires Reading(s, m, m) && s3 == Apply(s, EndBody)
    ensures HasRead(s3, m)
  {
    RememberStamps(s);
    QuietEnd(s, s3);
    forall n: nat | n in ListAt(s3, 5) ensures UpToDate(s3, n) { assert n in ListAt(s, 5) && UpToDate(s, n); }
  }

  predicate HasRead(s: State, m: nat) {
    && s.pc == Loop && s.initList == [] && s.top == multiset{} && s.currGroup == None
    && s.time == m == |s.cons| && s.freeCons == [] && |ListAt(s, 5)| == m
    && (forall n: nat :: n in ListAt(s, 5) ==> UpToDate(s, n))
    && AllAtRest(s)
  }

  lemma RememberStamps(s: State)
    ensures |Remember(s).cons| == |s.cons| && Remember(s) == s.(cons := Remember(s).cons)
    ensures (forall k: nat :: TsOf(Remember(s), k) == TsOf(s, k)) && (AllAtRest(s) ==> AllAtRest(Remember(s)))
  {}

  lemma QuietEnd(s: State, s3: State)
    requires s.wr == [] && s.tempList == [] && s.initList == [] && s3 == Leave(s)
    ensures s3.pc == Loop && s3.cons == Remember(s).cons && s3.initList == [] && s3.nodes == s.nodes
    ensures s3.top == s.top && s3.currGroup == s.currGroup && s3.time == s.time && s3.freeCons == s.freeCons
    ensures forall a: nat :: ListAt(s3, a) == ListAt(s, a)
  {
    var f := Finishing(s);
    PreparedShape(f);
    assert Finalize(f) == Prepared(f).(wr := []);
    assert forall a: nat :: ListAt(f, a) == ListAt(s, a);
    assert forall a: nat :: ListAt(s3, a) == ListAt(Prepared(f), a);
  }

  lemma ReaderDone(s3: State, m: nat, s': State)
    requires HasRead(s3, m) && s' == Apply(s3, Turn(Item(0, ConsObj(0)), 0)) && Reachable(s')
    ensures Readers(s', m)
  {
    assert s' == s3.(atomic := 0, pc := Idle);
    ReachableInv(s');
    forall n: nat | n in ListAt(s', 5) ensures UpToDate(s', n) { assert n in ListAt(s3, 5) && UpToDate(s3, n); }
  }

  lemma {:induction false} ManyReaders(m: nat) returns (s: State)
    requires m <= MAX_TIME_STAMP
    ensures Readers(s, m)
  {
    if m == 0 {
      s := Init();
      InitInv();
      assert Run(Init(), []) == s;
    } else {
      var s0 := ManyReaders(m - 1);
      s := OneMoreReader(s0, m - 1);
    }
  }

  /** The first `j` of the readers have been deleted. */
  ghost predicate Gone(s: State, m: nat, j: nat) {
    && Reachable(s) && Good(s) && Returned(s) && |s.cons| == m && |ListAt(s, 5)| == m
    && (forall k: nat :: k < m ==> if k < j then s.cons[k].ts == DEL_TIME_STAMP else Resting(s, k))
  }

  lemma {:induction false} DeleteReaders(s: State, m: nat, j: nat) returns (s': State)
    requires Gone(s, m, 0) && j <= m
    ensures Gone(s', m, j)
  {
    if j == 0 {
      s' := s;
    } else {
      var s0 := DeleteReaders(s, m, j - 1);
      s' := Apply(s0, Del(j - 1));
      StepReachable(s0, Del(j - 1));
      ReachableInv(s');
    }
  }

  /** For every length there is a run after which the solver has returned and a list of that length is all stale. */
  lemma AllStale(m: nat) returns (s: State)
    requires m <= MAX_TIME_STAMP
    ensures Reachable(s) && Returned(s) && |ListAt(s, 5)| == m && Stales(s, ListAt(s, 5)) == m
  {
    var s0 := ManyReaders(m);
    s := DeleteReaders(s0, m, m);
    forall n: nat | n in ListAt(s, 5) ensures !UpToDate(s, n) { assert Listed(s, 5, n); }
    NoneFreshStales(s, ListAt(s, 5));
  }

  lemma {:induction false} NoneFreshStales(s: State, l: seq<nat>)
    requires forall n: nat :: n in l ==> !UpToDate(s, n)
    ensures Stales(s, l) == |l|
  {
    if l != [] {
      assert l[0] in l;
      forall n: nat | n in l[1..] ensures !UpToDate(s, n) { assert n in l; }
      NoneFreshStales(s, l[1..]);
    }
  }
}
