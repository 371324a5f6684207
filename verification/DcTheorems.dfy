/** What the invariant means for the users of the solver, over every run. */
module DcTheorems {
  import opened DcState
  import opened DcInv
  import opened DcSched
  import opened DcFlush
  import opened DcSteps
  import opened DcTurn

  /** The states of all runs. */
  ghost predicate Reachable(s: State) {
    exists ops: seq<Op> :: s == Run(Init(), ops)
  }

  lemma ReachableInv(s: State)
    requires Reachable(s)
    ensures Inv(s)
  {
    var ops: seq<Op> :| s == Run(Init(), ops);
    InitInv();
    RunInv(Init(), ops);
  }

  lemma StepReachable(s: State, op: Op)
    requires Reachable(s)
    ensures Reachable(Apply(s, op))
  {
    RunReachable(s, [op]);
    assert Run(s, [op]) == Run(Apply(s, op), []);
  }

  lemma RunReachable(s: State, ops: seq<Op>)
    requires Reachable(s)
    ensures Reachable(Run(s, ops))
  {
    var before: seq<Op> :| s == Run(Init(), before);
    RunAppend(Init(), before, ops);
  }

  /** The solver is not at work, and no atomic block is open. */
  predicate Returned(s: State) { s.pc == Idle && s.atomic == 0 }

  /** No lost dependency: whenever the solver has returned, every live constraint is at rest, and every
      cell its last execution logged still holds the value it had when that execution finished. */
  lemma NoLostDependency(s: State, k: nat)
    requires Reachable(s) && Returned(s) && Live(s, k)
    ensures Unscheduled(s.cons[k].ts)
    ensures forall a: nat :: a in s.cons[k].seen ==> MemAt(s, a) == s.cons[k].seen[a]
  {
    ReachableInv(s);
    NothingQueued(s, k);
    assert DepFor(s, k);
    assert forall a: nat :: CellAt(s, a).flag != WrittenMark;
  }

  /** With no group current and nothing at top level or in the new lists, nothing is queued at all. */
  lemma NothingQueued(s: State, k: nat)
    requires Good(s) && Returned(s) && Live(s, k)
    ensures s.cons[k].place == AtRest
  {
    assert Count(s.tempList, k) + Count(s.initList, k) == AmongNew(s, None, k);
    assert forall item :: s.top[item] == AtTop(s, None, item);
    assert forall item :: AtTop(s, None, item) == 0;
    assert s.cons[k].place.InTop? ==> AtTop(s, None, Item(s.cons[k].place.key, ConsObj(k))) == 1;
    forall g: nat | g < |s.groups| ensures s.groups[g].sched == multiset{} {
      assert GroupOk(s, g);
      assert s.groups[g].spot.Queued? ==> AtTop(s, None, Item(s.groups[g].spot.key, GroupObj(g))) == 1;
    }
    forall g: nat | g < |s.groups| ensures InSched(s, None, g, k) == 0 {
      assert s.groups[g].sched[k] == InSched(s, None, g, k);
    }
    assert s.cons[k].place == InGroup ==> InSched(s, None, s.cons[k].group.value, k) == 1;
  }

  /** What a finishing execution leaves behind: its constraint remembers exactly the cells it logged,
      with their final contents, and depends on exactly those. */
  lemma LeaveRemembers(s: State, k: nat)
    requires Reachable(s) && s.pc == Body && s.curr == Some(k) && Resting(s, k)
    requires Resting(Leave(s), k)
    ensures var s' := Leave(s);
            && s'.cons[k].seen.Keys == Cells(s.rd)
            && (forall a: nat :: a in s.rd ==> s'.cons[k].seen[a] == MemAt(s, a) == MemAt(s', a))
            && (forall a: nat :: a in s.rd <==> HasFresh(s', a, k))
  {
    ReachableInv(s);
    LeaveInv(s);
    LeaveFlushes(s);
    var s' := Leave(s);
    assert DepFor(s', k);
    assert s'.cons[k] == Finishing(s).cons[k];
  }

  /** The flush at the end of a body, which starts from the last known values and from memory as the
      body left them. */
  lemma LeaveFlushes(s: State)
    requires Good(s) && s.pc == Body
    ensures var p := Prepared(Finishing(s));
            var f := Flush(p, s.wr);
            && Flushes(p, f, s.wr)
            && Leave(s) == f.(wr := [], curr := None, pc := Loop, trace := [])
            && p == s.(noLog := 1, initList := s.tempList + s.initList, tempList := [], rd := [],
                       cells := p.cells, cons := Remember(s).cons)
            && (forall a: nat :: CellAt(p, a).val == CellAt(s, a).val)
  {
    FinishingFlushInv(s);
    FinalizeKeeps(Finishing(s));
    PreparedShape(Finishing(s));
  }

  /** The flush at the end of an atomic section of the program. */
  lemma EndAtFlushes(s: State)
    requires Good(s) && s.pc == Idle && s.atomic == 1
    ensures var p := Prepared(s.(atomic := 0));
            var f := Flush(p, s.wr);
            && FlushInv(p, s.wr) && Flushes(p, f, s.wr)
            && EndAt(s) == f.(wr := [], atomic := 1, pc := Loop)
            && p == s.(atomic := 0, initList := s.tempList + s.initList, tempList := [], rd := [], cells := p.cells)
            && (forall a: nat :: CellAt(p, a).val == CellAt(s, a).val)
  {
    var s1 := s.(atomic := 0);
    NoLogKeeps(s, s1);
    PreparedFlushInv(s1);
    PreparedShape(s1);
    FlushKeeps(Prepared(s1), s1.wr);
  }

  /** The top-level scheduler holds `obj` exactly once, under `key`. */
  ghost predicate OnlyUnder(s: State, obj: Obj, key: nat) {
    forall item: Item :: item.obj == obj ==> s.top[item] == if item.key == key then 1 else 0
  }

  /** Constraint `k` waits, once, in the scheduler of its group, or at top level under `ts` if it has none. */
  ghost predicate Waits(s: State, k: nat, group: Option<nat>, ts: nat) {
    match group
    case None => OnlyUnder(s, ConsObj(k), ts)
    case Some(g) => g < |s.groups| && s.groups[g].sched[k] == 1
  }

  lemma EnqueuedWaits(p: State, f: State, s': State, k: nat)
    requires Enqueued(p, f, k) && ConsOk(s', None) && s'.cons == f.cons
    ensures Waits(s', k, p.cons[k].group, p.cons[k].ts)
  {
    match p.cons[k].group
    case None =>
      forall item: Item | item.obj == ConsObj(k) ensures s'.top[item] == if item.key == p.cons[k].ts then 1 else 0 {
        assert s'.top[item] == AtTop(s', None, item);
      }
    case Some(g) => assert s'.groups[g].sched[k] == InSched(s', None, g, k);
  }

  /** Exact triggering: the end of a body queues another constraint if and only if that constraint
      logged a cell which no longer holds the value its execution left. */
  lemma LeaveQueuesExactly(s: State, k: nat)
    requires Reachable(s) && s.pc == Body && Resting(s, k) && s.curr != Some(k)
    ensures !Resting(Leave(s), k) <==> exists a: nat :: a in s.cons[k].seen && s.cons[k].seen[a] != MemAt(s, a)
    ensures if Resting(Leave(s), k) then Leave(s).cons[k] == s.cons[k]
            else Waits(Leave(s), k, s.cons[k].group, s.cons[k].ts)
  {
    ReachableInv(s);
    LeaveFlushes(s);
    LeaveWakes(s, k);
    LeaveWaits(s, k);
    WokenByOthers(s, Prepared(Finishing(s)), k);
  }

  /** A constraint queued by the end of a body waits under the stamp it had. */
  lemma LeaveWaits(s: State, k: nat)
    requires Good(s) && s.pc == Body && Resting(s, k)
    ensures k < |Leave(s).cons| && (!Resting(Leave(s), k) ==> Waits(Leave(s), k, s.cons[k].group, s.cons[k].ts))
  {
    LeaveFlushes(s);
    LeaveInv(s);
    var p, f := Prepared(Finishing(s)), Flush(Prepared(Finishing(s)), s.wr);
    assert p.cons[k].place == AtRest && p.cons[k].group == s.cons[k].group && p.cons[k].ts == s.cons[k].ts;
    if !Resting(Leave(s), k) {
      assert f.cons[k] == p.cons[k] || Enqueued(p, f, k);
      EnqueuedWaits(p, f, Leave(s), k);
    }
  }

  lemma WokenByOthers(s: State, p: State, k: nat)
    requires MemOk(s) && DepOk(s) && Resting(s, k) && s.curr != Some(k)
    requires k < |p.cons| && p.cons[k] == s.cons[k] && p.mem == s.mem && p.curr == s.curr
    requires forall a: nat :: CellAt(p, a).val == CellAt(s, a).val
    ensures Eligible(p, k)
    ensures Woken(p, k, s.wr) <==> exists a: nat :: a in s.cons[k].seen && s.cons[k].seen[a] != MemAt(s, a)
  {
    assert DepFor(s, k);
    if Woken(p, k, s.wr) {
      var a: nat :| a in s.wr && a in p.cons[k].seen && Changed(p, a);
      assert s.cons[k].seen[a] != MemAt(s, a);
    }
    forall a: nat | a in s.cons[k].seen && s.cons[k].seen[a] != MemAt(s, a) ensures Woken(p, k, s.wr) {
      assert a in s.wr && Changed(p, a);
    }
  }

  /** So does the end of an atomic section of the program. */
  lemma EndAtQueuesExactly(s: State, k: nat)
    requires Reachable(s) && s.pc == Idle && s.atomic == 1 && Resting(s, k)
    ensures !Resting(EndAt(s), k) <==> exists a: nat :: a in s.cons[k].seen && s.cons[k].seen[a] != MemAt(s, a)
    ensures if Resting(EndAt(s), k) then EndAt(s).cons[k] == s.cons[k]
            else Waits(EndAt(s), k, s.cons[k].group, s.cons[k].ts)
  {
    ReachableInv(s);
    EndAtFlushes(s);
    var p := Prepared(s.(atomic := 0));
    WokenByOthers(s, p, k);
    FlushedExactly(p, Flush(p, s.wr), s.wr, k);
    EndAtInv(s);
    if !Resting(EndAt(s), k) { EnqueuedWaits(p, Flush(p, s.wr), EndAt(s), k); }
  }

  lemma FlushedExactly(p: State, f: State, l: seq<Addr>, k: nat)
    requires Flushes(p, f, l) && Resting(p, k) && Eligible(p, k)
    ensures !Resting(f, k) <==> Woken(p, k, l)
    ensures if Resting(f, k) then f.cons[k] == p.cons[k] else Enqueued(p, f, k)
  {
    assert f.cons[k] == p.cons[k] || Enqueued(p, f, k);
  }

  /** And a store outside any section queues exactly the constraints that logged the cell and do not find
      the value there that their executions left. */
  lemma StoreQueuesExactly(s: State, a: Addr, v: Word, k: nat)
    requires Reachable(s) && s.pc == Idle && s.atomic == 0 && Resting(s, k)
    ensures !Resting(WriteOp(s, a, v), k) <==> a in s.cons[k].seen && s.cons[k].seen[a] != v
    ensures if Resting(WriteOp(s, a, v), k) then WriteOp(s, a, v).cons[k] == s.cons[k]
            else Waits(WriteOp(s, a, v), k, s.cons[k].group, s.cons[k].ts)
    ensures WriteOp(s, a, v).pc == (if MemAt(s, a) == v then Idle else Loop)
  {
    ReachableInv(s);
    WriteNowFlushes(s, a, v);
    var s0 := Stored(s, a, v);
    FlushedExactly(s0, Check(s0, a), [a], k);
    assert DepFor(s, k) && a in [a];
    assert CellAt(s, a).val == MemAt(s, a);
    assert Woken(s0, k, [a]) <==> a in s.cons[k].seen && s.cons[k].seen[a] != v;
    StoreWaits(s, a, v, k, s0);
  }

  lemma StoreWaits(s: State, a: Addr, v: Word, k: nat, s0: State)
    requires Good(s) && s.pc == Idle && s.atomic == 0 && Resting(s, k) && s0 == Stored(s, a, v)
    requires Flushes(s0, Check(s0, a), [a])
    requires WriteOp(s, a, v) == s0 || WriteOp(s, a, v) == Check(s0, a).(atomic := 1, pc := Loop)
    ensures var s' := WriteOp(s, a, v);
            k < |s'.cons| && (!Resting(s', k) ==> Waits(s', k, s.cons[k].group, s.cons[k].ts))
  {
    WriteOpInv(s, a, v);
    if !Resting(WriteOp(s, a, v), k) {
      assert Check(s0, a).cons[k] == s0.cons[k] || Enqueued(s0, Check(s0, a), k);
      EnqueuedWaits(s0, Check(s0, a), WriteOp(s, a, v), k);
    }
  }

  lemma LeaveWakes(s: State, k: nat)
    requires Good(s) && s.pc == Body && Resting(s, k)
    requires Flushes(Prepared(Finishing(s)), Flush(Prepared(Finishing(s)), s.wr), s.wr)
    requires Prepared(Finishing(s)).cons == Remember(s).cons
    requires Leave(s).cons == Flush(Prepared(Finishing(s)), s.wr).cons
    ensures var p := Prepared(Finishing(s));
            && (Eligible(p, k) ==> (Resting(Leave(s), k) <==> !Woken(p, k, s.wr)))
            && (Resting(Leave(s), k) ==> Leave(s).cons[k] == p.cons[k])
            && (!Eligible(p, k) ==> Resting(Leave(s), k))
  {
    var p := Prepared(Finishing(s));
    var f := Flush(p, s.wr);
    assert f.cons[k] == p.cons[k] || Enqueued(p, f, k);
  }

  /** Self-triggering: the end of a body queues its own constraint if and only if self-triggering is on
      and the body changed a cell it had logged. */
  lemma LeaveQueuesItself(s: State, k: nat)
    requires Reachable(s) && s.pc == Body && Resting(s, k) && s.curr == Some(k)
    ensures !Resting(Leave(s), k) <==> s.selfTrigger && exists a: nat :: a in s.rd && CellAt(s, a).val != MemAt(s, a)
    ensures !Resting(Leave(s), k) ==> Waits(Leave(s), k, s.cons[k].group, s.cons[k].ts)
  {
    ReachableInv(s);
    LeaveFlushes(s);
    LeaveWakes(s, k);
    LeaveWaits(s, k);
    var p := Prepared(Finishing(s));
    assert p.cons[k].seen.Keys == Cells(s.rd);
    WokenByItself(s, p, k);
  }

  lemma WokenByItself(s: State, p: State, k: nat)
    requires MemOk(s) && Resting(p, k) && s.curr == Some(k)
    requires p.cons[k].seen.Keys == Cells(s.rd) && p.mem == s.mem && p.curr == s.curr && p.selfTrigger == s.selfTrigger
    requires forall a: nat :: CellAt(p, a).val == CellAt(s, a).val
    ensures Eligible(p, k) <==> s.selfTrigger
    ensures Woken(p, k, s.wr) <==> exists a: nat :: a in s.rd && CellAt(s, a).val != MemAt(s, a)
  {
    if Woken(p, k, s.wr) {
      var a: nat :| a in s.wr && a in p.cons[k].seen && Changed(p, a);
      assert a in s.rd && CellAt(s, a).val != MemAt(s, a);
    }
    forall a: nat | a in s.rd && CellAt(s, a).val != MemAt(s, a) ensures Woken(p, k, s.wr) {
      assert a in s.wr && a in p.cons[k].seen && Changed(p, a);
    }
  }

  // ---- dependency nodes ------------------------------------------------------------------------

  /** In every reachable state each node is in exactly one cell list or in the free list, a cell list
      has at most one up-to-date node per constraint, and the running constraint's node, if any, is first. */
  lemma NodesAlwaysInOrder(s: State)
    requires Reachable(s) && s.pc != Stuck && s.pc != Halted
    ensures forall n: nat :: n < |s.nodes| ==> (n in s.freeNodes) != (exists a: nat :: Listed(s, a, n))
    ensures forall a: nat, b: nat, n: nat :: Listed(s, a, n) && Listed(s, b, n) ==> a == b
    ensures forall a: nat, i: nat, j: nat :: i < j < |ListAt(s, a)| ==> ListAt(s, a)[i] != ListAt(s, a)[j]
    ensures forall a: nat, i: nat, j: nat ::
              (i < j < |ListAt(s, a)| && UpToDate(s, ListAt(s, a)[i]) && UpToDate(s, ListAt(s, a)[j]))
              ==> s.nodes[ListAt(s, a)[i]].cons != s.nodes[ListAt(s, a)[j]].cons
    ensures forall a: nat, i: nat ::
              (i < |ListAt(s, a)| && UpToDate(s, ListAt(s, a)[i]) && Some(s.nodes[ListAt(s, a)[i]].cons) == s.curr)
              ==> i == 0
  {
    ReachableInv(s);
    forall n: nat | n < |s.nodes| ensures (n in s.freeNodes) != (exists a: nat :: Listed(s, a, n)) {
      forall a: nat ensures n in s.freeNodes ==> !Listed(s, a, n) { assert Occ(s, a, n) + OccFree(s, n) <= 1; }
    }
    forall a: nat, b: nat, n: nat | Listed(s, a, n) && Listed(s, b, n) ensures a == b {
      assert a != b ==> Occ(s, a, n) + Occ(s, b, n) <= 1;
    }
    forall a: nat, i: nat, j: nat | i < j < |ListAt(s, a)| ensures ListAt(s, a)[i] != ListAt(s, a)[j] {
      ListDistinct(s, a, i, j);
    }
    forall a: nat, i: nat, j: nat | i < j < |ListAt(s, a)| && UpToDate(s, ListAt(s, a)[i])
        && UpToDate(s, ListAt(s, a)[j])
      ensures s.nodes[ListAt(s, a)[i]].cons != s.nodes[ListAt(s, a)[j]].cons
    {
      ListDistinct(s, a, i, j);
      assert Listed(s, a, ListAt(s, a)[i]) && Listed(s, a, ListAt(s, a)[j]);
    }
    forall a: nat, i: nat | i < |ListAt(s, a)| && UpToDate(s, ListAt(s, a)[i])
                            && Some(s.nodes[ListAt(s, a)[i]].cons) == s.curr
      ensures i == 0
    {
      var n := ListAt(s, a)[i];
      var k := s.curr.value;
      assert Listed(s, a, n) && FreshFor(s, n, k);
      assert Resting(s, k);
      assert ListAt(s, a)[0] == n;
      forall j: nat | 0 < j < |ListAt(s, a)| ensures ListAt(s, a)[0] != ListAt(s, a)[j] { ListDistinct(s, a, 0, j); }
    }
  }

  lemma ListDistinct(s: State, a: Addr, i: nat, j: nat)
    requires Partition(s) && i < j < |ListAt(s, a)|
    ensures ListAt(s, a)[i] != ListAt(s, a)[j]
  {
    var l := ListAt(s, a);
    var n := l[i];
    assert Occ(s, a, n) + OccFree(s, n) <= 1;
    assert l == l[..i] + [l[i]] + l[i + 1..j] + [l[j]] + l[j + 1..];
    assert multiset(l)[n] >= multiset([l[i]])[n] + multiset([l[j]])[n];
  }

  /** A record `(t, k)` is stale. */
  predicate Stale(s: State, t: nat, k: nat) { TsOf(s, k) > t }

  /** A stale dependency record never becomes up to date again, whatever happens: not even when its
      constraint object is freed and handed out again. */
  lemma StaleForever(s: State, ops: seq<Op>, t: nat, k: nat)
    requires Inv(s) && k < |s.cons| && t <= s.time && Stale(s, t, k)
    ensures Stale(Run(s, ops), t, k)
    decreases |ops|
  {
    if ops != [] {
      StaleStays(s, ops[0], t, k);
      ApplyInv(s, ops[0]);
      StaleForever(Apply(s, ops[0]), ops[1..], t, k);
    }
  }

  /** Stamps of a constraint only move to a marker or to a new time. */
  ghost predicate StampsMove(s: State, s': State) {
    && s.time <= s'.time && |s.cons| <= |s'.cons|
    && (forall k: nat :: k < |s.cons| ==> s'.cons[k].ts == s.cons[k].ts || s'.cons[k].ts > s.time)
  }

  lemma FlushStamps(s: State, l: seq<Addr>)
    requires FlushInv(s, l)
    ensures StampsMove(s, Flush(s, l))
  {
    FlushKeeps(s, l);
    var s' := Flush(s, l);
    forall k: nat | k < |s.cons| ensures s'.cons[k].ts == s.cons[k].ts || s'.cons[k].ts > s.time {
      assert s'.cons[k] == s.cons[k] || Enqueued(s, s', k);
    }
  }

  lemma EndAtStamps(s: State)
    requires Good(s) && UserMode(s)
    ensures StampsMove(s, EndAt(s))
  {
    if s.curr == None && s.atomic == 1 {
      EndAtFlushes(s);
      FlushStamps(Prepared(s.(atomic := 0)), s.wr);
    }
  }

  lemma LeaveStamps(s: State)
    requires Good(s) && s.pc == Body
    ensures StampsMove(s, Leave(s))
  {
    FinishingFlushInv(s);
    LeaveFlushes(s);
    FlushStamps(Prepared(Finishing(s)), s.wr);
  }

  lemma WriteStamps(s: State, a: Addr, v: Word)
    requires Good(s) && UserMode(s)
    ensures StampsMove(s, WriteOp(s, a, v))
  {
    if s.atomic == 0 {
      WriteNowFlushes(s, a, v);
      var s0 := Stored(s, a, v);
      var s1 := Check(s0, a);
      forall k: nat | k < |s.cons| ensures s1.cons[k].ts == s.cons[k].ts || s1.cons[k].ts > s.time {
        assert s1.cons[k] == s0.cons[k] || Enqueued(s0, s1, k);
      }
    }
  }

  lemma ExecConsStamps(s: State, k: nat)
    requires StampsOk(s) && k < |s.cons|
    ensures StampsMove(s, ExecCons(s, k))
  {}

  lemma NewConsStamps(s: State, fun: nat, g: Option<nat>)
    requires Good(s) && UserMode(s) && (g.Some? ==> g.value < |s.groups|)
    ensures StampsMove(s, NewCons(s, fun, g))
  {
    AllocConsObjects(s, fun, g);
    var s1 := AllocCons(s, fun, g, InNew);
    assert StampsMove(s, s1);
    if s.atomic == 0 {
      var s3 := EnterGroup(s1, g);
      assert s3.cons == s1.cons && s3.time == s1.time;
      assert NewCons(s, fun, g) == ExecCons(s3, NextCons(s));
    }
  }

  /** The same objects and time. */
  predicate SameStamps(s: State, s1: State) { s1.cons == s.cons && s1.time == s.time }

  lemma TurnStamps(s: State, item: Item, j: nat)
    requires Good(s) && s.pc == Loop
    ensures StampsMove(s, DispatchTurn(s, item, j))
  {
    if s.initList != [] {
      RunNewInv(s);
      var s1 := s.(initList := s.initList[1..]);
      ExecConsStamps(s1, s.initList[0]);
      assert DispatchTurn(s, item, j) == ExecCons(s1, s.initList[0]);
    } else {
      match s.currGroup
      case None => RunTopStamps(s, item, j);
      case Some(g) =>
        if s.groups[g].sched != multiset{} {
          if j in s.groups[g].sched && j < |s.cons| { RunInGroupStamps(s, g, j); }
        } else {
          LeaveGroupGood(s, g);
          assert SameStamps(s, LeaveGroup(s));
          RunTopStamps(LeaveGroup(s), item, j);
        }
    }
  }

  lemma RunInGroupStamps(s: State, g: nat, k: nat)
    requires StampsOk(s) && g < |s.groups| && k < |s.cons|
    ensures StampsMove(s, RunInGroup(s, g, k))
  {}

  lemma RunTopStamps(s: State, item: Item, j: nat)
    requires Good(s) && s.pc == Loop && s.initList == [] && s.currGroup == None
    ensures StampsMove(s, RunTop(s, item, j))
  {
    if s.top != multiset{} && IsMin(s.top, item) {
      match item.obj
      case ConsObj(c) =>
        if c < |s.cons| { ExecConsStamps(s.(top := s.top - multiset{item}), c); }
      case GroupObj(g) =>
        PickGroupGood(s, item);
        if j in s.groups[g].sched && j < |s.cons| { RunInGroupStamps(PickGroup(s, item, g), g, j); }
    }
  }

  lemma ReadStamps(s: State, a: Addr)
    ensures SameStamps(s, ReadOp(s, a))
  {}

  lemma ApplyStamps(s: State, op: Op)
    requires Good(s) && Enabled(s, op)
    ensures StampsMove(s, Apply(s, op))
  {
    match op
    case Read(a) => ReadStamps(s, a);
    case Write(a, v) => WriteStamps(s, a, v);
    case New(fun, g) => NewConsStamps(s, fun, g);
    case Del(k) => assert DelCons(s, k).time == s.time;
    case CloseAt => EndAtStamps(s);
    case EndBody => LeaveStamps(s);
    case Turn(item, j) => TurnStamps(s, item, j);
    case _ => assert SameStamps(s, Apply(s, op));
  }

  lemma StaleStays(s: State, op: Op, t: nat, k: nat)
    requires Inv(s) && k < |s.cons| && t <= s.time && Stale(s, t, k)
    ensures k < |Apply(s, op).cons| && t <= Apply(s, op).time && Stale(Apply(s, op), t, k)
  {
    if Enabled(s, op) && s.pc != Stuck && s.pc != Halted { ApplyStamps(s, op); }
  }
}
