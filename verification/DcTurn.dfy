/** The dispatch loop, creation and deletion keep the invariant; so does every run. */
module DcTurn {
  import opened DcState
  import opened DcInv
  import opened DcLog
  import opened DcSteps

  /** Changing one constraint's record so that none of its nodes is up to date afterwards. */
  lemma RetireKeeps(s: State, s': State, k: nat)
    requires NodesOk(s) && Unique(s) && StampsOk(s)
    requires s'.nodes == s.nodes && s'.cells == s.cells && s'.freeNodes == s.freeNodes && s'.time == s.time
    requires k < |s'.cons| && s'.cons[k].ts >= DEL_TIME_STAMP
    requires k <= |s.cons| <= |s'.cons| <= |s.cons| + 1
    requires forall j: nat :: j < |s'.cons| && j != k ==> j < |s.cons| && s'.cons[j] == s.cons[j]
    ensures NodesOk(s') && Unique(s')
    ensures forall a: nat, j: nat :: j != k ==> (HasFresh(s', a, j) <==> HasFresh(s, a, j))
  {
    SameStoreKeeps(s, s');
    assert forall n: nat, j: nat :: j < |s.cons| && j != k ==> (FreshFor(s', n, j) <==> FreshFor(s, n, j));
    forall a: nat, n: nat | Listed(s, a, n) ensures UpToDate(s', n) ==> UpToDate(s, n) {
      if s.nodes[n].cons == k { assert !UpToDate(s', n); }
    }
    forall a: nat, j: nat | j >= |s.cons| ensures !HasFresh(s, a, j) && (j != k ==> !HasFresh(s', a, j)) {
      assert forall n: nat :: Listed(s, a, n) ==> s.nodes[n].cons < |s.cons|;
    }
  }

  /** The other constraints keep their dependencies, and so does the running one if it is another. */
  lemma RetireRest(s: State, s': State, k: nat)
    requires DepOk(s) && CurrOk(s) && MemOk(s)
    requires s'.cells == s.cells && s'.nodes == s.nodes && s'.time == s.time && s'.rd == s.rd && s'.wr == s.wr
    requires s'.mem == s.mem && s'.curr == s.curr
    requires k < |s'.cons| && s'.cons[k].place != AtRest
    requires forall j: nat :: j < |s'.cons| && j != k ==> j < |s.cons| && s'.cons[j] == s.cons[j]
    requires forall a: nat, j: nat :: j != k ==> (HasFresh(s', a, j) <==> HasFresh(s, a, j))
    ensures DepOk(s') && CurrOk(s') && MemOk(s')
  {
    assert forall a: nat :: CellAt(s', a) == CellAt(s, a) && MemAt(s', a) == MemAt(s, a);
    forall j: nat | Resting(s', j) && s'.curr != Some(j) ensures DepFor(s', j) { assert DepFor(s, j); }
    if s'.curr.Some? && Resting(s', s'.curr.value) {
      var c := s'.curr.value;
      forall a: nat, n: nat | Listed(s', a, n) && FreshFor(s', n, c) ensures ListAt(s', a)[0] == n {
        assert Listed(s, a, n) && FreshFor(s, n, c);
      }
    }
  }

  // ---- deleting --------------------------------------------------------------------------------

  lemma DelRestingObjects(s: State, k: nat)
    requires ConsOk(s, None) && Resting(s, k)
    ensures ConsOk(DelCons(s, k), None)
  {
    var s' := DelCons(s, k);
    CountCons(k, s.freeCons);
    assert s'.freeCons == [k] + s.freeCons;
    assert forall j: nat :: InFree(s', None, j) == InFree(s, None, j) + (if j == k then 1 else 0);
    assert forall j: nat :: AmongNew(s', None, j) == AmongNew(s, None, j);
    assert forall g: nat, j: nat :: InSched(s', None, g, j) == InSched(s, None, g, j);
    assert forall item :: AtTop(s', None, item) == AtTop(s, None, item);
  }

  lemma DelQueuedObjects(s: State, k: nat)
    requires ConsOk(s, None) && Live(s, k) && !Resting(s, k)
    ensures ConsOk(DelCons(s, k), None)
  {
    var s' := DelCons(s, k);
    assert forall j: nat :: InFree(s', None, j) == InFree(s, None, j);
    assert forall j: nat :: AmongNew(s', None, j) == AmongNew(s, None, j);
    assert forall g: nat, j: nat :: InSched(s', None, g, j) == InSched(s, None, g, j);
    assert forall item :: AtTop(s', None, item) == AtTop(s, None, item);
  }

  lemma DelConsObjects(s: State, k: nat)
    requires ConsOk(s, None) && GroupsOk(s) && Live(s, k)
    ensures ConsOk(DelCons(s, k), None) && GroupsOk(DelCons(s, k))
  {
    if Resting(s, k) { DelRestingObjects(s, k); } else { DelQueuedObjects(s, k); }
    var s' := DelCons(s, k);
    forall g: nat | g < |s'.groups| ensures GroupOk(s', g) { assert GroupOk(s, g); }
  }

  lemma DelConsInv(s: State, k: nat)
    requires Good(s) && Live(s, k) && UserMode(s)
    ensures Good(DelCons(s, k))
  {
    DelConsObjects(s, k);
    RetireKeeps(s, DelCons(s, k), k);
    RetireRest(s, DelCons(s, k), k);
  }

  // ---- creating --------------------------------------------------------------------------------

  lemma AllocConsObjects(s: State, fun: nat, g: Option<nat>)
    requires ConsOk(s, None) && GroupsOk(s) && (g.Some? ==> g.value < |s.groups|)
    ensures var s' := AllocCons(s, fun, g, InNew);
            && NextCons(s) < |s'.cons| && NextCons(s) <= |s.cons| <= |s'.cons| <= |s.cons| + 1
            && ConsOk(s', Some(NextCons(s))) && GroupsOk(s')
            && (forall j: nat :: j < |s'.cons| && j != NextCons(s) ==> j < |s.cons| && s'.cons[j] == s.cons[j])
            && (NextCons(s) < |s.cons| ==> s.cons[NextCons(s)].place == Free)
  {
    var s' := AllocCons(s, fun, g, InNew);
    var k := NextCons(s);
    if s.freeCons != [] {
      assert s.freeCons == [k] + s'.freeCons;
      CountCons(k, s'.freeCons);
      assert Count(s.freeCons, k) == InFree(s, None, k);
    }
    assert forall j: nat :: InFree(s', Some(k), j) == InFree(s, None, j) - (if j == k && k < |s.cons| then 1 else 0);
    AllocConsCounts(s, s', k);
    forall h: nat | h < |s'.groups| ensures GroupOk(s', h) { assert GroupOk(s, h); }
  }

  lemma AllocConsCounts(s: State, s': State, k: nat)
    requires PlacesOk(s, None) && k < |s'.cons| && k <= |s.cons| <= |s'.cons| <= |s.cons| + 1
    requires k < |s.cons| ==> s.cons[k].place == Free
    requires s' == s.(cons := s'.cons, freeCons := s'.freeCons)
    requires forall j: nat :: j < |s'.cons| && j != k ==> j < |s.cons| && s'.cons[j] == s.cons[j]
    requires forall j: nat :: Count(s'.freeCons, j) == InFree(s', Some(k), j)
    ensures PlacesOk(s', Some(k))
  {
    assert forall j: nat :: AmongNew(s', Some(k), j) == AmongNew(s, None, j);
    assert forall g: nat, j: nat :: InSched(s', Some(k), g, j) == InSched(s, None, g, j);
    assert forall item :: AtTop(s', Some(k), item) == AtTop(s, None, item);
  }

  /** The new constraint joins the temporary list. */
  lemma EnlistObjects(s: State, k: nat)
    requires ConsOk(s, Some(k)) && GroupsOk(s) && k < |s.cons| && s.cons[k].place == InNew
    ensures var s' := s.(tempList := s.tempList + [k]);
            ConsOk(s', None) && GroupsOk(s')
  {
    var s' := s.(tempList := s.tempList + [k]);
    assert forall j: nat :: Count(s'.tempList, j) == Count(s.tempList, j) + (if j == k then 1 else 0);
    assert forall j: nat :: InFree(s', None, j) == InFree(s, Some(k), j);
    assert forall j: nat :: AmongNew(s', None, j) == AmongNew(s, Some(k), j) + (if j == k then 1 else 0);
    assert forall g: nat, j: nat :: InSched(s', None, g, j) == InSched(s, Some(k), g, j);
    assert forall item :: AtTop(s', None, item) == AtTop(s, Some(k), item);
    forall h: nat | h < |s'.groups| ensures GroupOk(s', h) { assert GroupOk(s, h); }
  }

  lemma NewConsLaterInv(s: State, fun: nat, g: Option<nat>)
    requires Good(s) && UserMode(s) && s.atomic != 0 && (g.Some? ==> g.value < |s.groups|)
    ensures Good(NewCons(s, fun, g))
  {
    var s1 := AllocCons(s, fun, g, InNew);
    AllocConsObjects(s, fun, g);
    EnlistObjects(s1, NextCons(s));
    RetireKeeps(s, NewCons(s, fun, g), NextCons(s));
    RetireRest(s, NewCons(s, fun, g), NextCons(s));
  }

  lemma EnterGroupObjects(s: State, g: Option<nat>, k: nat)
    requires ConsOk(s, Some(k)) && GroupsOk(s) && (g.Some? ==> g.value < |s.groups|)
    requires s.currGroup == None && s.top == multiset{}
    ensures ConsOk(EnterGroup(s, g), Some(k)) && GroupsOk(EnterGroup(s, g))
  {
    var s' := EnterGroup(s, g);
    assert forall j: nat :: InFree(s', Some(k), j) == InFree(s, Some(k), j);
    assert forall j: nat :: AmongNew(s', Some(k), j) == AmongNew(s, Some(k), j);
    assert forall h: nat, j: nat :: InSched(s', Some(k), h, j) == InSched(s, Some(k), h, j);
    forall item ensures s'.top[item] == AtTop(s', Some(k), item) {
      assert s.top[item] == AtTop(s, Some(k), item);
    }
    forall h: nat, j: nat | h < |s'.groups| ensures s'.groups[h].sched[j] == InSched(s', Some(k), h, j) {
      assert s.groups[h].sched[j] == InSched(s, Some(k), h, j);
    }
    forall h: nat | h < |s'.groups| ensures GroupOk(s', h) { assert GroupOk(s, h); }
  }

  lemma NewConsNowInv(s: State, fun: nat, g: Option<nat>)
    requires Good(s) && s.pc == Idle && s.atomic == 0 && (g.Some? ==> g.value < |s.groups|)
    ensures Inv(NewCons(s, fun, g))
  {
    var k := NextCons(s);
    var s1 := AllocCons(s, fun, g, InNew);
    AllocConsObjects(s, fun, g);
    EnterGroupObjects(s1, g, k);
    var s3 := EnterGroup(s1, g);
    RetireKeeps(s, s3, k);
    RetireRest(s, s3, k);
    ExecConsInv(s3, k);
  }

  // ---- the dispatch loop -----------------------------------------------------------------------

  /** Taking a constraint out of a queue changes none of the other concerns. */
  lemma PickRest(s: State, s': State, k: nat)
    requires Good(s) && s.pc == Loop && CtlOk(s') && s'.pc == Loop
    requires ConsOk(s', Some(k)) && GroupsOk(s') && k < |s'.cons|
    requires s'.cons[k].place != Free && s'.cons[k].place != AtRest
    requires s' == s.(initList := s'.initList, top := s'.top, groups := s'.groups,
                      currGroup := s'.currGroup, selfTrigger := s'.selfTrigger)
    ensures InHand(s', k)
  {
    SameStoreKeeps(s, s');
    SameFresh(s, s');
    forall j: nat | Resting(s', j) && s'.curr != Some(j) ensures DepFor(s', j) { assert DepFor(s, j); }
    assert forall a: nat :: CellAt(s', a) == CellAt(s, a) && MemAt(s', a) == MemAt(s, a);
  }

  lemma RunNewInv(s: State)
    requires Good(s) && s.pc == Loop && s.initList != []
    ensures s.initList[0] < |s.cons| && Inv(RunNew(s))
  {
    var k := s.initList[0];
    var s' := s.(initList := s.initList[1..]);
    assert s.initList == [k] + s'.initList;
    CountCons(k, s'.initList);
    assert Count(s.tempList, k) + Count(s.initList, k) == AmongNew(s, None, k);
    assert forall j: nat :: InFree(s', Some(k), j) == InFree(s, None, j);
    assert forall j: nat :: AmongNew(s', Some(k), j) == AmongNew(s, None, j) - (if j == k then 1 else 0);
    assert forall h: nat, j: nat :: InSched(s', Some(k), h, j) == InSched(s, None, h, j);
    assert forall item :: AtTop(s', Some(k), item) == AtTop(s, None, item);
    forall h: nat | h < |s'.groups| ensures GroupOk(s', h) { assert GroupOk(s, h); }
    PickRest(s, s', k);
    ExecConsInv(s', k);
  }

  lemma RunInGroupInv(s: State, g: nat, k: nat)
    requires Good(s) && s.pc == Loop && g < |s.groups| && k in s.groups[g].sched
    ensures k < |s.cons| && Inv(RunInGroup(s, g, k))
  {
    assert s.groups[g].sched[k] == InSched(s, None, g, k);
    var s' := s.(groups := s.groups[g := s.groups[g].(sched := s.groups[g].sched - multiset{k})]);
    assert forall j: nat :: InFree(s', Some(k), j) == InFree(s, None, j);
    assert forall j: nat :: AmongNew(s', Some(k), j) == AmongNew(s, None, j);
    assert forall item :: AtTop(s', Some(k), item) == AtTop(s, None, item);
    forall h: nat, j: nat | h < |s'.groups| ensures s'.groups[h].sched[j] == InSched(s', Some(k), h, j) {
      assert s.groups[h].sched[j] == InSched(s, None, h, j);
    }
    forall h: nat | h < |s'.groups| ensures GroupOk(s', h) { assert GroupOk(s, h); }
    PickRest(s, s', k);
    ExecConsInv(s', k);
  }

  lemma LeaveGroupGood(s: State, g: nat)
    requires Good(s) && s.pc == Loop && s.currGroup == Some(g) && s.groups[g].sched == multiset{}
    ensures Good(LeaveGroup(s)) && LeaveGroup(s).currGroup == None
  {
    var s' := LeaveGroup(s);
    assert forall j: nat :: InFree(s', None, j) == InFree(s, None, j);
    assert forall j: nat :: AmongNew(s', None, j) == AmongNew(s, None, j);
    assert GroupOk(s, g);
    forall item ensures s'.top[item] == AtTop(s', None, item) { assert s.top[item] == AtTop(s, None, item); }
    forall h: nat, j: nat | h < |s'.groups| ensures s'.groups[h].sched[j] == InSched(s', None, h, j) {
      assert s.groups[h].sched[j] == InSched(s, None, h, j);
    }
    forall h: nat | h < |s'.groups| ensures GroupOk(s', h) { assert GroupOk(s, h); }
    RegroupRest(s, s');
  }

  lemma RegroupRest(s: State, s': State)
    requires Good(s) && s.pc == Loop && CtlOk(s') && ConsOk(s', None) && GroupsOk(s')
    requires s' == s.(pc := s'.pc, atomic := s'.atomic, top := s'.top, groups := s'.groups,
                      currGroup := s'.currGroup, selfTrigger := s'.selfTrigger)
    ensures Good(s')
  {
    SameStoreKeeps(s, s');
    SameFresh(s, s');
    forall j: nat | Resting(s', j) && s'.curr != Some(j) ensures DepFor(s', j) { assert DepFor(s, j); }
    assert forall a: nat :: CellAt(s', a) == CellAt(s, a) && MemAt(s', a) == MemAt(s, a);
  }

  lemma FinishedGood(s: State)
    requires Good(s) && s.pc == Loop && s.initList == [] && s.currGroup == None && s.top == multiset{}
    ensures Good(s.(atomic := 0, pc := Idle))
  {
    var s' := s.(atomic := 0, pc := Idle);
    SameObjectsKeep(s, s', None);
    RegroupRest(s, s');
  }

  lemma PickTopConsInv(s: State, item: Item)
    requires Good(s) && s.pc == Loop && item in s.top && item.obj.ConsObj?
    ensures item.obj.k < |s.cons| && Inv(ExecCons(s.(top := s.top - multiset{item}), item.obj.k))
  {
    var k := item.obj.k;
    assert s.top[item] == AtTop(s, None, item);
    var s' := s.(top := s.top - multiset{item});
    assert forall j: nat :: InFree(s', Some(k), j) == InFree(s, None, j);
    assert forall j: nat :: AmongNew(s', Some(k), j) == AmongNew(s, None, j);
    assert forall h: nat, j: nat :: InSched(s', Some(k), h, j) == InSched(s, None, h, j);
    forall i ensures s'.top[i] == AtTop(s', Some(k), i) { assert s.top[i] == AtTop(s, None, i); }
    forall h: nat | h < |s'.groups| ensures GroupOk(s', h) { assert GroupOk(s, h); }
    PickRest(s, s', k);
    ExecConsInv(s', k);
  }

  /** Entering the group picked from the top-level scheduler. */
  function PickGroup(s: State, item: Item, g: nat): State
    requires g < |s.groups|
  {
    s.(top := s.top - multiset{item}, currGroup := Some(g), selfTrigger := s.groups[g].self,
       groups := s.groups[g := s.groups[g].(spot := Current)])
  }

  lemma PickGroupGood(s: State, item: Item)
    requires Good(s) && s.pc == Loop && s.currGroup == None && item in s.top && item.obj.GroupObj?
    ensures item.obj.g < |s.groups| && Good(PickGroup(s, item, item.obj.g))
  {
    var g := item.obj.g;
    assert s.top[item] == AtTop(s, None, item);
    assert GroupOk(s, g);
    var s' := PickGroup(s, item, g);
    assert forall j: nat :: InFree(s', None, j) == InFree(s, None, j);
    assert forall j: nat :: AmongNew(s', None, j) == AmongNew(s, None, j);
    forall i ensures s'.top[i] == AtTop(s', None, i) { assert s.top[i] == AtTop(s, None, i); }
    forall h: nat, j: nat | h < |s'.groups| ensures s'.groups[h].sched[j] == InSched(s', None, h, j) {
      assert s.groups[h].sched[j] == InSched(s, None, h, j);
    }
    forall h: nat | h < |s'.groups| ensures GroupOk(s', h) { assert GroupOk(s, h); }
    RegroupRest(s, s');
  }

  lemma RunTopInv(s: State, item: Item, k: nat)
    requires Good(s) && s.pc == Loop && s.initList == [] && s.currGroup == None
    ensures Inv(RunTop(s, item, k))
  {
    if s.top == multiset{} {
      FinishedGood(s);
    } else if IsMin(s.top, item) {
      match item.obj
      case ConsObj(c) => PickTopConsInv(s, item);
      case GroupObj(g) =>
        PickGroupGood(s, item);
        var s2 := PickGroup(s, item, g);
        assert s2.groups[g].sched == s.groups[g].sched;
        if k in s.groups[g].sched { RunInGroupInv(s2, g, k); }
    }
  }

  lemma TurnInv(s: State, item: Item, k: nat)
    requires Good(s) && s.pc == Loop
    ensures Inv(DispatchTurn(s, item, k))
  {
    if s.initList != [] {
      RunNewInv(s);
    } else {
      match s.currGroup
      case None => RunTopInv(s, item, k);
      case Some(g) =>
        if s.groups[g].sched != multiset{} {
          if k in s.groups[g].sched { RunInGroupInv(s, g, k); }
        } else {
          LeaveGroupGood(s, g);
          RunTopInv(LeaveGroup(s), item, k);
        }
    }
  }

  // ---- the rest --------------------------------------------------------------------------------

  /** Nesting counters and group bookkeeping. */
  lemma BookkeepingGood(s: State, s': State)
    requires Good(s) && UserMode(s) && CtlOk(s') && ConsOk(s', None) && GroupsOk(s')
    requires s' == s.(atomic := s'.atomic, noLog := s'.noLog, groups := s'.groups)
    ensures Good(s')
  {
    SameStoreKeeps(s, s');
    SameFresh(s, s');
    forall j: nat | Resting(s', j) && s'.curr != Some(j) ensures DepFor(s', j) { assert DepFor(s, j); }
    if s.curr.Some? && Resting(s, s.curr.value) { SameFront(s, s', s.curr.value, Cells(s.rd)); }
    assert forall a: nat :: CellAt(s', a) == CellAt(s, a) && MemAt(s', a) == MemAt(s, a);
  }

  lemma NestingGood(s: State, op: Op)
    requires Good(s) && UserMode(s) && (op.OpenAt? || op.OpenNoLog? || op.CloseNoLog?)
    ensures Good(Apply(s, op))
  {
    var s' := s.(atomic := Apply(s, op).atomic, noLog := Apply(s, op).noLog);
    assert Apply(s, op) == s';
    SameObjectsKeep(s, s', None);
    BookkeepingGood(s, s');
  }

  lemma SetSelfGood(s: State, g: nat, self: bool)
    requires Good(s) && UserMode(s) && g < |s.groups|
    ensures Good(s.(groups := s.groups[g := s.groups[g].(self := self)]))
  {
    var s' := s.(groups := s.groups[g := s.groups[g].(self := self)]);
    assert forall j: nat :: InFree(s', None, j) == InFree(s, None, j);
    assert forall j: nat :: AmongNew(s', None, j) == AmongNew(s, None, j);
    assert forall h: nat, j: nat :: InSched(s', None, h, j) == InSched(s, None, h, j);
    assert forall i :: AtTop(s', None, i) == AtTop(s, None, i);
    forall h: nat | h < |s'.groups| ensures GroupOk(s', h) { assert GroupOk(s, h); }
    BookkeepingGood(s, s');
  }

  lemma NewGroupGood(s: State)
    requires Good(s) && UserMode(s)
    ensures Good(s.(groups := s.groups + [Group(0, false, multiset{}, Off)]))
  {
    var s' := s.(groups := s.groups + [Group(0, false, multiset{}, Off)]);
    assert forall j: nat :: InFree(s', None, j) == InFree(s, None, j);
    assert forall j: nat :: AmongNew(s', None, j) == AmongNew(s, None, j);
    assert forall h: nat, j: nat :: InSched(s', None, h, j) == InSched(s, None, h, j);
    assert forall h: nat :: h < |s.groups| ==> s'.groups[h] == s.groups[h];
    assert forall i :: AtTop(s', None, i) == AtTop(s, None, i);
    forall h: nat | h < |s'.groups| ensures GroupOk(s', h) {
      if h < |s.groups| { assert GroupOk(s, h); }
    }
    BookkeepingGood(s, s');
  }

  lemma ApplyInv(s: State, op: Op)
    requires Inv(s)
    ensures Inv(Apply(s, op))
  {
    if Enabled(s, op) && s.pc != Stuck && s.pc != Halted {
      match op
      case Read(a) => ReadOpInv(s, a);
      case Write(a, v) => WriteOpInv(s, a, v);
      case New(fun, g) => if s.atomic != 0 { NewConsLaterInv(s, fun, g); } else { NewConsNowInv(s, fun, g); }
      case Del(k) => DelConsInv(s, k);
      case OpenAt => NestingGood(s, op);
      case CloseAt => EndAtInv(s);
      case OpenNoLog => NestingGood(s, op);
      case CloseNoLog => NestingGood(s, op);
      case NewGroup => NewGroupGood(s);
      case SetSelf(g, b) => SetSelfGood(s, g, b);
      case EndBody => LeaveInv(s);
      case Turn(item, k) => TurnInv(s, item, k);
    }
  }

  lemma {:induction false} RunInv(s: State, ops: seq<Op>)
    requires Inv(s)
    ensures Inv(Run(s, ops))
    decreases |ops|
  {
    if ops != [] {
      ApplyInv(s, ops[0]);
      RunInv(Apply(s, ops[0]), ops[1..]);
    }
  }

  lemma {:induction false} RunAppend(s: State, ops: seq<Op>, more: seq<Op>)
    ensures Run(s, ops + more) == Run(Run(s, ops), more)
    decreases |ops|
  {
    if ops == [] {
      assert ops + more == more;
    } else {
      assert (ops + more)[1..] == ops[1..] + more;
      RunAppend(Apply(s, ops[0]), ops[1..], more);
    }
  }

  lemma InitInv()
    ensures Inv(Init())
  {
    assert forall a: nat :: ListAt(Init(), a) == [];
  }
}
