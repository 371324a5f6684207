/** The life of constraint objects: queued at most once, freed once, and run in the promised order. */
module DcLifecycle {
  import opened DcState
  import opened DcInv
  import opened DcLog
  import opened DcSched
  import opened DcFlush
  import opened DcSteps
  import opened DcTurn
  import opened DcTheorems

  // ---- exactly one place -----------------------------------------------------------------------

  /** How often `k` occurs in the schedulers of all groups. */
  function InGroups(groups: seq<Group>, k: nat): nat {
    if groups == [] then 0 else groups[0].sched[k] + InGroups(groups[1..], k)
  }

  /** The entries of `k` in the top-level scheduler. */
  function TopEntries(s: State, k: nat): set<Item> {
    set item | item in s.top && item.obj == ConsObj(k)
  }

  lemma {:induction false} InGroupsIs(groups: seq<Group>, k: nat, g: Option<nat>)
    requires forall h: nat :: h < |groups| ==> groups[h].sched[k] == if g == Some(h) then 1 else 0
    ensures InGroups(groups, k) == if g.Some? && g.value < |groups| then 1 else 0
  {
    if groups != [] {
      var g' := if g.Some? && g.value > 0 then Some(g.value - 1) else None;
      forall h: nat | h < |groups[1..]| ensures groups[1..][h].sched[k] == if g' == Some(h) then 1 else 0 {
        assert groups[1..][h] == groups[h + 1];
      }
      InGroupsIs(groups[1..], k, g');
    }
  }

  /** Every constraint object is at rest, or is in exactly one of the free list, the lists of new
      constraints, a group's scheduler and the top-level scheduler, and there exactly once. */
  lemma QueuedExactlyOnce(s: State, k: nat)
    requires Reachable(s) && s.pc != Stuck && s.pc != Halted && k < |s.cons|
    ensures Count(s.freeCons, k) + Count(s.tempList, k) + Count(s.initList, k)
            + InGroups(s.groups, k) + |TopEntries(s, k)|
            == if Unscheduled(s.cons[k].ts) then 0 else 1
    ensures forall item :: item in s.top ==> s.top[item] == 1
  {
    ReachableInv(s);
    var c := s.cons[k];
    InGroupsIs(s.groups, k, if c.place == InGroup then c.group else None);
    assert Count(s.freeCons, k) == InFree(s, None, k);
    assert Count(s.tempList, k) + Count(s.initList, k) == AmongNew(s, None, k);
    forall item ensures item in TopEntries(s, k) <==> c.place == InTop(item.key) && item == Item(item.key, ConsObj(k)) {
      assert s.top[item] == AtTop(s, None, item);
    }
    if c.place.InTop? {
      assert TopEntries(s, k) == {Item(c.place.key, ConsObj(k))};
    } else {
      assert TopEntries(s, k) == {};
    }
    forall item | item in s.top ensures s.top[item] == 1 {
      assert s.top[item] == AtTop(s, None, item);
    }
  }

  // ---- deferred deletion -----------------------------------------------------------------------

  /** `k` was deleted while queued, and is still queued. */
  predicate Condemned(s: State, k: nat) {
    k < |s.cons| && s.cons[k].ts == DEL_TIME_STAMP && s.cons[k].place != Free
  }

  /** The dispatch loop turn frees `k`, which it takes out of its queue, and runs nothing. */
  predicate FreedNow(s: State, s': State, k: nat) {
    k < |s'.cons| && s'.cons[k].place == Free && s'.freeCons == [k] + s.freeCons && s'.pc == Loop && s'.curr == None
  }

  /** Constraint `j` and its place are not touched, nor does it start running. */
  predicate Untouched(s: State, s': State, j: nat) {
    j < |s.cons| && j < |s'.cons| && s'.cons[j] == s.cons[j] && (s'.curr == Some(j) ==> s.curr == Some(j))
  }

  lemma ExecOther(s: State, k: nat, j: nat)
    requires k < |s.cons| && j < |s.cons|
    ensures var s' := ExecCons(s, k);
            && (j != k ==> Untouched(s, s', j))
            && (j == k && Condemned(s, j) && s.pc == Loop && s.curr == None ==> FreedNow(s, s', j))
  {}

  /** The constraint a turn of the dispatch loop takes out of its queue. */
  function Picked(s: State, item: Item, i: nat): Option<nat> {
    if s.initList != [] then Some(s.initList[0])
    else if s.currGroup.Some? && Members(s, s.currGroup.value) != multiset{} then MemberPicked(s, s.currGroup.value, i)
    else if !IsMin(s.top, item) then None
    else match item.obj
      case ConsObj(c) => Some(c)
      case GroupObj(g) => MemberPicked(s, g, i)
  }

  function Members(s: State, g: nat): multiset<nat> { if g < |s.groups| then s.groups[g].sched else multiset{} }

  function MemberPicked(s: State, g: nat, i: nat): Option<nat> { if i in Members(s, g) then Some(i) else None }

  /** A turn frees the condemned constraint `k` if it picks it, and otherwise leaves it alone. */
  ghost predicate FreesIfPicked(s: State, s': State, picked: Option<nat>, k: nat) {
    if picked == Some(k) then FreedNow(s, s', k) else Untouched(s, s', k)
  }

  lemma TurnCondemned(s: State, item: Item, i: nat, k: nat)
    requires Good(s) && s.pc == Loop && Condemned(s, k)
    ensures FreesIfPicked(s, DispatchTurn(s, item, i), Picked(s, item, i), k)
  {
    if s.initList != [] {
      NewCondemned(s, k);
    } else {
      match s.currGroup
      case None => RunTopCondemned(s, item, i, k);
      case Some(g) =>
        if s.groups[g].sched != multiset{} {
          MemberCondemned(s, g, i, k);
        } else {
          LeaveGroupGood(s, g);
          RunTopCondemned(LeaveGroup(s), item, i, k);
          SamePicked(s, g, item, i);
        }
    }
  }

  lemma NewCondemned(s: State, k: nat)
    requires Good(s) && s.pc == Loop && s.initList != [] && Condemned(s, k)
    ensures s.initList[0] < |s.cons| && FreesIfPicked(s, RunNew(s), Some(s.initList[0]), k)
  {
    RunNewInv(s);
    ExecOther(s.(initList := s.initList[1..]), s.initList[0], k);
  }

  lemma SamePicked(s: State, g: nat, item: Item, i: nat)
    requires s.initList == [] && s.currGroup == Some(g) && Members(s, g) == multiset{}
    ensures Picked(LeaveGroup(s), item, i) == Picked(s, item, i)
  {
    assert forall h: nat :: Members(LeaveGroup(s), h) == Members(s, h);
  }

  lemma MemberCondemned(s: State, g: nat, i: nat, k: nat)
    requires Good(s) && s.pc == Loop && g < |s.groups| && Condemned(s, k)
    ensures i in s.groups[g].sched ==> i < |s.cons| && FreesIfPicked(s, RunInGroup(s, g, i), Some(i), k)
  {
    if i in s.groups[g].sched {
      assert s.groups[g].sched[i] == InSched(s, None, g, i);
      ExecOther(s.(groups := s.groups[g := s.groups[g].(sched := s.groups[g].sched - multiset{i})]), i, k);
    }
  }

  lemma RunTopCondemned(s: State, item: Item, i: nat, k: nat)
    requires Good(s) && s.pc == Loop && s.initList == [] && s.currGroup == None && Condemned(s, k)
    ensures FreesIfPicked(s, RunTop(s, item, i), Picked(s, item, i), k)
  {
    if IsMin(s.top, item) {
      match item.obj
      case ConsObj(c) =>
        PickTopConsInv(s, item);
        ExecOther(s.(top := s.top - multiset{item}), c, k);
      case GroupObj(g) =>
        PickGroupGood(s, item);
        MemberCondemned(PickGroup(s, item, g), g, i, k);
    }
  }

  lemma FlushOther(s: State, l: seq<Addr>, k: nat)
    requires FlushInv(s, l) && k < |s.cons| && s.cons[k].place != AtRest
    ensures Untouched(s, Flush(s, l), k)
  {
    FlushKeeps(s, l);
  }

  lemma EndAtOther(s: State, k: nat)
    requires Good(s) && UserMode(s) && k < |s.cons| && s.cons[k].place != AtRest
    ensures Untouched(s, EndAt(s), k)
  {
    if s.curr == None && s.atomic == 1 {
      EndAtFlushes(s);
      FlushOther(Prepared(s.(atomic := 0)), s.wr, k);
    }
  }

  lemma LeaveOther(s: State, k: nat)
    requires Good(s) && s.pc == Body && k < |s.cons| && s.cons[k].place != AtRest
    ensures Untouched(s, Leave(s), k)
  {
    LeaveFlushes(s);
    var p := Prepared(Finishing(s));
    assert p.cons[k] == s.cons[k];
    assert Flush(p, s.wr).cons[k] == p.cons[k];
  }

  lemma WriteOther(s: State, a: Addr, v: Word, k: nat)
    requires Good(s) && UserMode(s) && k < |s.cons| && s.cons[k].place != AtRest
    ensures Untouched(s, WriteOp(s, a, v), k)
  {
    if s.atomic == 0 {
      WriteNowFlushes(s, a, v);
      assert Check(Stored(s, a, v), a).cons[k] == s.cons[k];
    }
  }

  lemma NewConsOther(s: State, fun: nat, g: Option<nat>, k: nat)
    requires Good(s) && UserMode(s) && (g.Some? ==> g.value < |s.groups|)
    requires k < |s.cons| && s.cons[k].place != Free
    ensures Untouched(s, NewCons(s, fun, g), k)
  {
    AllocConsObjects(s, fun, g);
    var s1 := AllocCons(s, fun, g, InNew);
    assert s1.cons[k] == s.cons[k];
    if s.atomic == 0 {
      var s3 := EnterGroup(s1, g);
      assert s3.cons == s1.cons && s3.curr == s.curr;
      assert NewCons(s, fun, g) == ExecCons(s3, NextCons(s));
      ExecOther(s3, NextCons(s), k);
    }
  }

  /** User code and the end of a body leave queued constraints where they are. */
  lemma UserOther(s: State, op: Op, k: nat)
    requires Good(s) && Enabled(s, op) && !op.Turn? && op != Del(k)
    requires k < |s.cons| && s.cons[k].place != AtRest && s.cons[k].place != Free
    ensures Untouched(s, Apply(s, op), k)
  {
    match op
    case Read(a) => ReadStamps(s, a);
    case Write(a, v) => WriteOther(s, a, v, k);
    case New(fun, g) => NewConsOther(s, fun, g, k);
    case Del(j) => assert DelCons(s, j).cons[k] == s.cons[k];
    case CloseAt => EndAtOther(s, k);
    case EndBody => LeaveOther(s, k);
    case _ =>
  }

  /** `op` is a turn of the dispatch loop that takes `k` out of its queue. */
  predicate Takes(s: State, op: Op, k: nat) { op.Turn? && s.pc == Loop && Picked(s, op.item, op.k) == Some(k) }

  lemma CondemnedStep(s: State, op: Op, k: nat, s': State)
    requires Good(s) && Condemned(s, k) && s' == Apply(s, op)
    ensures FreesIfPicked(s, s', if Takes(s, op, k) then Some(k) else None, k)
    ensures Count(s.freeCons, k) == 0 && (Takes(s, op, k) ==> Count(s'.freeCons, k) == 1)
  {
    assert Count(s.freeCons, k) == InFree(s, None, k);
    if Enabled(s, op) {
      if op.Turn? {
        TurnCondemned(s, op.item, op.k, k);
        CountCons(k, s.freeCons);
      } else {
        UserOther(s, op, k);
      }
    }
  }

  /** During the run `k` is not in the free list and never starts running, up to the turn that takes it, if there is
      one; that turn pushes it on the free list, once, and runs nothing. */
  ghost predicate Deferred(s: State, ops: seq<Op>, k: nat)
    decreases |ops|
  {
    && Condemned(s, k) && (s.pc != Stuck && s.pc != Halted ==> Count(s.freeCons, k) == 0)
    && (ops != [] ==>
          var s' := Apply(s, ops[0]);
          if Takes(s, ops[0], k) then FreedNow(s, s', k) && Count(s'.freeCons, k) == 1
          else (s'.curr == Some(k) ==> s.curr == Some(k)) && Deferred(s', ops[1..], k))
  }

  /** Deferred deletion, in every run. */
  lemma {:induction false} DeletedWhileQueued(s: State, ops: seq<Op>, k: nat)
    requires Inv(s) && Condemned(s, k)
    ensures Deferred(s, ops, k)
    decreases |ops|
  {
    if s.pc != Stuck && s.pc != Halted { assert Count(s.freeCons, k) == InFree(s, None, k); }
    if ops != [] {
      var s' := Apply(s, ops[0]);
      ApplyInv(s, ops[0]);
      if s.pc != Stuck && s.pc != Halted { CondemnedStep(s, ops[0], k, s'); }
      if !Takes(s, ops[0], k) { DeletedWhileQueued(s', ops[1..], k); }
    }
  }

  // ---- group exclusivity -----------------------------------------------------------------------

  /** While a group is being executed, the constraint that runs next is the first new constraint, or,
      if there is none, a member of the group. */
  lemma GroupRunsAlone(s: State, s': State, item: Item, i: nat, g: nat)
    requires Reachable(s) && s.pc == Loop && s.currGroup == Some(g)
    requires s' == DispatchTurn(s, item, i) && s'.currGroup == Some(g) && s'.curr.Some?
    ensures var c := s'.curr.value;
            if s.initList != [] then c == s.initList[0] else c < |s.cons| && s.cons[c].group == Some(g)
  {
    ReachableInv(s);
    if s.initList == [] {
      if s.groups[g].sched == multiset{} {
        LeaveGroupGood(s, g);
        LeavesForAnother(LeaveGroup(s), item, i, g);
      } else {
        MemberRuns(s, s', item, i, g);
      }
    } else {
      RunNewInv(s);
    }
  }

  lemma MemberRuns(s: State, s': State, item: Item, i: nat, g: nat)
    requires Good(s) && s.pc == Loop && s.currGroup == Some(g) && s.initList == [] && s.groups[g].sched != multiset{}
    requires s' == DispatchTurn(s, item, i) && s'.curr.Some?
    ensures var c := s'.curr.value; c < |s.cons| && s.cons[c].group == Some(g)
  {
    assert s.groups[g].sched[i] == InSched(s, None, g, i);
  }

  /** The group just left is not picked again. */
  lemma LeavesForAnother(s: State, item: Item, i: nat, g: nat)
    requires Good(s) && s.pc == Loop && s.currGroup == None && g < |s.groups| && s.groups[g].spot == Off
    ensures RunTop(s, item, i).currGroup != Some(g)
  {
    assert s.top[item] == AtTop(s, None, item);
  }

  // ---- counting the constraints of a group -------------------------------------------------------

  /** The constraints of group `g` that have not been deleted. */
  function LiveMembers(s: State, g: nat): set<nat> {
    set k: nat | k < |s.cons| && Live(s, k) && s.cons[k].group == Some(g)
  }

  /** Each group's counter holds the number of its live constraints. */
  ghost predicate CountsOk(s: State, counts: seq<nat>) {
    |counts| == |s.groups| && forall g: nat :: g < |counts| ==> counts[g] == |LiveMembers(s, g)|
  }

  /** The same constraints are live, in the same groups. */
  ghost predicate SameLive(s: State, s': State) {
    && |s'.cons| == |s.cons| && |s'.groups| == |s.groups|
    && forall k: nat :: k < |s.cons| ==> s'.cons[k].group == s.cons[k].group && (Live(s', k) <==> Live(s, k))
  }

  lemma SameLiveCounts(s: State, s': State, counts: seq<nat>)
    requires SameLive(s, s') && CountsOk(s, counts)
    ensures CountsOk(s', counts)
  {
    forall g: nat | g < |counts| ensures LiveMembers(s', g) == LiveMembers(s, g) {}
  }

  lemma FlushLive(p: State, f: State, l: seq<Addr>)
    requires Flushes(p, f, l) && StampsOk(p)
    ensures SameLive(p, f)
  {
    forall k: nat | k < |p.cons| ensures f.cons[k].group == p.cons[k].group && (Live(f, k) <==> Live(p, k)) {
      assert f.cons[k] == p.cons[k] || Enqueued(p, f, k);
    }
  }

  lemma LeaveLive(s: State, s': State)
    requires Good(s) && s.pc == Body && s' == Leave(s)
    ensures SameLive(s, s')
  {
    LeaveFlushes(s);
    FinishingFlushInv(s);
    var p := Prepared(Finishing(s));
    FlushLive(p, Flush(p, s.wr), s.wr);
    SameLiveTwice(s, p, Flush(p, s.wr), s');
  }

  lemma SameLiveTwice(s: State, p: State, f: State, s': State)
    requires p.cons == Remember(s).cons && p.groups == s.groups && SameLive(p, f) && s'.cons == f.cons
        && s'.groups == f.groups
    ensures SameLive(s, s')
  {
    forall k: nat | k < |s.cons| ensures s'.cons[k].group == s.cons[k].group && (Live(s', k) <==> Live(s, k)) {
      assert f.cons[k].group == p.cons[k].group && (Live(f, k) <==> Live(p, k));
    }
  }

  lemma EndAtLive(s: State, s': State)
    requires Good(s) && UserMode(s) && s' == EndAt(s)
    ensures SameLive(s, s')
  {
    if s.curr == None && s.atomic == 1 {
      EndAtFlushes(s);
      var p := Prepared(s.(atomic := 0));
      FlushLive(p, Flush(p, s.wr), s.wr);
    }
  }

  lemma WriteLive(s: State, a: Addr, v: Word, s': State)
    requires Good(s) && UserMode(s) && s' == WriteOp(s, a, v)
    ensures SameLive(s, s')
  {
    if s.atomic == 0 {
      WriteNowFlushes(s, a, v);
      FlushLive(Stored(s, a, v), Check(Stored(s, a, v), a), [a]);
    }
  }

  /** Executing a constraint that was in a queue. */
  lemma ExecLive(s: State, k: nat, s': State)
    requires k < |s.cons| && s.cons[k].place != Free && s' == ExecCons(s, k)
    ensures SameLive(s, s')
  {}

  lemma MemberLive(s: State, g: nat, i: nat, s': State)
    requires ConsOk(s, None) && g < |s.groups| && i in s.groups[g].sched && i < |s.cons| && s' == RunInGroup(s, g, i)
    ensures SameLive(s, s')
  {
    assert s.groups[g].sched[i] == InSched(s, None, g, i);
    ExecLive(s.(groups := s.groups[g := s.groups[g].(sched := s.groups[g].sched - multiset{i})]), i, s');
  }

  lemma NewLive(s: State, s': State)
    requires Good(s) && s.pc == Loop && s.initList != [] && s.initList[0] < |s.cons| && s' == RunNew(s)
    ensures SameLive(s, s')
  {
    var h := s.initList[0];
    assert s.initList == [h] + s.initList[1..];
    CountCons(h, s.initList[1..]);
    assert Count(s.tempList, h) + Count(s.initList, h) == AmongNew(s, None, h);
    ExecLive(s.(initList := s.initList[1..]), h, s');
  }

  lemma TurnLive(s: State, item: Item, i: nat, s': State)
    requires Good(s) && s.pc == Loop && s' == DispatchTurn(s, item, i)
    ensures SameLive(s, s')
  {
    if s.initList != [] {
      RunNewInv(s);
      NewLive(s, s');
    } else {
      match s.currGroup
      case None => TopLive(s, item, i, s');
      case Some(g) =>
        if s.groups[g].sched != multiset{} {
          if i in s.groups[g].sched && i < |s.cons| { MemberLive(s, g, i, s'); }
        } else {
          LeaveGroupGood(s, g);
          TopLive(LeaveGroup(s), item, i, s');
        }
    }
  }

  lemma TopLive(s: State, item: Item, i: nat, s': State)
    requires Good(s) && s.pc == Loop && s.initList == [] && s.currGroup == None && s' == RunTop(s, item, i)
    ensures SameLive(s, s')
  {
    if IsMin(s.top, item) {
      assert s.top[item] == AtTop(s, None, item);
      match item.obj
      case ConsObj(c) => ExecLive(s.(top := s.top - multiset{item}), c, s');
      case GroupObj(g) =>
        PickGroupGood(s, item);
        if i in s.groups[g].sched && i < |s.cons| { MemberLive(PickGroup(s, item, g), g, i, s'); }
    }
  }

  /** Only creating and deleting constraints changes what the counters count. */
  lemma OtherLive(s: State, op: Op, s': State)
    requires Good(s) && Enabled(s, op) && !op.New? && !op.Del? && !op.NewGroup? && s' == Apply(s, op)
    ensures SameLive(s, s')
  {
    match op
    case Write(a, v) => WriteLive(s, a, v, s');
    case CloseAt => EndAtLive(s, s');
    case EndBody => LeaveLive(s, s');
    case Turn(item, i) => TurnLive(s, item, i, s');
    case _ => SmallLive(s, op, s');
  }

  lemma SmallLive(s: State, op: Op, s': State)
    requires Enabled(s, op) && (op.Read? || op.OpenAt? || op.OpenNoLog? || op.CloseNoLog? || op.SetSelf?)
        && s' == Apply(s, op)
    ensures SameLive(s, s')
  {
    if op.Read? {
      ReadStamps(s, op.a);
      assert ReadOp(s, op.a).groups == s.groups;
    }
  }

  /** The counter of its group goes up for a new constraint. */
  lemma NewCounts(s: State, fun: nat, g: Option<nat>, s': State, counts: seq<nat>)
    requires Good(s) && UserMode(s) && (g.Some? ==> g.value < |s.groups|) && s' == NewCons(s, fun, g)
        && CountsOk(s, counts)
    ensures CountsOk(s', if g.Some? then counts[g.value := counts[g.value] + 1] else counts)
  {
    var k := NextCons(s);
    AllocConsObjects(s, fun, g);
    var s1 := AllocCons(s, fun, g, InNew);
    AllocLive(s, fun, g, s1, counts);
    if s.atomic == 0 {
      ExecLive(EnterGroup(s1, g), k, s');
    }
    assert SameLive(s1, s');
    SameLiveCounts(s1, s', if g.Some? then counts[g.value := counts[g.value] + 1] else counts);
  }

  lemma AllocLive(s: State, fun: nat, g: Option<nat>, s1: State, counts: seq<nat>)
    requires ConsOk(s, None) && GroupsOk(s) && (g.Some? ==> g.value < |s.groups|)
        && s1 == AllocCons(s, fun, g, InNew) && CountsOk(s, counts)
    ensures CountsOk(s1, if g.Some? then counts[g.value := counts[g.value] + 1] else counts)
  {
    AllocConsObjects(s, fun, g);
    assert s1.groups == s.groups;
    forall h: nat | h < |counts| ensures |LiveMembers(s1, h)| == counts[h] + if g == Some(h) then 1 else 0 {
      OneMore(s, s1, NextCons(s), g, h);
    }
  }

  lemma OneMore(s: State, s1: State, k: nat, g: Option<nat>, h: nat)
    requires k < |s1.cons| && k <= |s.cons| <= |s1.cons| && Live(s1, k) && s1.cons[k].group == g && !Live(s, k)
    requires forall j: nat :: j < |s1.cons| && j != k ==> j < |s.cons| && s1.cons[j] == s.cons[j]
    ensures |LiveMembers(s1, h)| == |LiveMembers(s, h)| + if g == Some(h) then 1 else 0
  {
    assert LiveMembers(s1, h) == LiveMembers(s, h) + if g == Some(h) then {k} else {};
    assert k !in LiveMembers(s, h);
  }

  lemma OneLess(s: State, s': State, k: nat, h: nat)
    requires Live(s, k) && |s'.cons| == |s.cons| && !Live(s', k)
    requires forall j: nat :: j < |s.cons| && j != k ==> s'.cons[j] == s.cons[j]
    ensures |LiveMembers(s, h)| == |LiveMembers(s', h)| + if s.cons[k].group == Some(h) then 1 else 0
  {
    assert LiveMembers(s, h) == LiveMembers(s', h) + if s.cons[k].group == Some(h) then {k} else {};
    assert k !in LiveMembers(s', h);
  }

  /** And down when one is deleted, be it queued or not. */
  lemma DelCounts(s: State, k: nat, s': State, counts: seq<nat>)
    requires Good(s) && Live(s, k) && s' == DelCons(s, k) && CountsOk(s, counts)
    ensures var g := s.cons[k].group;
            && (g.Some? ==> g.value < |counts| && counts[g.value] > 0)
            && CountsOk(s', if g.Some? then counts[g.value := counts[g.value] - 1] else counts)
  {
    assert s'.groups == s.groups;
    forall h: nat | h < |counts|
        ensures counts[h] == |LiveMembers(s', h)| + if s.cons[k].group == Some(h) then 1 else 0 {
      OneLess(s, s', k, h);
    }
  }

  /** All other steps of a run leave the counters alone. */
  lemma StepCounts(s: State, op: Op, counts: seq<nat>)
    requires Reachable(s) && CountsOk(s, counts) && !op.New? && !op.Del? && !op.NewGroup?
    ensures CountsOk(Apply(s, op), counts)
  {
    ReachableInv(s);
    if Enabled(s, op) {
      OtherLive(s, op, Apply(s, op));
      SameLiveCounts(s, Apply(s, op), counts);
    }
  }

  lemma NewGroupCounts(s: State, s': State, counts: seq<nat>)
    requires Good(s) && UserMode(s) && s' == Apply(s, NewGroup) && CountsOk(s, counts)
    ensures CountsOk(s', counts + [0])
  {
    forall g: nat | g < |counts| ensures LiveMembers(s', g) == LiveMembers(s, g) {}
    assert LiveMembers(s', |counts|) == {};
  }
}
