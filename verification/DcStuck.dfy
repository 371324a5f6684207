/** When a group is entered and its scheduler has nothing to run.
    A group is queued at top level even if its only triggered member was the exempt running
    constraint; the dispatch loop then asks an empty scheduler for a constraint. */
module DcStuck {
  import opened DcState
  import opened DcInv
  import opened DcSched
  import opened DcFlush
  import opened DcSteps
  import opened DcTurn
  import opened DcTheorems

  /** Every group queued at top level has a member to run. */
  ghost predicate NonEmpty(s: State) {
    forall g: nat :: g < |s.groups| && s.groups[g].spot.Queued? ==> s.groups[g].sched != multiset{}
  }

  /** The running constraint belongs to `g` and does not trigger itself. */
  predicate ExemptIn(s: State, g: nat) {
    s.curr.Some? && !s.selfTrigger && Resting(s, s.curr.value) && s.cons[s.curr.value].group == Some(g)
  }

  /** A member of `g` has been queued between `s` and `s'`. */
  ghost predicate MemberQueued(s: State, s': State, g: nat) {
    exists j: nat :: Enqueued(s, s', j) && s.cons[j].group == Some(g)
  }

  /** What scanning dependents does to group `g`; `woken` if the exempt constraint was among them. */
  ghost predicate Regroups(s: State, s': State, woken: bool, g: nat)
    requires g < |s.groups| && g < |s'.groups|
  {
    var was, now := s.groups[g], s'.groups[g];
    && (now.spot == was.spot || (was.spot == Off && now.spot == Queued(was.ts)))
    && (now.spot == was.spot ==> now.ts == was.ts)
    && was.sched <= now.sched
    && (was.spot == Off && now.spot != Off ==> MemberQueued(s, s', g) || (woken && ExemptIn(s, g)))
    && (woken && ExemptIn(s, g) ==> now.spot != Off)
  }

  ghost predicate GroupFlush(s: State, s': State, woken: bool) {
    && |s'.groups| == |s.groups|
    && (forall g: nat :: g < |s.groups| ==> Regroups(s, s', woken, g))
  }

  lemma ExemptStays(s: State, s': State, g: nat)
    requires |s'.cons| == |s.cons| && s'.curr == s.curr && s'.selfTrigger == s.selfTrigger
    requires forall k: nat :: k < |s.cons| ==> s'.cons[k] == s.cons[k] || Enqueued(s, s', k)
    ensures ExemptIn(s', g) <==> ExemptIn(s, g)
  {
    if s.curr.Some? && s.curr.value < |s.cons| {
      var k := s.curr.value;
      assert s'.cons[k] == s.cons[k] || Enqueued(s, s', k);
    }
  }

  lemma GroupFlushCompose(s: State, s1: State, s': State, w1: bool, w2: bool)
    requires GroupFlush(s, s1, w1) && GroupFlush(s1, s', w2)
    requires s1.curr == s.curr && s1.selfTrigger == s.selfTrigger && |s1.cons| == |s.cons| == |s'.cons|
    requires forall k: nat :: k < |s.cons| ==> s1.cons[k] == s.cons[k] || Enqueued(s, s1, k)
    requires forall k: nat :: k < |s.cons| ==> s'.cons[k] == s1.cons[k] || Enqueued(s1, s', k)
    ensures GroupFlush(s, s', w1 || w2)
  {
    var w := w1 || w2;
    forall g: nat | g < |s.groups| ensures Regroups(s, s', w, g) {
      assert Regroups(s, s1, w1, g) && Regroups(s1, s', w2, g);
      ExemptStays(s, s1, g);
      if MemberQueued(s, s1, g) {
        var j: nat :| Enqueued(s, s1, j) && s.cons[j].group == Some(g);
        assert s'.cons[j] == s1.cons[j] || Enqueued(s1, s', j);
        assert Enqueued(s, s', j);
      }
      if MemberQueued(s1, s', g) {
        var j: nat :| Enqueued(s1, s', j) && s1.cons[j].group == Some(g);
        assert s1.cons[j] == s.cons[j] || Enqueued(s, s1, j);
        assert Enqueued(s, s', j);
      }
    }
  }

  lemma TriggerRegroups(s: State, k: nat)
    requires ConsOk(s, None) && GroupsOk(s) && Resting(s, k)
    ensures GroupFlush(s, Trigger(s, k), !Triggers(s, k))
  {
    TriggerKeeps(s, k);
    var s1 := if Triggers(s, k) then QueueCons(s, k) else s;
    var s' := Trigger(s, k);
    QueueConsGroups(s, k);
    var exempt := !Triggers(s, k);
    forall g: nat | g < |s.groups| ensures Regroups(s, s', exempt, g) {
      assert GroupOk(s, g);
      if s.cons[k].group == Some(g) { TriggerOwnGroup(s, s1, s', k, g); } else { TriggerOtherGroup(s, s1, s', k, g); }
    }
  }

  lemma TriggerOtherGroup(s: State, s1: State, s': State, k: nat, g: nat)
    requires Resting(s, k) && g < |s.groups| && s.cons[k].group != Some(g)
    requires s1.groups == s'.groups || (s.cons[k].group.Some? && s' == QueueGroup(s1, s.cons[k].group.value))
    requires |s1.groups| == |s.groups| && s1.groups[g] == s.groups[g]
    requires !Triggers(s, k) ==> s.curr == Some(k)
    ensures |s'.groups| == |s.groups| && Regroups(s, s', !Triggers(s, k), g)
  {}

  lemma TriggerOwnGroup(s: State, s1: State, s': State, k: nat, g: nat)
    requires StampsOk(s) && Resting(s, k) && s.cons[k].group == Some(g) && g < |s.groups| && GroupOk(s, g)
    requires s1 == if Triggers(s, k) then QueueCons(s, k) else s
    requires s' == QueueGroup(s1, g)
    requires Triggers(s, k) ==> Enqueued(s, s', k)
    requires !Triggers(s, k) ==> !s.selfTrigger && s.curr == Some(k)
    ensures Regroups(s, s', !Triggers(s, k), g)
  {}

  lemma {:induction false} ScanRegroups(s: State, l: seq<nat>)
    requires NodesOk(s) && ConsOk(s, None) && GroupsOk(s) && Scannable(s, l)
    ensures GroupFlush(s, Scan(s, l), s.curr.Some? && !s.selfTrigger
        && exists n: nat :: n in l && FreshFor(s, n, s.curr.value))
    decreases |l|
  {
    if l != [] {
      assert l[0] in l;
      var n := l[0];
      ScanOne(s, n);
      var s1 := if UpToDate(s, n) then Trigger(s, s.nodes[n].cons) else s;
      if UpToDate(s, n) {
        assert Resting(s, s.nodes[n].cons);
        TriggerRegroups(s, s.nodes[n].cons);
      }
      QueuesFresh(s, s1);
      ScanKeeps(s1, l[1..]);
      ScanRegroups(s1, l[1..]);
      var w1 := UpToDate(s, n) && !Triggers(s, s.nodes[n].cons);
      var w2 := s.curr.Some? && !s.selfTrigger && exists m: nat :: m in l[1..] && FreshFor(s1, m, s.curr.value);
      GroupFlushCompose(s, s1, Scan(s, l), w1, w2);
      ScanWoken(s, s1, l, w1, w2);
    }
  }

  lemma ScanWoken(s: State, s1: State, l: seq<nat>, w1: bool, w2: bool)
    requires NodesOk(s) && StampsOk(s) && l != [] && Queues(s, s1) && Scannable(s, l)
    requires w1 == (UpToDate(s, l[0]) && !Triggers(s, s.nodes[l[0]].cons))
    requires w2 == (s.curr.Some? && !s.selfTrigger && exists m: nat :: m in l[1..] && FreshFor(s1, m, s.curr.value))
    ensures w1 || w2 <==> s.curr.Some? && !s.selfTrigger && exists n: nat :: n in l && FreshFor(s, n, s.curr.value)
  {
    assert l[0] in l;
    if s.curr.Some? && !s.selfTrigger {
      var c := s.curr.value;
      assert c < |s.cons| ==> s1.cons[c] == s.cons[c];
      assert forall m: nat :: c < |s.cons| ==> (FreshFor(s1, m, c) <==> FreshFor(s, m, c));
      if exists n: nat :: n in l && FreshFor(s, n, c) {
        var n: nat :| n in l && FreshFor(s, n, c);
        assert c < |s.cons|;
        assert n == l[0] || n in l[1..];
      }
      if w2 {
        var m: nat :| m in l[1..] && FreshFor(s1, m, c);
        assert m in l && s.nodes[m].cons == c;
      }
      if w1 { assert FreshFor(s, l[0], c); }
    }
  }

  /** Whether the exempt running constraint logged a changed cell of `l`. */
  ghost predicate CurrWoken(s: State, l: seq<Addr>) {
    s.curr.Some? && !s.selfTrigger && Resting(s, s.curr.value) && Woken(s, s.curr.value, l)
  }

  lemma CheckRegroups(s: State, a: Addr)
    requires FlushInv(s, [a]) || exists l: seq<Addr> :: FlushInv(s, [a] + l)
    ensures GroupFlush(s, Check(SetFlag(s, a, Untouched), a), CurrWoken(s, [a]))
  {
    assert a in [a];
    if Changed(s, a) {
      CheckSteps(s, a);
      CheckIsScan(s, a);
      var s0 := Noted(s, a);
      NotedKeeps(s, a);
      ScanNoted(s, s0, a);
      ScanRegroups(s0, ListAt(s0, a));
      var s2 := Scan(s0, ListAt(s0, a));
      RegroupsFrame(s, s0, s2, Check(SetFlag(s, a, Untouched), a), CurrWoken(s, [a]));
    } else {
      assert !CurrWoken(s, [a]);
      var s' := SetFlag(s, a, Untouched);
      forall g: nat | g < |s.groups| ensures Regroups(s, s', false, g) {}
    }
  }

  lemma ScanNoted(s: State, s0: State, a: Addr)
    requires Core(s) && DepOk(s) && CurrFlush(s) && s0 == Noted(s, a) && Core(s0) && SameStore(s, s0) && Changed(s, a)
    ensures Scannable(s0, ListAt(s0, a))
    ensures CurrWoken(s, [a]) <==>
            s0.curr.Some? && !s0.selfTrigger && exists n: nat :: n in ListAt(s0, a) && FreshFor(s0, n, s0.curr.value)
  {
    forall n: nat | n in ListAt(s0, a)
      ensures n < |s0.nodes| && s0.nodes[n].ts <= s0.time && s0.nodes[n].cons < |s0.cons|
    { assert Listed(s0, a, n); }
    assert a in [a];
    if s.curr.Some? && !s.selfTrigger {
      var c := s.curr.value;
      assert forall n: nat :: Listed(s, a, n) <==> n in ListAt(s0, a);
      assert forall n: nat :: FreshFor(s0, n, c) <==> FreshFor(s, n, c);
      if Resting(s, c) {
        SeenIsFresh(s, c, a);
      } else {
        assert forall n: nat :: n in ListAt(s0, a) ==> !FreshFor(s, n, c);
      }
    }
  }

  lemma RegroupsFrame(s: State, s0: State, s2: State, s': State, woken: bool)
    requires GroupFlush(s0, s2, woken)
    requires s0.groups == s.groups && s0.cons == s.cons && s0.curr == s.curr && s0.selfTrigger == s.selfTrigger
    requires s'.groups == s2.groups && s'.cons == s2.cons
    ensures GroupFlush(s, s', woken)
  {
    forall g: nat | g < |s.groups| ensures Regroups(s, s', woken, g) {
      assert Regroups(s0, s2, woken, g);
      if MemberQueued(s0, s2, g) {
        var j: nat :| Enqueued(s0, s2, j) && s0.cons[j].group == Some(g);
        assert Enqueued(s, s', j);
      }
    }
  }

  lemma {:induction false} FlushRegroups(s: State, l: seq<Addr>)
    requires FlushInv(s, l)
    ensures GroupFlush(s, Flush(s, l), CurrWoken(s, l))
    decreases |l|
  {
    if l != [] {
      assert l == [l[0]] + l[1..];
      CheckKeeps(s, l[0], l[1..]);
      CheckRegroups(s, l[0]);
      var s1 := Check(SetFlag(s, l[0], Untouched), l[0]);
      FlushRegroups(s1, l[1..]);
      FlushKeeps(s1, l[1..]);
      var w1, w2 := CurrWoken(s, [l[0]]), CurrWoken(s1, l[1..]);
      GroupFlushCompose(s, s1, Flush(s, l), w1, w2);
      CurrWokenSplits(s, s1, l[0], l[1..]);
    } else {
      assert !CurrWoken(s, l);
      forall g: nat | g < |s.groups| ensures Regroups(s, s, false, g) {}
    }
  }

  lemma CurrWokenSplits(s: State, s1: State, a: Addr, l: seq<Addr>)
    requires Flushes(s, s1, [a])
    ensures CurrWoken(s, [a] + l) <==> CurrWoken(s, [a]) || CurrWoken(s1, l)
  {
    if s.curr.Some? && s.curr.value < |s.cons| {
      var k := s.curr.value;
      WokenSplits(s, s1, k, a, l);
      assert s1.cons[k] == s.cons[k] || Enqueued(s, s1, k);
    }
  }

  // ---- queued groups have members --------------------------------------------------------------

  lemma QueuedMember(s: State, s': State, g: nat)
    requires ConsOk(s', None) && g < |s'.groups| && |s'.cons| == |s.cons| && MemberQueued(s, s', g)
    ensures s'.groups[g].sched != multiset{}
  {
    var j: nat :| Enqueued(s, s', j) && s.cons[j].group == Some(g);
    assert s'.groups[g].sched[j] == InSched(s', None, g, j);
  }

  /** Without an exempt constraint that changes what it logged, queued groups stay non-empty. */
  lemma FlushNonEmpty(s: State, s': State, woken: bool)
    requires NonEmpty(s) && GroupFlush(s, s', woken) && ConsOk(s', None) && |s'.cons| == |s.cons|
    ensures forall g: nat :: g < |s'.groups| && s'.groups[g].spot.Queued? && s'.groups[g].sched == multiset{} ==>
              woken && ExemptIn(s, g) && s.groups[g].spot == Off
  {
    forall g: nat | g < |s'.groups| && s'.groups[g].spot.Queued? && s'.groups[g].sched == multiset{}
      ensures woken && ExemptIn(s, g) && s.groups[g].spot == Off
    {
      assert Regroups(s, s', woken, g);
      if MemberQueued(s, s', g) { QueuedMember(s, s', g); }
    }
  }

  /** The running constraint `k`, which was first run while its group was neither current nor queued,
      changed a cell it logged, and no other member of the group logged a cell that changed. */
  ghost predicate SelfOnly(s: State, k: nat, g: nat)
    requires k < |s.cons| && g < |s.groups|
  {
    && s.curr == Some(k) && ExemptIn(s, g) && s.groups[g].spot == Off
    && (exists a: nat :: a in s.rd && CellAt(s, a).val != MemAt(s, a))
    && (forall j: nat :: Resting(s, j) && j != k && s.cons[j].group == Some(g) ==> !Outdated(s, j))
  }

  /** `j` logged a cell that no longer holds the value its execution left. */
  ghost predicate Outdated(s: State, j: nat)
    requires j < |s.cons|
  {
    exists a: nat :: a in s.cons[j].seen && s.cons[j].seen[a] != MemAt(s, a)
  }

  /** Exactly when the end of a body queues a group with nothing to run. */
  lemma EmptyGroupExactly(s: State, k: nat, g: nat)
    requires Good(s) && NonEmpty(s) && s.pc == Body && s.curr == Some(k) && g < |s.groups|
    ensures g < |Leave(s).groups|
    ensures Leave(s).groups[g].spot.Queued? && Leave(s).groups[g].sched == multiset{} <==> SelfOnly(s, k, g)
  {
    LeaveFlushes(s);
    LeaveInv(s);
    FinishingFlushInv(s);
    var p := Prepared(Finishing(s));
    var f := Flush(p, s.wr);
    FlushRegroups(p, s.wr);
    FlushKeeps(p, s.wr);
    PreparedAlike(s, p, k, g);
    FlushNonEmpty(p, f, CurrWoken(p, s.wr));
    if SelfOnly(s, k, g) {
      assert Regroups(p, f, CurrWoken(p, s.wr), g);
      SelfOnlyIsEmpty(s, p, f, k, g);
    }
    if f.groups[g].spot.Queued? && f.groups[g].sched == multiset{} {
      EmptyIsSelfOnly(s, p, f, k, g);
    }
  }

  lemma EmptyIsSelfOnly(s: State, p: State, f: State, k: nat, g: nat)
    requires MemOk(s) && DepOk(s) && s.curr == Some(k) && k < |s.cons| && g < |s.groups|
    requires p.mem == s.mem && p.curr == s.curr && p.selfTrigger == s.selfTrigger && |p.cons| == |s.cons|
    requires forall a: nat :: CellAt(p, a).val == CellAt(s, a).val
    requires forall j: nat :: j < |s.cons| && j != k ==> p.cons[j] == s.cons[j]
    requires Flushes(p, f, s.wr) && ConsOk(f, None) && g < |f.groups| && f.groups[g].sched == multiset{}
    requires ExemptIn(s, g) && s.groups[g].spot == Off
    requires exists a: nat :: a in s.rd && CellAt(s, a).val != MemAt(s, a)
    ensures SelfOnly(s, k, g)
  {
    forall j: nat | Resting(s, j) && j != k && s.cons[j].group == Some(g) ensures !Outdated(s, j) {
      WokenByOthers(s, p, j);
      assert f.cons[j] == p.cons[j] || Enqueued(p, f, j);
      assert f.groups[g].sched[j] == InSched(f, None, g, j);
    }
  }

  lemma SelfOnlyIsEmpty(s: State, p: State, f: State, k: nat, g: nat)
    requires MemOk(s) && DepOk(s) && s.curr == Some(k) && k < |s.cons| && g < |s.groups| && SelfOnly(s, k, g)
    requires p.mem == s.mem && p.curr == s.curr && p.selfTrigger == s.selfTrigger && |p.cons| == |s.cons|
    requires p.groups == s.groups && Resting(p, k)
    requires forall a: nat :: CellAt(p, a).val == CellAt(s, a).val
    requires forall j: nat :: j < |s.cons| && j != k ==> p.cons[j] == s.cons[j]
    requires Flushes(p, f, s.wr) && ConsOk(f, None) && ConsOk(p, None) && GroupsOk(p) && g < |f.groups|
    requires f.groups[g].spot != Off && Regroups(p, f, true, g)
    ensures f.groups[g].spot.Queued? && f.groups[g].sched == multiset{}
  {
    assert GroupOk(p, g);
    forall j: nat ensures f.groups[g].sched[j] == 0 {
      assert f.groups[g].sched[j] == InSched(f, None, g, j) && p.groups[g].sched[j] == InSched(p, None, g, j);
      if j < |s.cons| && f.cons[j] != p.cons[j] {
        assert Enqueued(p, f, j);
        if s.cons[j].group == Some(g) && j != k { WokenByOthers(s, p, j); }
      }
    }
    assert f.groups[g].sched == multiset{};
  }

  /** The state in which the flush starts is like the state in which the body ended. */
  lemma PreparedAlike(s: State, p: State, k: nat, g: nat)
    requires Good(s) && NonEmpty(s) && s.pc == Body && s.curr == Some(k) && g < |s.groups|
    requires p == s.(noLog := 1, initList := s.tempList + s.initList, tempList := [], rd := [],
                     cells := p.cells, cons := Remember(s).cons)
    requires forall a: nat :: CellAt(p, a).val == CellAt(s, a).val
    ensures NonEmpty(p) && (ExemptIn(p, g) <==> ExemptIn(s, g))
    ensures forall j: nat :: j < |s.cons| && j != k ==> p.cons[j] == s.cons[j]
    ensures ExemptIn(s, g) ==>
              (CurrWoken(p, s.wr) <==> exists a: nat :: a in s.rd && CellAt(s, a).val != MemAt(s, a))
  {
    if ExemptIn(s, g) {
      assert p.cons[k].seen.Keys == Cells(s.rd);
      WokenByItself(s, p, k);
    }
  }

  // ---- every other operation -------------------------------------------------------------------

  lemma EndAtNonEmpty(s: State)
    requires Good(s) && NonEmpty(s) && UserMode(s)
    ensures NonEmpty(EndAt(s))
  {
    if s.curr == None && s.atomic == 1 {
      var s1 := s.(atomic := 0);
      NoLogKeeps(s, s1);
      PreparedFlushInv(s1);
      PreparedShape(s1);
      FlushRegroups(Prepared(s1), s1.wr);
      FlushKeeps(Prepared(s1), s1.wr);
      FlushNonEmpty(Prepared(s1), Flush(Prepared(s1), s1.wr), CurrWoken(Prepared(s1), s1.wr));
    }
  }

  lemma WriteNonEmpty(s: State, a: Addr, v: Word)
    requires Good(s) && NonEmpty(s) && UserMode(s)
    ensures NonEmpty(WriteOp(s, a, v))
  {
    if s.atomic == 0 {
      WriteNowFlushes(s, a, v);
      var s0 := Stored(s, a, v);
      CheckKeeps(s0, a, []);
      CheckRegroups(s0, a);
      FlushNonEmpty(s0, Check(s0, a), CurrWoken(s0, [a]));
    }
  }

  lemma WriteNotStuck(s: State, a: Addr, v: Word)
    requires UserMode(s)
    ensures WriteOp(s, a, v).pc != Stuck
  {
    var s0 := s.(mem := s.mem[a := v], trace := if s.pc == Body then s.trace + [Wr(a, v)] else s.trace);
    var s1 := s0.(cells := s0.cells[a := CellAt(s0, a).(val := MemAt(s0, a))]);
    ScanKeepsPc(s1, ListAt(s1, a));
  }

  lemma {:induction false} ScanKeepsPc(s: State, l: seq<nat>)
    ensures Scan(s, l).pc == s.pc
    decreases |l|
  {
    if l != [] { ScanKeepsPc(if UpToDate(s, l[0]) then Trigger(s, s.nodes[l[0]].cons) else s, l[1..]); }
  }

  lemma NewConsNonEmpty(s: State, fun: nat, g: Option<nat>)
    requires Good(s) && NonEmpty(s) && UserMode(s) && (g.Some? ==> g.value < |s.groups|)
    ensures NonEmpty(NewCons(s, fun, g))
  {
    AllocConsObjects(s, fun, g);
    var s1 := AllocCons(s, fun, g, InNew);
    if s.atomic == 0 {
      var s3 := EnterGroup(s1, g);
      assert NewCons(s, fun, g) == ExecCons(s3, NextCons(s));
      assert ExecCons(s3, NextCons(s)).groups == s3.groups;
    }
  }

  lemma RunTopNonEmpty(s: State, item: Item, k: nat)
    requires Good(s) && NonEmpty(s) && s.pc == Loop && s.currGroup == None
    ensures NonEmpty(RunTop(s, item, k))
    ensures RunTop(s, item, k).pc != Stuck
  {
    if s.top != multiset{} && IsMin(s.top, item) {
      match item.obj
      case ConsObj(c) =>
      case GroupObj(g) =>
        PickGroupGood(s, item);
        assert s.top[item] == AtTop(s, None, item);
        PickNonEmpty(s, PickGroup(s, item, g), g, k);
    }
  }

  lemma PickNonEmpty(s: State, s': State, g: nat, k: nat)
    requires NonEmpty(s) && g < |s.groups| && s'.groups == s.groups[g := s.groups[g].(spot := Current)]
    ensures NonEmpty(s')
    ensures k < |s'.cons| ==> NonEmpty(RunInGroup(s', g, k)) && RunInGroup(s', g, k).pc in {s'.pc, Body, Halted}
  {}

  lemma TurnNonEmpty(s: State, item: Item, k: nat)
    requires Good(s) && NonEmpty(s) && s.pc == Loop
    ensures NonEmpty(DispatchTurn(s, item, k)) && DispatchTurn(s, item, k).pc != Stuck
  {
    if s.initList == [] {
      match s.currGroup
      case None => RunTopNonEmpty(s, item, k);
      case Some(g) =>
        assert GroupOk(s, g);
        if s.groups[g].sched == multiset{} {
          LeaveGroupGood(s, g);
          assert NonEmpty(LeaveGroup(s));
          RunTopNonEmpty(LeaveGroup(s), item, k);
        }
    }
  }

  lemma LeaveNonEmpty(s: State)
    requires Good(s) && NonEmpty(s) && s.pc == Body
    requires forall g: nat :: g < |s.groups| ==> !SelfOnly(s, s.curr.value, g)
    ensures NonEmpty(Leave(s)) && Leave(s).pc == Loop
  {
    LeaveFlushes(s);
    forall g: nat | g < |Leave(s).groups| && Leave(s).groups[g].spot.Queued?
      ensures Leave(s).groups[g].sched != multiset{}
    { EmptyGroupExactly(s, s.curr.value, g); }
  }

  lemma QuietNonEmpty(s: State, op: Op)
    requires NonEmpty(s) && s.pc != Stuck && (op.Del? || op.OpenAt? || op.OpenNoLog? || op.CloseNoLog?
        || op.NewGroup? || op.SetSelf?)
    ensures NonEmpty(Apply(s, op)) && Apply(s, op).pc == s.pc
  {
  }

  lemma ReadNonEmpty(s: State, a: Addr)
    requires NonEmpty(s)
    ensures NonEmpty(ReadOp(s, a)) && ReadOp(s, a).pc == s.pc
  {
    assert ReadOp(s, a).groups == s.groups;
  }

  /** No operation gets the dispatch loop stuck, or lets it get stuck later, but the end of a body that
      changes only what it logged itself. */
  lemma ApplyNonEmpty(s: State, op: Op)
    requires Good(s) && NonEmpty(s) && Enabled(s, op)
    requires op.EndBody? ==> forall g: nat :: g < |s.groups| ==> !SelfOnly(s, s.curr.value, g)
    ensures NonEmpty(Apply(s, op)) && Apply(s, op).pc != Stuck
  {
    match op
    case Read(a) => ReadNonEmpty(s, a);
    case Write(a, v) => WriteNonEmpty(s, a, v); WriteNotStuck(s, a, v);
    case New(fun, g) => NewConsNonEmpty(s, fun, g);
    case CloseAt => EndAtNonEmpty(s);
    case EndBody => LeaveNonEmpty(s);
    case Turn(item, k) => TurnNonEmpty(s, item, k);
    case _ => QuietNonEmpty(s, op);
  }

  /** At the end of no body of the run is a group left to be entered in vain. */
  ghost predicate NeverSelfOnly(s: State, ops: seq<Op>)
    decreases |ops|
  {
    ops != [] ==>
      && (ops[0].EndBody? && s.pc == Body && s.curr.Some? && s.curr.value < |s.cons| ==>
            forall g: nat :: g < |s.groups| ==> !SelfOnly(s, s.curr.value, g))
      && NeverSelfOnly(Apply(s, ops[0]), ops[1..])
  }

  lemma {:induction false} RunNonEmpty(s: State, ops: seq<Op>)
    requires Inv(s) && (s.pc == Halted || NonEmpty(s)) && s.pc != Stuck && NeverSelfOnly(s, ops)
    ensures Run(s, ops).pc != Stuck
    decreases |ops|
  {
    if ops != [] {
      ApplyInv(s, ops[0]);
      if s.pc != Halted && Enabled(s, ops[0]) { ApplyNonEmpty(s, ops[0]); }
      RunNonEmpty(Apply(s, ops[0]), ops[1..]);
    }
  }

  /** Runs in which no constraint changes only what it logged itself never get stuck. */
  lemma NeverStuck(ops: seq<Op>)
    requires NeverSelfOnly(Init(), ops)
    ensures Run(Init(), ops).pc != Stuck
  {
    InitInv();
    RunNonEmpty(Init(), ops);
  }

  // ---- groups left empty -----------------------------------------------------------------------

  /** `g` waits at top level with nothing to run. */
  predicate LeftEmpty(s: State, g: nat) {
    g < |s.groups| && s.groups[g].spot.Queued? && s.groups[g].sched == multiset{}
  }

  /** A member of `g` that was at rest now waits in its scheduler. */
  ghost predicate MemberWoken(s: State, s': State, g: nat) {
    exists j: nat :: Resting(s, j) && s.cons[j].group == Some(g) && j < |s'.cons| && s'.cons[j].place == InGroup
  }

  /** The dispatch loop picks a group with nothing to run. */
  predicate PicksEmpty(s: State, op: Op) {
    && s.pc == Loop && op.Turn? && s.initList == []
    && (s.currGroup.Some? ==> s.currGroup.value < |s.groups| && s.groups[s.currGroup.value].sched == multiset{})
    && IsMin(s.top, op.item) && op.item.obj.GroupObj? && LeftEmpty(s, op.item.obj.g)
  }

  /** A group left empty is in the top-level scheduler, so the solver is at work. */
  lemma EmptyAtWork(s: State, g: nat)
    requires Good(s) && LeftEmpty(s, g)
    ensures s.pc != Idle && s.currGroup != Some(g)
  {
    assert s.top[Item(s.groups[g].spot.key, GroupObj(g))] == AtTop(s, None, Item(s.groups[g].spot.key, GroupObj(g)));
    assert GroupOk(s, g);
  }

  lemma LeaveKeepsEmpty(s: State, s': State, g: nat)
    requires Good(s) && s.pc == Body && LeftEmpty(s, g) && s' == Leave(s)
    ensures LeftEmpty(s', g) || MemberWoken(s, s', g)
  {
    LeaveFlushes(s);
    FinishingFlushInv(s);
    var p := Prepared(Finishing(s));
    var f := Flush(p, s.wr);
    FlushRegroups(p, s.wr);
    FlushKeeps(p, s.wr);
    assert Regroups(p, f, CurrWoken(p, s.wr), g);
    if f.groups[g].sched != multiset{} { WokenByFlush(s, p, f, g); }
  }

  lemma WokenByFlush(s: State, p: State, f: State, g: nat)
    requires Flushes(p, f, s.wr) && ConsOk(p, None) && ConsOk(f, None) && p.cons == Remember(s).cons
    requires g < |p.groups| && p.groups[g].sched == multiset{} && f.groups[g].sched != multiset{}
    ensures MemberWoken(s, f, g)
  {
    var j: nat :| j in f.groups[g].sched;
    assert f.groups[g].sched[j] == InSched(f, None, g, j) && p.groups[g].sched[j] == InSched(p, None, g, j);
    assert f.cons[j] == p.cons[j] || Enqueued(p, f, j);
    assert Resting(s, j) && s.cons[j].group == Some(g);
  }

  /** Group `g` is as it was. */
  predicate SameGroup(s: State, s': State, g: nat) {
    g < |s.groups| && g < |s'.groups| && s'.groups[g] == s.groups[g]
  }

  lemma MemberSameGroup(s: State, h: nat, k: nat, g: nat)
    requires h < |s.groups| && k < |s.cons| && g < |s.groups| && h != g
    ensures SameGroup(s, RunInGroup(s, h, k), g)
  {}

  lemma TurnSameGroup(s: State, item: Item, k: nat, s': State, g: nat)
    requires Good(s) && s.pc == Loop && LeftEmpty(s, g) && s' == DispatchTurn(s, item, k)
    ensures s'.pc == Stuck || SameGroup(s, s', g)
  {
    EmptyAtWork(s, g);
    if s.initList != [] {
      RunNewInv(s);
      assert s'.groups == s.groups;
    } else {
      match s.currGroup
      case None => TopSameGroup(s, item, k, s', g);
      case Some(h) =>
        assert GroupOk(s, h);
        if s.groups[h].sched == multiset{} {
          LeaveGroupGood(s, h);
          assert SameGroup(s, LeaveGroup(s), g);
          TopSameGroup(LeaveGroup(s), item, k, s', g);
        } else if k in s.groups[h].sched && k < |s.cons| {
          MemberSameGroup(s, h, k, g);
        }
    }
  }

  lemma TopSameGroup(s: State, item: Item, k: nat, s': State, g: nat)
    requires Good(s) && s.pc == Loop && s.initList == [] && s.currGroup == None && LeftEmpty(s, g)
        && s' == RunTop(s, item, k)
    ensures s'.pc == Stuck || SameGroup(s, s', g)
  {
    EmptyAtTop(s, g);
    if IsMin(s.top, item) {
      match item.obj
      case ConsObj(c) => assert s'.groups == s.groups;
      case GroupObj(h) =>
        PickGroupGood(s, item);
        if h != g && k in s.groups[h].sched && k < |s.cons| {
          MemberSameGroup(PickGroup(s, item, h), h, k, g);
        }
    }
  }

  lemma EmptyAtTop(s: State, g: nat)
    requires ConsOk(s, None) && LeftEmpty(s, g)
    ensures s.top != multiset{}
  {
    assert s.top[Item(s.groups[g].spot.key, GroupObj(g))] == AtTop(s, None, Item(s.groups[g].spot.key, GroupObj(g)));
  }

  /** A group left empty stays queued and empty until one of its members is woken. */
  lemma EmptyStays(s: State, op: Op, g: nat, s': State)
    requires Good(s) && Enabled(s, op) && LeftEmpty(s, g) && s' == Apply(s, op) && s'.pc != Stuck
    ensures LeftEmpty(s', g) || MemberWoken(s, s', g)
  {
    EmptyAtWork(s, g);
    match op
    case EndBody => LeaveKeepsEmpty(s, s', g);
    case Turn(item, k) => TurnSameGroup(s, item, k, s', g);
    case _ => BodyKeepsEmpty(s, op, s', g);
  }

  lemma BodyKeepsEmpty(s: State, op: Op, s': State, g: nat)
    requires s.pc == Body && s.atomic == 1 && s.curr.Some? && s' == Apply(s, op) && !op.EndBody? && LeftEmpty(s, g)
    ensures LeftEmpty(s', g)
  {
    if op.Read? { assert ReadOp(s, op.a).groups == s.groups; }
  }

  /** The only step that gets the loop stuck. */
  lemma StuckStep(s: State, op: Op)
    requires Good(s) && Enabled(s, op)
    ensures Apply(s, op).pc == Stuck <==> PicksEmpty(s, op)
  {
    match op
    case Read(a) => assert ReadOp(s, a).pc == s.pc;
    case Write(a, v) => WriteNotStuck(s, a, v);
    case CloseAt => if s.curr == None && s.atomic == 1 { EndAtFlushes(s); }
    case EndBody => LeaveFlushes(s);
    case Turn(item, k) => StuckTurn(s, op, DispatchTurn(s, item, k));
    case _ =>
  }

  lemma StuckTurn(s: State, op: Op, s': State)
    requires Good(s) && s.pc == Loop && op.Turn? && s' == DispatchTurn(s, op.item, op.k)
    ensures s'.pc == Stuck <==> PicksEmpty(s, op)
  {
    if s.initList != [] {
      RunNewInv(s);
    } else if s.currGroup.Some? {
      var h := s.currGroup.value;
      assert GroupOk(s, h);
      if s.groups[h].sched == multiset{} {
        LeaveGroupGood(s, h);
        assert forall g: nat :: LeftEmpty(LeaveGroup(s), g) <==> LeftEmpty(s, g);
        StuckTop(LeaveGroup(s), op.item, op.k, s');
      }
    } else {
      StuckTop(s, op.item, op.k, s');
    }
  }

  lemma StuckTop(s: State, item: Item, k: nat, s': State)
    requires Good(s) && s.pc == Loop && s.initList == [] && s.currGroup == None && s' == RunTop(s, item, k)
    ensures s'.pc == Stuck <==> IsMin(s.top, item) && item.obj.GroupObj? && LeftEmpty(s, item.obj.g)
  {
    assert s.top[item] == AtTop(s, None, item);
  }

  /** Some step of the run picks a group left empty. */
  predicate PicksEmptyIn(s: State, ops: seq<Op>)
    decreases |ops|
  {
    ops != [] && ((Enabled(s, ops[0]) && PicksEmpty(s, ops[0])) || PicksEmptyIn(Apply(s, ops[0]), ops[1..]))
  }

  /** A run gets stuck if and only if it picks a group left empty. */
  lemma {:induction false} StuckExactly(s: State, ops: seq<Op>)
    requires Inv(s) && s.pc != Stuck
    ensures Run(s, ops).pc == Stuck <==> PicksEmptyIn(s, ops)
    decreases |ops|
  {
    if ops != [] {
      ApplyInv(s, ops[0]);
      var s' := Apply(s, ops[0]);
      if s.pc == Halted || !Enabled(s, ops[0]) {
        StuckExactly(s', ops[1..]);
      } else {
        StuckStep(s, ops[0]);
        if s'.pc == Stuck { StopsStuck(s', ops[1..]); } else { StuckExactly(s', ops[1..]); }
      }
    }
  }

  lemma {:induction false} StopsStuck(s: State, ops: seq<Op>)
    requires s.pc == Stuck
    ensures Run(s, ops) == s
    decreases |ops|
  {
    if ops != [] { StopsStuck(s, ops[1..]); }
  }

  /** No step of the run wakes a member of `g`. */
  ghost predicate NoneWoken(s: State, ops: seq<Op>, g: nat)
    decreases |ops|
  {
    ops == [] || (!MemberWoken(s, Apply(s, ops[0]), g) && NoneWoken(Apply(s, ops[0]), ops[1..], g))
  }

  /** Over runs: until a member is woken, the group waits, empty, or the loop has got stuck. */
  lemma {:induction false} EmptyLasts(s: State, ops: seq<Op>, g: nat)
    requires Inv(s) && s.pc != Stuck && LeftEmpty(s, g) && NoneWoken(s, ops, g)
    ensures if PicksEmptyIn(s, ops) then Run(s, ops).pc == Stuck else LeftEmpty(Run(s, ops), g)
    decreases |ops|
  {
    StuckExactly(s, ops);
    if ops != [] {
      ApplyInv(s, ops[0]);
      if s.pc != Halted && Enabled(s, ops[0]) {
        StuckStep(s, ops[0]);
        if Apply(s, ops[0]).pc != Stuck { EmptyStays(s, ops[0], g, Apply(s, ops[0])); }
      }
      if Apply(s, ops[0]).pc != Stuck { EmptyLasts(Apply(s, ops[0]), ops[1..], g); }
    }
  }

  // ---- the run that gets stuck -----------------------------------------------------------------

  lemma RunStep(s: State, op: Op, ops: seq<Op>)
    ensures Run(s, [op] + ops) == Run(Apply(s, op), ops)
  {
    assert ([op] + ops)[1..] == ops;
  }

  /** The constraint of the example, as created and as first run. */
  const NEWBORN := Cons(7, SCHED_TIME_STAMP, Some(0), InNew, map[], [])
  const EXAMPLE := Group(0, false, multiset{}, Off)
  const ENTRY := Item(0, GroupObj(0))

  lemma StuckStart() returns (ops: seq<Op>, s: State)
    ensures s == Run(Init(), ops)
    ensures s == Init().(pc := Loop, atomic := 1, initList := [0], cons := [NEWBORN], groups := [EXAMPLE])
  {
    var s1 := Apply(Init(), NewGroup);
    var s2 := Apply(s1, OpenAt);
    var s3 := Apply(s2, New(7, Some(0)));
    s := Apply(s3, CloseAt);
    assert s3 == Init().(atomic := 1, tempList := [0], cons := [NEWBORN], groups := [EXAMPLE]);
    assert s3.tempList + s3.initList == [0];
    ops := [NewGroup, OpenAt, New(7, Some(0)), CloseAt];
    RunStep(Init(), ops[0], ops[1..]);
    RunStep(s1, ops[1], ops[2..]);
    RunStep(s2, ops[2], ops[3..]);
    RunStep(s3, ops[3], []);
  }

  /** The state of the example when its constraint has read cell 5 and written 1 to it. */
  predicate StuckBody(s: State) {
    && s.pc == Body && s.curr == Some(0) && !s.selfTrigger && s.currGroup == None && s.atomic == 1
    && s.initList == [] && s.tempList == [] && s.top == multiset{} && s.groups == [EXAMPLE]
    && s.rd == [5] && s.wr == [5] && MemAt(s, 5) == 1 && CellAt(s, 5).val == 0 && ListAt(s, 5) == [0]
    && s.nodes == [Dep(1, 0)] && |s.cons| == 1 && s.cons[0].ts == 1 && s.cons[0].group == Some(0)
  }

  lemma StuckMiddle(s: State)
    requires s == Init().(pc := Loop, atomic := 1, initList := [0], cons := [NEWBORN], groups := [EXAMPLE])
    ensures StuckBody(Apply(Apply(Apply(s, Turn(ENTRY, 0)), Read(5)), Write(5, 1)))
  {
    var s5 := Apply(s, Turn(ENTRY, 0));
    assert s5 == Init().(pc := Body, atomic := 1, noLog := 0, time := 1, curr := Some(0),
                         cons := [NEWBORN.(ts := 1, place := AtRest)], groups := [EXAMPLE]);
    var s6 := Apply(s5, Read(5));
    assert s6.nodes == [Dep(1, 0)] && s6.rd == [5] && CellAt(s6, 5) == Cell([0], 1, 0, ReadMark, 2, 1, 0);
  }

  /** Checking the written cell queues the group. */
  lemma StuckCheck(q: State)
    requires q.curr == Some(0) && !q.selfTrigger && q.top == multiset{} && q.groups == [EXAMPLE]
    requires MemAt(q, 5) == 1 && CellAt(q, 5).val == 0 && ListAt(q, 5) == [0]
    requires q.nodes == [Dep(1, 0)] && |q.cons| == 1 && q.cons[0].ts == 1 && q.cons[0].group == Some(0)
    ensures Check(q, 5).top == multiset{ENTRY}
    ensures Check(q, 5).groups == [EXAMPLE.(ts := SCHED_TIME_STAMP, spot := Queued(0))]
    ensures Check(q, 5).cons == q.cons && Check(q, 5).initList == q.initList && Check(q, 5).currGroup == q.currGroup
  {
    var t := q.(cells := q.cells[5 := CellAt(q, 5).(val := 1)]);
    assert ListAt(t, 5) == [0] && UpToDate(t, 0) && !Triggers(t, 0);
    assert Trigger(t, 0) == QueueGroup(t, 0);
    assert Scan(t, [0]) == Scan(QueueGroup(t, 0), []);
  }

  lemma StuckLeave(s: State)
    requires StuckBody(s)
    ensures var s' := Leave(s);
            && s'.top == multiset{ENTRY} && s'.initList == [] && s'.currGroup == None && s'.pc == Loop
                && |s'.groups| == 1
            && s'.groups[0].sched == multiset{}
  {
    var f := Finishing(s);
    var p := Prepared(f);
    PreparedShape(f);
    var q := SetFlag(p, 5, Untouched);
    assert MemAt(q, 5) == 1 && CellAt(q, 5).val == 0 && ListAt(q, 5) == [0];
    StuckCheck(q);
    assert Flush(p, [5]) == Flush(Check(q, 5), []);
  }

  lemma StuckEnd(s: State)
    requires StuckBody(s)
    ensures Apply(Apply(s, EndBody), Turn(ENTRY, 0)).pc == Stuck
  {
    StuckLeave(s);
    assert IsMin(Leave(s).top, ENTRY);
  }

  /** A constraint of a group, created in an atomic block, reads a cell and changes it. Its group is
      queued for it although the constraint itself is exempt, and there is nothing to run in it. */
  lemma StuckRun() returns (ops: seq<Op>)
    ensures Run(Init(), ops).pc == Stuck
  {
    var start, s := StuckStart();
    StuckMiddle(s);
    var s5 := Apply(s, Turn(ENTRY, 0));
    var s6 := Apply(s5, Read(5));
    var s7 := Apply(s6, Write(5, 1));
    StuckEnd(s7);
    var rest := [Turn(ENTRY, 0), Read(5), Write(5, 1), EndBody, Turn(ENTRY, 0)];
    RunStep(s, rest[0], rest[1..]);
    RunStep(s5, rest[1], rest[2..]);
    RunStep(s6, rest[2], rest[3..]);
    RunStep(s7, rest[3], rest[4..]);
    RunStep(Apply(s7, EndBody), rest[4], []);
    RunAppend(Init(), start, rest);
    ops := start + rest;
  }
}
