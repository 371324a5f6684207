/** What waits at top level, and what is picked first: of constraints and groups that wait there, the one
    that was executed longest ago. */
module DcPicks {
  import opened DcState
  import opened DcInv
  import opened DcSched
  import opened DcFlush
  import opened DcSteps
  import opened DcTurn
  import opened DcTheorems
  import opened DcLifecycle
  import opened DcStuck

  // ---- groups are queued under their own stamps ------------------------------------------------

  /** A resting member of `g`, not the running one, logged a cell that no longer holds what its execution left. */
  ghost predicate MemberOutdated(s: State, g: nat) {
    exists j: nat :: Resting(s, j) && s.curr != Some(j) && s.cons[j].group == Some(g) && Outdated(s, j)
  }

  /** The running constraint is a member of `g` and has changed a cell it had logged. */
  ghost predicate MemberDirty(s: State, g: nat) {
    && s.curr.Some? && Resting(s, s.curr.value) && s.cons[s.curr.value].group == Some(g)
    && exists a: nat :: a in s.rd && CellAt(s, a).val != MemAt(s, a)
  }

  ghost predicate MemberHit(p: State, l: seq<Addr>, g: nat) {
    exists j: nat :: Resting(p, j) && p.cons[j].group == Some(g) && Woken(p, j, l)
  }

  /** A flush queues a group that is neither current nor queued exactly if a member logged a changed cell, under the
      stamp the group had. */
  lemma GroupFlushExactly(p: State, l: seq<Addr>, f: State, g: nat)
    requires FlushInv(p, l) && f == Flush(p, l) && g < |p.groups| && p.groups[g].spot == Off
    ensures |f.groups| == |p.groups|
    ensures f.groups[g].spot == if MemberHit(p, l, g) then Queued(p.groups[g].ts) else Off
  {
    FlushRegroups(p, l);
    FlushKeeps(p, l);
    assert Regroups(p, f, CurrWoken(p, l), g) && GroupOk(f, g);
    if f.groups[g].spot != Off {
      if MemberQueued(p, f, g) {
        var j: nat :| Enqueued(p, f, j) && p.cons[j].group == Some(g);
        assert Resting(p, j) && Eligible(p, j);
      }
    } else if MemberHit(p, l, g) {
      var j: nat :| Resting(p, j) && p.cons[j].group == Some(g) && Woken(p, j, l);
      HitMember(p, l, f, g, j);
    }
  }

  lemma HitMember(p: State, l: seq<Addr>, f: State, g: nat, j: nat)
    requires Flushes(p, f, l) && ConsOk(f, None) && g < |f.groups| && g < |p.groups| && GroupOk(f, g)
    requires Regroups(p, f, CurrWoken(p, l), g) && Resting(p, j) && p.cons[j].group == Some(g) && Woken(p, j, l)
    ensures f.groups[g].spot != Off
  {
    if Eligible(p, j) {
      assert f.cons[j] == p.cons[j] || Enqueued(p, f, j);
      assert f.groups[g].sched[j] == InSched(f, None, g, j);
    }
  }

  /** So the end of a body queues a group that is off if and only if it has a member to wake, the running one, exempt or
      not, included. */
  lemma LeaveQueuesGroup(s: State, g: nat)
    requires Reachable(s) && s.pc == Body && g < |s.groups| && s.groups[g].spot == Off
    ensures var s' := Leave(s);
            && g < |s'.groups|
            && s'.groups[g].spot == (if MemberOutdated(s, g) || MemberDirty(s, g) then Queued(s.groups[g].ts) else Off)
            && (s'.groups[g].spot != Off ==> OnlyUnder(s', GroupObj(g), s.groups[g].ts))
  {
    ReachableInv(s);
    LeaveFlushes(s);
    FinishingFlushInv(s);
    LeaveInv(s);
    var p := Prepared(Finishing(s));
    GroupFlushExactly(p, s.wr, Flush(p, s.wr), g);
    LeaveHits(s, p, g);
    QueuedGroupUnder(Leave(s), g, s.groups[g].ts);
  }

  lemma LeaveHits(s: State, p: State, g: nat)
    requires Good(s) && s.pc == Body && p.cons == Remember(s).cons && p.mem == s.mem && p.curr == s.curr
    requires forall a: nat :: CellAt(p, a).val == CellAt(s, a).val
    ensures MemberHit(p, s.wr, g) <==> MemberOutdated(s, g) || MemberDirty(s, g)
  {
    forall j: nat | Resting(s, j) && s.curr != Some(j)
        ensures Resting(p, j) && p.cons[j] == s.cons[j] && (Woken(p, j, s.wr) <==> Outdated(s, j)) {
      WokenByOthers(s, p, j);
    }
    if s.curr.Some? && Resting(s, s.curr.value) {
      var k := s.curr.value;
      assert p.cons[k].seen.Keys == Cells(s.rd);
      DirtyIsWoken(s, p, k);
    }
  }

  lemma DirtyIsWoken(s: State, p: State, k: nat)
    requires MemOk(s) && Resting(p, k) && p.cons[k].seen.Keys == Cells(s.rd) && p.mem == s.mem
    requires forall a: nat :: CellAt(p, a).val == CellAt(s, a).val
    ensures Woken(p, k, s.wr) <==> exists a: nat :: a in s.rd && CellAt(s, a).val != MemAt(s, a)
  {
    if Woken(p, k, s.wr) {
      var a: nat :| a in s.wr && a in p.cons[k].seen && Changed(p, a);
      assert a in s.rd && CellAt(s, a).val != MemAt(s, a);
    }
    forall a: nat | a in s.rd && CellAt(s, a).val != MemAt(s, a) ensures Woken(p, k, s.wr) {
      assert a in s.wr && a in p.cons[k].seen && Changed(p, a);
    }
  }

  lemma QueuedGroupUnder(s: State, g: nat, ts: nat)
    requires ConsOk(s, None) && g < |s.groups|
    ensures s.groups[g].spot == Queued(ts) ==> OnlyUnder(s, GroupObj(g), ts)
  {
    if s.groups[g].spot == Queued(ts) {
      forall item: Item | item.obj == GroupObj(g) ensures s.top[item] == if item.key == ts then 1 else 0 {
        assert s.top[item] == AtTop(s, None, item);
      }
    }
  }

  /** The end of an atomic section of the program, where no constraint is running. */
  lemma EndAtQueuesGroup(s: State, g: nat)
    requires Reachable(s) && s.pc == Idle && s.atomic == 1 && g < |s.groups| && s.groups[g].spot == Off
    ensures var s' := EndAt(s);
            && g < |s'.groups| && s'.groups[g].spot == (if MemberOutdated(s, g) then Queued(s.groups[g].ts) else Off)
            && (s'.groups[g].spot != Off ==> OnlyUnder(s', GroupObj(g), s.groups[g].ts))
  {
    ReachableInv(s);
    EndAtFlushes(s);
    EndAtInv(s);
    var p := Prepared(s.(atomic := 0));
    GroupFlushExactly(p, s.wr, Flush(p, s.wr), g);
    NobodyRuns(s, p, g);
    QueuedGroupUnder(EndAt(s), g, s.groups[g].ts);
  }

  lemma NobodyRuns(s: State, p: State, g: nat)
    requires Good(s) && s.curr == None && p.cons == s.cons && p.mem == s.mem && p.curr == None
    requires forall a: nat :: CellAt(p, a).val == CellAt(s, a).val
    ensures MemberHit(p, s.wr, g) <==> MemberOutdated(s, g)
  {
    forall j: nat | Resting(s, j) ensures Resting(p, j) && (Woken(p, j, s.wr) <==> Outdated(s, j)) {
      WokenByOthers(s, p, j);
    }
  }

  /** A store outside any section. */
  lemma StoreQueuesGroup(s: State, a: Addr, v: Word, g: nat)
    requires Reachable(s) && s.pc == Idle && s.atomic == 0 && g < |s.groups| && s.groups[g].spot == Off
    ensures var s' := WriteOp(s, a, v);
            && g < |s'.groups|
            && s'.groups[g].spot == (if MemberReads(s, g, a, v) then Queued(s.groups[g].ts) else Off)
            && (s'.groups[g].spot != Off ==> OnlyUnder(s', GroupObj(g), s.groups[g].ts))
  {
    ReachableInv(s);
    WriteNowFlushes(s, a, v);
    WriteOpInv(s, a, v);
    var s0 := Stored(s, a, v);
    assert Flush(s0, [a]) == Flush(Check(s0, a), []);
    assert [a] + [] == [a];
    GroupFlushExactly(s0, [a], Check(s0, a), g);
    StoreHits(s, s0, a, v, g);
    QueuedGroupUnder(WriteOp(s, a, v), g, s.groups[g].ts);
  }

  /** A resting member of `g` logged the cell and its execution left another value in it. */
  ghost predicate MemberReads(s: State, g: nat, a: Addr, v: Word) {
    exists j: nat :: Resting(s, j) && s.cons[j].group == Some(g) && a in s.cons[j].seen && s.cons[j].seen[a] != v
  }

  lemma StoreHits(s: State, s0: State, a: Addr, v: Word, g: nat)
    requires Good(s) && s.pc == Idle && s.atomic == 0 && s0 == Stored(s, a, v)
    ensures MemberHit(s0, [a], g) <==> MemberReads(s, g, a, v)
    ensures CellAt(s, a).val == v ==> !MemberReads(s, g, a, v)
  {
    assert CellAt(s, a).val == MemAt(s, a) && a in [a];
    forall j: nat | Resting(s, j)
        ensures Resting(s0, j) && (Woken(s0, j, [a]) <==> a in s.cons[j].seen && s.cons[j].seen[a] != v) {
      assert DepFor(s, j);
    }
  }

  // ---- the oldest entry is picked first ----------------------------------------------------------

  /** A turn takes at most the entry it picks, which is a least one, out of the top level. */
  lemma TurnTakesLeast(s: State, item: Item, i: nat)
    ensures var s' := DispatchTurn(s, item, i);
            s'.top == s.top || (IsMin(s.top, item) && s'.top == s.top - multiset{item})
  {
    if s.initList == [] {
      match s.currGroup
      case None => TopTakesLeast(s, item, i);
      case Some(g) =>
        if g < |s.groups| && s.groups[g].sched != multiset{} {
          if i < |s.cons| { assert RunInGroup(s, g, i).top == s.top; }
        } else {
          assert LeaveGroup(s).top == s.top;
          TopTakesLeast(LeaveGroup(s), item, i);
        }
    }
  }

  lemma TopTakesLeast(s: State, item: Item, i: nat)
    ensures var s' := RunTop(s, item, i);
            s'.top == s.top || (IsMin(s.top, item) && s'.top == s.top - multiset{item})
  {}

  /** While an older entry waits, a newer one is not taken. */
  lemma NewerStays(s: State, op: Op, older: Item, newer: Item, s': State)
    requires Good(s) && Enabled(s, op) && older in s.top && newer in s.top && older.key < newer.key
    requires s' == Apply(s, op)
    ensures newer in s'.top
  {
    match op
    case Turn(item, i) => TurnTakesLeast(s, item, i);
    case EndBody => LeaveKeepsEntry(s, newer, s');
    case _ => BodyKeepsTop(s, op, s');
  }

  lemma BodyKeepsTop(s: State, op: Op, s': State)
    requires Good(s) && s.pc == Body && !op.EndBody? && s' == Apply(s, op)
    ensures s'.top == s.top
  {
    if op.Read? { assert ReadOp(s, op.a).top == s.top; }
  }

  lemma LeaveKeepsEntry(s: State, item: Item, s': State)
    requires Good(s) && s.pc == Body && item in s.top && s' == Leave(s)
    ensures item in s'.top
  {
    LeaveInv(s);
    LeaveFlushes(s);
    assert s.top[item] == AtTop(s, None, item) && s'.top[item] == AtTop(s', None, item);
    match item.obj
    case ConsObj(k) => UserOther(s, EndBody, k);
    case GroupObj(g) =>
      FinishingFlushInv(s);
      var p := Prepared(Finishing(s));
      FlushRegroups(p, s.wr);
      assert Regroups(p, Flush(p, s.wr), CurrWoken(p, s.wr), g);
  }

  /** Of two entries at top level the older one is taken first, in every run: constraints and groups wait under the time
      stamps of their last executions. */
  lemma {:induction false} OldestFirst(s: State, ops: seq<Op>, older: Item, newer: Item) returns (i: nat)
    requires Inv(s) && older in s.top && newer in s.top && older.key < newer.key && newer !in Run(s, ops).top
    ensures i <= |ops| && older !in Run(s, ops[..i]).top && newer in Run(s, ops[..i]).top
    decreases |ops|
  {
    var s' := Apply(s, ops[0]);
    ApplyInv(s, ops[0]);
    if Enabled(s, ops[0]) { NewerStays(s, ops[0], older, newer, s'); }
    if older in s'.top {
      var j := OldestFirst(s', ops[1..], older, newer);
      i := j + 1;
      assert ops[..i][1..] == ops[1..][..j] && ops[..i][0] == ops[0];
    } else {
      i := 1;
      assert ops[..1][1..] == [];
    }
  }

  /** In particular, of two constraints without groups that the end of a body has queued, the one executed longest ago
      is taken out of the top-level scheduler first. */
  lemma OldestRunsFirst(s: State, j: nat, k: nat, ops: seq<Op>) returns (i: nat)
    requires Reachable(s) && s.pc == Body && Resting(s, j) && Resting(s, k) && s.cons[j].ts < s.cons[k].ts
    requires s.cons[j].group == None && s.cons[k].group == None && !Resting(Leave(s), j) && !Resting(Leave(s), k)
    requires Item(s.cons[k].ts, ConsObj(k)) !in Run(Leave(s), ops).top
    ensures i <= |ops| && Item(s.cons[j].ts, ConsObj(j)) !in Run(Leave(s), ops[..i]).top
    ensures Item(s.cons[k].ts, ConsObj(k)) in Run(Leave(s), ops[..i]).top
  {
    ReachableInv(s);
    LeaveInv(s);
    LeaveWaits(s, j);
    LeaveWaits(s, k);
    i := OldestFirst(Leave(s), ops, Item(s.cons[j].ts, ConsObj(j)), Item(s.cons[k].ts, ConsObj(k)));
  }
}
