/** Every operation keeps the invariant. */
module DcSteps {
  import opened DcState
  import opened DcInv
  import opened DcLog
  import opened DcFlush

  // ---- closing an atomic section ---------------------------------------------------------------

  lemma {:induction false} ClearFlagsKeeps(s: State, l: seq<Addr>)
    ensures var s' := ClearFlags(s, l);
            && s' == s.(cells := s'.cells) && SameStore(s, s') && SameObjects(s, s')
            && (forall a: nat :: CellAt(s', a) == if a in l then CellAt(s, a).(flag := Untouched) else CellAt(s, a))
    decreases |l|
  {
    if l != [] {
      assert l == [l[0]] + l[1..];
      SetFlagKeeps(s, l[0], Untouched);
      ClearFlagsKeeps(SetFlag(s, l[0], Untouched), l[1..]);
    }
  }

  /** What `_finalize_atomic` hands to the loop over the written cells. */
  function Prepared(s: State): State {
    ClearFlags(s.(initList := s.tempList + s.initList, tempList := []), s.rd).(rd := [])
  }

  lemma PreparedShape(s: State)
    ensures Prepared(s) == s.(initList := s.tempList + s.initList, tempList := [], rd := [], cells := Prepared(s).cells)
    ensures forall a: nat :: CellAt(Prepared(s), a) == if a in s.rd then CellAt(s, a).(flag := Untouched)
        else CellAt(s, a)
    ensures forall a: nat :: ListAt(Prepared(s), a) == ListAt(s, a)
  {
    ClearFlagsKeeps(s.(initList := s.tempList + s.initList, tempList := []), s.rd);
  }

  lemma PreparedKeeps(s: State)
    requires Core(s)
    ensures var s' := Prepared(s);
            && Core(s') && SameStore(s, s') && s'.cons == s.cons
            && (forall a: nat, k: nat :: HasFresh(s', a, k) <==> HasFresh(s, a, k))
            && (forall a: nat, n: nat :: Listed(s', a, n) <==> Listed(s, a, n))
            && (forall a: nat :: CellAt(s', a) == if a in s.rd then CellAt(s, a).(flag := Untouched) else CellAt(s, a))
  {
    var s1 := s.(initList := s.tempList + s.initList, tempList := []);
    MergeKeeps(s);
    SameStoreKeeps(s, s1);
    SameFresh(s, s1);
    ClearFlagsKeeps(s1, s.rd);
    var s' := Prepared(s);
    SameStoreKeeps(s1, s');
    SameFresh(s1, s');
    SameObjectsKeep(s1, s', None);
  }

  lemma MergeKeeps(s: State)
    requires ConsOk(s, None) && GroupsOk(s)
    ensures var s1 := s.(initList := s.tempList + s.initList, tempList := []);
            ConsOk(s1, None) && GroupsOk(s1)
  {
    var s1 := s.(initList := s.tempList + s.initList, tempList := []);
    assert forall k: nat ::
        Count(s1.tempList, k) + Count(s1.initList, k) == Count(s.tempList, k) + Count(s.initList, k);
    assert forall k: nat :: InFree(s1, None, k) == InFree(s, None, k);
    assert forall k: nat :: AmongNew(s1, None, k) == AmongNew(s, None, k);
    assert forall g: nat, k: nat :: InSched(s1, None, g, k) == InSched(s, None, g, k);
    assert forall item :: AtTop(s1, None, item) == AtTop(s, None, item);
    assert forall g: nat :: g < |s.groups| && GroupOk(s, g) ==> GroupOk(s1, g);
  }

  /** The state in which the loop over the written cells starts satisfies its invariant. */
  lemma PreparedFlushInv(s: State)
    requires Core(s) && DepOk(s) && MemOk(s)
    requires s.curr.Some? && Resting(s, s.curr.value) ==>
               && FrontFor(s, s.curr.value, s.cons[s.curr.value].seen.Keys)
               && (forall a: nat :: a in s.cons[s.curr.value].seen ==> s.cons[s.curr.value].seen[a] == MemAt(s, a))
    ensures FlushInv(Prepared(s), s.wr)
  {
    PreparedKeeps(s);
    PreparedShape(s);
    PreparedDepOk(s, Prepared(s));
    PreparedCurrFlush(s, Prepared(s));
    PreparedFlushMem(s, Prepared(s));
  }

  /** The constraints at rest keep their dependencies when only lists and flags change. */
  lemma PreparedDepOk(s: State, s': State)
    requires DepOk(s) && s'.cons == s.cons && s'.curr == s.curr
    requires forall a: nat, k: nat :: HasFresh(s', a, k) <==> HasFresh(s, a, k)
    requires forall a: nat :: CellAt(s', a) == if a in s.rd then CellAt(s, a).(flag := Untouched) else CellAt(s, a)
    ensures DepOk(s')
  {
    forall k: nat | Resting(s', k) && s'.curr != Some(k) ensures DepFor(s', k) { assert DepFor(s, k); }
  }

  lemma PreparedCurrFlush(s: State, s': State)
    requires CurrFlush(s) && SameStore(s, s') && s'.cons == s.cons && s'.curr == s.curr && s'.mem == s.mem
    ensures CurrFlush(s')
  {
    if s.curr.Some? && Resting(s, s.curr.value) {
      SameFront(s, s', s.curr.value, s.cons[s.curr.value].seen.Keys);
      assert forall a: nat :: MemAt(s', a) == MemAt(s, a);
    }
  }

  lemma PreparedFlushMem(s: State, s': State)
    requires MemOk(s) && s'.mem == s.mem
    requires forall a: nat :: CellAt(s', a) == if a in s.rd then CellAt(s, a).(flag := Untouched) else CellAt(s, a)
    ensures FlushMem(s', s.wr)
  {
    assert forall a: nat :: MemAt(s', a) == MemAt(s, a);
  }

  lemma FinalizeKeeps(s: State)
    requires FlushInv(Prepared(s), s.wr)
    ensures var s' := Finalize(s);
            && Core(s') && DepOk(s') && CurrFlush(s') && FlushMem(s', [])
            && Flushes(Prepared(s), Flush(Prepared(s), s.wr), s.wr)
            && s' == Flush(Prepared(s), s.wr).(wr := [])
            && s'.rd == [] && s'.wr == []
  {
    FlushKeeps(Prepared(s), s.wr);
    ForgetWritten(Flush(Prepared(s), s.wr));
  }

  lemma ForgetWritten(s: State)
    requires FlushInv(s, [])
    ensures FlushInv(s.(wr := []), [])
  {
    var s' := s.(wr := []);
    SameStoreKeeps(s, s');
    SameFresh(s, s');
    SameObjectsKeep(s, s', None);
    forall k: nat | Resting(s', k) && s'.curr != Some(k) ensures DepFor(s', k) { assert DepFor(s, k); }
  }

  /** After the flush, forgetting the current constraint leaves everything in order. */
  lemma SettledInv(s: State, s': State)
    requires Core(s) && DepOk(s) && CurrFlush(s) && FlushMem(s, [])
    requires s' == s.(curr := None, pc := Loop, atomic := 1, noLog := 1, trace := s'.trace)
    requires s.rd == [] && s.wr == [] && s.tempList == [] && (s.currGroup == None ==> !s.selfTrigger)
    ensures Inv(s')
  {
    SameStoreKeeps(s, s');
    SameFresh(s, s');
    SameObjectsKeep(s, s', None);
    forall k: nat | Resting(s', k) ensures DepFor(s', k) {
      if s.curr == Some(k) {
        forall a: nat ensures a in s.cons[k].seen <==> HasFresh(s', a, k) {
          assert a in s.cons[k].seen.Keys <==> HasFresh(s, a, k);
        }
      } else {
        assert DepFor(s, k);
      }
    }
  }

  lemma RememberKeeps(s: State)
    requires Core(s) && DepOk(s) && CurrOk(s)
    ensures var s' := Remember(s);
            && Core(s') && DepOk(s')
            && (forall a: nat, k: nat :: HasFresh(s', a, k) <==> HasFresh(s, a, k))
            && (s.curr.Some? && Resting(s, s.curr.value) ==>
                  && FrontFor(s', s.curr.value, s'.cons[s.curr.value].seen.Keys)
                  && (forall a: nat :: a in s'.cons[s.curr.value].seen ==>
                        s'.cons[s.curr.value].seen[a] == MemAt(s', a)))
  {
    if s.curr.Some? && Resting(s, s.curr.value) {
      var k := s.curr.value;
      var s' := Remember(s);
      RememberObjects(s, s', k);
      SameStoreKeeps(s, s');
      assert forall j: nat :: TsOf(s', j) == TsOf(s, j);
      assert forall n: nat, j: nat :: FreshFor(s', n, j) <==> FreshFor(s, n, j);
      assert forall n: nat :: UpToDate(s', n) <==> UpToDate(s, n);
      forall j: nat | Resting(s', j) && s'.curr != Some(j) ensures DepFor(s', j) { assert DepFor(s, j); }
      assert s'.cons[k].seen.Keys == Cells(s.rd);
    }
  }

  lemma RememberObjects(s: State, s': State, k: nat)
    requires ConsOk(s, None) && GroupsOk(s) && k < |s.cons| && |s'.cons| == |s.cons|
    requires s' == s.(cons := s.cons[k := s'.cons[k]])
    requires s'.cons[k] == s.cons[k].(seen := s'.cons[k].seen, trace := s'.cons[k].trace)
    ensures ConsOk(s', None) && GroupsOk(s')
  {
    assert forall j: nat :: InFree(s', None, j) == InFree(s, None, j);
    assert forall j: nat :: AmongNew(s', None, j) == AmongNew(s, None, j);
    assert forall g: nat, j: nat :: InSched(s', None, g, j) == InSched(s, None, g, j);
    assert forall item :: AtTop(s', None, item) == AtTop(s, None, item);
    forall g: nat | g < |s'.groups| ensures GroupOk(s', g) { assert GroupOk(s, g); }
  }

  lemma NoLogKeeps(s: State, s': State)
    requires Core(s) && DepOk(s) && MemOk(s) && s' == s.(noLog := s'.noLog, atomic := s'.atomic)
    ensures Core(s') && DepOk(s') && MemOk(s')
    ensures forall a: nat, k: nat :: HasFresh(s', a, k) <==> HasFresh(s, a, k)
    ensures forall a: nat, n: nat :: Listed(s', a, n) <==> Listed(s, a, n)
  {
    SameStoreKeeps(s, s');
    SameFresh(s, s');
    SameObjectsKeep(s, s', None);
    SameMem(s, s');
    forall k: nat | Resting(s', k) && s'.curr != Some(k) ensures DepFor(s', k) {
      assert DepFor(s, k);
      assert forall a: nat :: CellAt(s', a) == CellAt(s, a);
    }
  }

  /** The state in which a finishing body calls `_finalize_atomic`. */
  function Finishing(s: State): State { Remember(s).(noLog := 1) }

  lemma FinishingFlushInv(s: State)
    requires Inv(s) && s.pc == Body
    ensures FlushInv(Prepared(Finishing(s)), Finishing(s).wr)
  {
    RememberKeeps(s);
    var s1 := Remember(s);
    assert MemOk(s1) by {
      assert forall a: nat :: CellAt(s1, a) == CellAt(s, a) && MemAt(s1, a) == MemAt(s, a);
    }
    var s2 := Finishing(s);
    NoLogKeeps(s1, s2);
    if s.curr.Some? && Resting(s, s.curr.value) {
      SameFront(s1, s2, s.curr.value, s1.cons[s.curr.value].seen.Keys);
    }
    FinishingPrepared(s1, s2);
  }

  lemma FinishingPrepared(s1: State, s2: State)
    requires Core(s2) && DepOk(s2) && MemOk(s2) && s2 == s1.(noLog := 1)
    requires s1.curr.Some? && Resting(s1, s1.curr.value) ==>
               && FrontFor(s2, s1.curr.value, s1.cons[s1.curr.value].seen.Keys)
               && (forall a: nat :: a in s1.cons[s1.curr.value].seen ==>
                     s1.cons[s1.curr.value].seen[a] == MemAt(s1, a))
    ensures FlushInv(Prepared(s2), s2.wr)
  {
    PreparedFlushInv(s2);
  }

  lemma LeaveInv(s: State)
    requires Inv(s) && s.pc == Body
    ensures Inv(Leave(s))
  {
    var s2 := Finishing(s);
    FinishingFlushInv(s);
    FinalizeKeeps(s2);
    ClearFlagsKeeps(s2.(initList := s2.tempList + s2.initList, tempList := []), s2.rd);
    SettledInv(Finalize(s2), Leave(s));
  }

  lemma EndAtInv(s: State)
    requires Inv(s) && (s.pc == Idle || s.pc == Body)
    ensures Inv(EndAt(s))
  {
    if s.curr == None && s.atomic == 1 {
      var s1 := s.(atomic := 0);
      NoLogKeeps(s, s1);
      PreparedFlushInv(s1);
      FinalizeKeeps(s1);
      ClearFlagsKeeps(s1.(initList := s1.tempList + s1.initList, tempList := []), s1.rd);
      SettledInv(Finalize(s1), EndAt(s));
    } else {
      NoLogKeeps(s, EndAt(s));
    }
  }

  // ---- memory accesses -------------------------------------------------------------------------

  lemma ReadOpInv(s: State, a: Addr)
    requires Inv(s) && UserMode(s)
    ensures Inv(ReadOp(s, a))
  {
    var s1 := if s.noLog == 0 && CellAt(s, a).flag == Untouched then ReadHandler(s, a) else s;
    if s.noLog == 0 && CellAt(s, a).flag == Untouched { ReadHandlerInv(s, a); }
    TraceKeeps(s1, ReadOp(s, a));
  }

  lemma TraceKeeps(s: State, s': State)
    requires Good(s) && s' == s.(trace := s'.trace)
    ensures Good(s')
  {
    SameStoreKeeps(s, s');
    SameFresh(s, s');
    SameObjectsKeep(s, s', None);
    forall k: nat | Resting(s', k) && s'.curr != Some(k) ensures DepFor(s', k) { assert DepFor(s, k); }
    if s.curr.Some? && Resting(s, s.curr.value) { SameFront(s, s', s.curr.value, Cells(s.rd)); }
    SameMem(s, s');
  }

  lemma SameMem(s: State, s': State)
    requires MemOk(s) && s'.cells == s.cells && s'.mem == s.mem && s'.wr == s.wr && s'.rd == s.rd
    ensures MemOk(s')
  {
    assert forall a: nat :: CellAt(s', a) == CellAt(s, a) && MemAt(s', a) == MemAt(s, a);
  }

  /** Storing a value and logging the write. */
  lemma LoggedWriteInv(s: State, s': State, a: Addr)
    requires Inv(s) && UserMode(s) && s.atomic != 0
    requires s' == s.(mem := s'.mem, cells := s'.cells, wr := s'.wr)
    requires forall b: nat :: CellAt(s', b) == if b == a then CellAt(s, b).(flag := WrittenMark) else CellAt(s, b)
    requires forall b: nat :: b != a ==> MemAt(s', b) == MemAt(s, b)
    requires s'.wr == if CellAt(s, a).flag == WrittenMark then s.wr else s.wr + [a]
    ensures Inv(s')
  {
    SameStoreKeeps(s, s');
    SameFresh(s, s');
    SameObjectsKeep(s, s', None);
    forall k: nat | Resting(s', k) && s'.curr != Some(k) ensures DepFor(s', k) { assert DepFor(s, k); }
    LoggedWriteMem(s, s', a);
  }

  lemma LoggedWriteMem(s: State, s': State, a: Addr)
    requires MemOk(s) && s'.wr == (if CellAt(s, a).flag == WrittenMark then s.wr else s.wr + [a]) && s'.rd == s.rd
    requires forall b: nat :: CellAt(s', b) == if b == a then CellAt(s, b).(flag := WrittenMark) else CellAt(s, b)
    requires forall b: nat :: b != a ==> MemAt(s', b) == MemAt(s, b)
    ensures MemOk(s')
  {
  }

  lemma WriteInAtomicInv(s: State, a: Addr, v: Word)
    requires Inv(s) && UserMode(s) && s.atomic != 0
    ensures Inv(WriteOp(s, a, v))
  {
    var t := if s.pc == Body then s.trace + [Wr(a, v)] else s.trace;
    var s1 := s.(trace := t);
    TraceKeeps(s, s1);
    LoggedWriteInv(s1, WriteOp(s, a, v), a);
  }

  /** A store outside any atomic section: the last known value is updated and dependents are queued. */
  lemma WriteNowInv(s: State, a: Addr, v: Word)
    requires Inv(s) && s.pc == Idle && s.atomic == 0
    ensures Inv(WriteOp(s, a, v))
  {
    var s0 := s.(mem := s.mem[a := v], cells := s.cells[a := CellAt(s, a)]);
    StoreFlushInv(s, s0, a);
    SetFlagKeeps(s0, a, Untouched);
    assert CellAt(s0, a).flag == Untouched;
    assert SetFlag(s0, a, Untouched) == s0;
    CheckKeeps(s0, a, []);
    var s1 := Check(s0, a);
    if CellAt(s, a).val == v {
      StoreSameInv(s, s0, a);
    } else {
      SettledInv(s1, s1.(atomic := 1, pc := Loop));
    }
  }

  lemma StoreFlushInv(s: State, s0: State, a: Addr)
    requires Inv(s) && s.pc == Idle && s.atomic == 0
    requires s0 == s.(mem := s0.mem, cells := s0.cells)
    requires forall b: nat :: CellAt(s0, b) == CellAt(s, b)
    requires forall b: nat :: b != a ==> MemAt(s0, b) == MemAt(s, b)
    ensures FlushInv(s0, [a] + []) && CellAt(s0, a).flag == Untouched
  {
    SameStoreKeeps(s, s0);
    SameFresh(s, s0);
    SameObjectsKeep(s, s0, None);
    forall k: nat | Resting(s0, k) && s0.curr != Some(k) ensures DepFor(s0, k) { assert DepFor(s, k); }
  }

  lemma StoreSameInv(s: State, s0: State, a: Addr)
    requires Inv(s) && s.pc == Idle && s.atomic == 0
    requires s0 == s.(mem := s0.mem, cells := s0.cells)
    requires forall b: nat :: CellAt(s0, b) == CellAt(s, b)
    requires forall b: nat :: MemAt(s0, b) == MemAt(s, b)
    ensures Inv(s0)
  {
    SameStoreKeeps(s, s0);
    SameFresh(s, s0);
    SameObjectsKeep(s, s0, None);
    forall k: nat | Resting(s0, k) && s0.curr != Some(k) ensures DepFor(s0, k) { assert DepFor(s, k); }
  }

  /** The state after the store, in which the write handler looks at the cell. */
  function Stored(s: State, a: Addr, v: Word): State {
    s.(mem := s.mem[a := v], cells := s.cells[a := CellAt(s, a)])
  }

  /** A store outside any atomic section is a flush of the one cell. */
  lemma WriteNowFlushes(s: State, a: Addr, v: Word)
    requires Good(s) && s.pc == Idle && s.atomic == 0
    ensures var s0 := Stored(s, a, v);
            && FlushInv(s0, [a] + []) && SetFlag(s0, a, Untouched) == s0 && Flushes(s0, Check(s0, a), [a])
            && (WriteOp(s, a, v) == s0 || WriteOp(s, a, v) == Check(s0, a).(atomic := 1, pc := Loop))
  {
    var s0 := Stored(s, a, v);
    StoreFlushInv(s, s0, a);
    assert SetFlag(s0, a, Untouched) == s0;
    CheckKeeps(s0, a, []);
  }

  lemma WriteOpInv(s: State, a: Addr, v: Word)
    requires Inv(s) && UserMode(s)
    ensures Inv(WriteOp(s, a, v))
  {
    if s.atomic != 0 { WriteInAtomicInv(s, a, v); } else { WriteNowInv(s, a, v); }
  }

  // ---- executing constraints -------------------------------------------------------------------

  /** Everything but the place of the constraint just picked is in order. */
  ghost predicate InHand(s: State, k: nat) {
    && NodesOk(s) && Unique(s) && ConsOk(s, Some(k)) && GroupsOk(s) && DepOk(s) && MemOk(s) && CtlOk(s)
    && s.pc == Loop && k < |s.cons| && s.cons[k].place != Free && s.cons[k].place != AtRest
  }

  lemma FreeDeletedKeeps(s: State, k: nat)
    requires InHand(s, k) && s.cons[k].ts == DEL_TIME_STAMP
    ensures Inv(ExecCons(s, k))
  {
    var s' := ExecCons(s, k);
    assert s'.freeCons == [k] + s.freeCons;
    CountCons(k, s.freeCons);
    HandFreed(s, s', k);
    SameStoreKeeps(s, s');
    assert forall j: nat :: TsOf(s', j) == TsOf(s, j);
    assert forall n: nat, j: nat :: FreshFor(s', n, j) <==> FreshFor(s, n, j);
    assert forall n: nat :: UpToDate(s', n) <==> UpToDate(s, n);
    forall j: nat | Resting(s', j) ensures DepFor(s', j) { assert DepFor(s, j); }
    assert GroupsOk(s') by {
      forall g: nat | g < |s'.groups| ensures GroupOk(s', g) { assert GroupOk(s, g); }
    }
  }

  lemma HandFreed(s: State, s': State, k: nat)
    requires ConsOk(s, Some(k)) && k < |s.cons| && s.cons[k].ts == DEL_TIME_STAMP
    requires s' == s.(freeCons := s'.freeCons, cons := s.cons[k := s.cons[k].(place := Free)])
    requires forall j: nat :: Count(s'.freeCons, j) == Count(s.freeCons, j) + (if j == k then 1 else 0)
    ensures ConsOk(s', None)
  {
    assert forall j: nat :: InFree(s', None, j) == InFree(s, Some(k), j) + (if j == k then 1 else 0);
    assert forall j: nat :: AmongNew(s', None, j) == AmongNew(s, Some(k), j);
    assert forall g: nat, j: nat :: InSched(s', None, g, j) == InSched(s, Some(k), g, j);
    assert forall item :: AtTop(s', None, item) == AtTop(s, Some(k), item);
  }

  lemma HandRuns(s: State, s': State, k: nat)
    requires ConsOk(s, Some(k)) && GroupsOk(s) && k < |s.cons| && s.time < MAX_TIME_STAMP
    requires s' == s.(time := s.time + 1, cons := s.cons[k := s.cons[k].(ts := s.time + 1, place := AtRest)],
                      curr := s'.curr, noLog := s'.noLog, pc := s'.pc, trace := s'.trace)
    ensures ConsOk(s', None) && GroupsOk(s')
  {
    assert forall j: nat :: InFree(s', None, j) == InFree(s, Some(k), j);
    assert forall j: nat :: AmongNew(s', None, j) == AmongNew(s, Some(k), j);
    assert forall g: nat, j: nat :: InSched(s', None, g, j) == InSched(s, Some(k), g, j);
    assert forall item :: AtTop(s', None, item) == AtTop(s, Some(k), item);
    forall g: nat | g < |s'.groups| ensures GroupOk(s', g) { assert GroupOk(s, g); }
  }

  /** A new execution makes every node of its constraint stale. */
  lemma RunsFresh(s: State, s': State, k: nat)
    requires NodesOk(s) && Unique(s) && k < |s.cons| && s.cons[k].ts >= DEL_TIME_STAMP && s.time < MAX_TIME_STAMP
    requires s'.cons == s.cons[k := s.cons[k].(ts := s.time + 1, place := AtRest)]
    requires s'.nodes == s.nodes && s'.cells == s.cells && s'.freeNodes == s.freeNodes && s'.time == s.time + 1
    ensures NodesOk(s') && Unique(s')
    ensures forall a: nat :: !HasFresh(s', a, k)
    ensures forall a: nat, j: nat :: j != k ==> (HasFresh(s', a, j) <==> HasFresh(s, a, j))
  {
    assert forall a: nat :: ListAt(s', a) == ListAt(s, a);
    assert forall a: nat, n: nat :: Listed(s', a, n) <==> Listed(s, a, n);
    assert forall a: nat, n: nat :: Occ(s', a, n) == Occ(s, a, n);
    assert forall n: nat :: OccFree(s', n) == OccFree(s, n);
    assert forall a: nat, n: nat :: Listed(s', a, n) ==> (UpToDate(s', n) ==> UpToDate(s, n));
    assert forall n: nat, j: nat :: j != k ==> (FreshFor(s', n, j) <==> FreshFor(s, n, j));
    assert forall a: nat, n: nat :: Listed(s', a, n) ==> !FreshFor(s', n, k);
  }

  lemma ExecConsInv(s: State, k: nat)
    requires InHand(s, k)
    ensures Inv(ExecCons(s, k))
  {
    var s' := ExecCons(s, k);
    if s.cons[k].ts == DEL_TIME_STAMP {
      FreeDeletedKeeps(s, k);
    } else if s.time + 1 <= MAX_TIME_STAMP {
      HandRuns(s, s', k);
      RunsFresh(s, s', k);
      ExecRest(s, s', k);
    }
  }

  lemma ExecRest(s: State, s': State, k: nat)
    requires InHand(s, k) && s' == ExecCons(s, k) && s'.pc == Body && Core(s')
    requires forall a: nat :: !HasFresh(s', a, k)
    requires forall a: nat, j: nat :: j != k ==> (HasFresh(s', a, j) <==> HasFresh(s, a, j))
    ensures Inv(s')
  {
    RunningDepOk(s, s', k);
    NoneFresh(s', k);
    SameMem(s, s');
  }

  lemma RunningDepOk(s: State, s': State, k: nat)
    requires DepOk(s) && s.curr == None && s'.curr == Some(k) && s'.cells == s.cells && k < |s.cons| == |s'.cons|
    requires forall j: nat :: j < |s.cons| && j != k ==> s'.cons[j] == s.cons[j]
    requires forall a: nat, j: nat :: j != k ==> (HasFresh(s', a, j) <==> HasFresh(s, a, j))
    ensures DepOk(s')
  {
    forall j: nat | Resting(s', j) && s'.curr != Some(j) ensures DepFor(s', j) {
      assert DepFor(s, j);
      assert forall a: nat :: CellAt(s', a) == CellAt(s, a);
    }
  }

  lemma NoneFresh(s: State, k: nat)
    requires forall a: nat :: !HasFresh(s, a, k)
    ensures FrontFor(s, k, {})
  {
    forall a: nat, n: nat | Listed(s, a, n) ensures !FreshFor(s, n, k) { assert !HasFresh(s, a, k); }
  }
}
