/** Closing an atomic section: every written cell is compared with its last known value, and exactly
    the constraints that logged a changed cell are queued. */
module DcFlush {
  import opened DcState
  import opened DcInv
  import opened DcLog
  import opened DcSched

  /** Only the cells of `l` may still differ from memory or be flagged. */
  ghost predicate FlushMem(s: State, l: seq<Addr>) {
    forall a: nat :: a !in l ==> CellAt(s, a).val == MemAt(s, a) && CellAt(s, a).flag == Untouched
  }

  /** The constraint whose execution is finishing depends on exactly what it logged, through first nodes,
      and remembers the current contents of memory. */
  ghost predicate CurrFlush(s: State) {
    s.curr.Some? && Resting(s, s.curr.value) ==>
      && FrontFor(s, s.curr.value, s.cons[s.curr.value].seen.Keys)
      && (forall a: nat :: a in s.cons[s.curr.value].seen ==> s.cons[s.curr.value].seen[a] == MemAt(s, a))
  }

  ghost predicate FlushInv(s: State, l: seq<Addr>) {
    Core(s) && DepOk(s) && CurrFlush(s) && FlushMem(s, l)
  }

  predicate Changed(s: State, a: Addr) { CellAt(s, a).val != MemAt(s, a) }

  /** `k` logged a cell of `l` that has changed. */
  ghost predicate Woken(s: State, k: nat, l: seq<Addr>)
    requires k < |s.cons|
  {
    exists a: nat :: a in l && a in s.cons[k].seen && Changed(s, a)
  }

  /** Constraints that are queued as soon as a cell they logged changes. */
  predicate Eligible(s: State, k: nat) { Resting(s, k) && (s.selfTrigger || s.curr != Some(k)) }

  /** From `s` to `s'` the cells of `l` were checked: exactly the eligible constraints that logged a
      changed cell were queued. */
  ghost predicate Flushes(s: State, s': State, l: seq<Addr>) {
    && s' == s.(top := s'.top, cons := s'.cons, groups := s'.groups, cells := s'.cells, freeNodes := s'.freeNodes)
    && |s'.cons| == |s.cons| && |s'.groups| == |s.groups|
    && (forall k: nat :: k < |s.cons| ==> s'.cons[k] == s.cons[k] || Enqueued(s, s', k))
    && (forall k: nat :: Eligible(s, k) ==> (s'.cons[k] != s.cons[k] <==> Woken(s, k, l)))
    && (forall a: nat :: CellAt(s', a).val == if a in l then MemAt(s, a) else CellAt(s, a).val)
  }

  /** The dependencies of constraint `k` on cell `a`, as the invariant knows them. */
  lemma SeenIsFresh(s: State, k: nat, a: Addr)
    requires DepOk(s) && CurrFlush(s) && Resting(s, k)
    ensures a in s.cons[k].seen <==> HasFresh(s, a, k)
  {
    if s.curr == Some(k) {
      assert a in s.cons[k].seen.Keys <==> HasFresh(s, a, k);
    } else {
      assert DepFor(s, k);
    }
  }

  /** Recording the new value of `a`. */
  function Noted(s: State, a: Addr): State {
    s.(cells := s.cells[a := CellAt(s, a).(val := MemAt(s, a), flag := Untouched)])
  }

  lemma NotedKeeps(s: State, a: Addr)
    requires Core(s)
    ensures Core(Noted(s, a)) && SameStore(s, Noted(s, a))
    ensures forall b: nat, k: nat :: HasFresh(Noted(s, a), b, k) <==> HasFresh(s, b, k)
    ensures forall b: nat, n: nat :: Listed(Noted(s, a), b, n) <==> Listed(s, b, n)
  {
    SameStoreKeeps(s, Noted(s, a));
    SameFresh(s, Noted(s, a));
    SameObjectsKeep(s, Noted(s, a), None);
  }

  /** `s0` notes the new value, `s2` has scanned the list, `s'` has truncated it. */
  ghost predicate Checked(s: State, s0: State, s2: State, s': State, a: Addr) {
    && s0 == Noted(s, a) && Core(s0) && SameStore(s, s0)
    && Scans(s0, s2, ListAt(s, a)) && Core(s2)
    && s' == s2.(cells := s'.cells, freeNodes := s'.freeNodes) && Core(s')
    && (forall b: nat :: b != a ==> CellAt(s', b) == CellAt(s2, b))
    && (forall b: nat, n: nat :: Listed(s', b, n) ==> Listed(s, b, n))
    && (ListAt(s, a) != [] ==> ListAt(s', a) == [ListAt(s, a)[0]])
    && CellAt(s', a).val == MemAt(s, a) && CellAt(s', a).flag == Untouched
  }

  lemma CheckSteps(s: State, a: Addr)
    requires Core(s) && Changed(s, a)
    ensures var s0 := Noted(s, a);
            var s2 := Scan(s0, ListAt(s0, a));
            Checked(s, s0, s2, KeepFirst(s2, a), a)
  {
    var s0 := Noted(s, a);
    NotedKeeps(s, a);
    assert Scannable(s0, ListAt(s0, a)) by {
      forall n: nat | n in ListAt(s0, a)
        ensures n < |s0.nodes| && s0.nodes[n].ts <= s0.time && s0.nodes[n].cons < |s0.cons|
      { assert Listed(s0, a, n); }
    }
    ScanKeeps(s0, ListAt(s0, a));
    var s2 := Scan(s0, ListAt(s0, a));
    QueuesFresh(s0, s2);
    KeepFirstKeeps(s2, a);
    SameObjectsKeep(s2, KeepFirst(s2, a), None);
    assert ListAt(s2, a) == ListAt(s, a);
  }

  lemma CheckIsScan(s: State, a: Addr)
    requires Changed(s, a)
    ensures Check(SetFlag(s, a, Untouched), a) == KeepFirst(Scan(Noted(s, a), ListAt(Noted(s, a), a)), a)
  {
    var s1 := SetFlag(s, a, Untouched);
    assert s1.cells[a := CellAt(s1, a).(val := MemAt(s1, a))] == Noted(s, a).cells;
  }

  /** A constraint that was not queued keeps its dependencies. */
  lemma CheckFresh(s: State, s0: State, s2: State, s': State, a: Addr, k: nat)
    requires Checked(s, s0, s2, s', a) && k < |s.cons| && s'.cons[k] == s.cons[k]
    ensures forall b: nat, n: nat :: b != a ==> (Listed(s', b, n) <==> Listed(s, b, n))
    ensures forall n: nat :: FreshFor(s', n, k) <==> FreshFor(s, n, k)
    ensures forall b: nat :: b != a ==> (HasFresh(s', b, k) <==> HasFresh(s, b, k))
    ensures HasFresh(s', a, k) ==> HasFresh(s, a, k)
  {
    assert forall b: nat, n: nat :: b != a ==> (Listed(s', b, n) <==> Listed(s, b, n));
    assert forall n: nat :: FreshFor(s', n, k) <==> FreshFor(s, n, k);
  }

  /** An eligible constraint with a node in the list is queued, and no other constraint is. */
  lemma CheckQueues(s: State, s0: State, s2: State, s': State, a: Addr, k: nat)
    requires Checked(s, s0, s2, s', a) && Eligible(s, k)
    ensures s'.cons[k] != s.cons[k] <==> HasFresh(s, a, k)
  {
    if HasFresh(s, a, k) {
      var n: nat :| Listed(s, a, n) && FreshFor(s, n, k);
      assert n in ListAt(s, a);
      assert s2.cons[k] == s.cons[k] ==> UpToDate(s2, n);
    }
    if s'.cons[k] != s.cons[k] {
      var n: nat :| n in ListAt(s, a) && FreshFor(s0, n, k);
      assert Listed(s, a, n) && FreshFor(s, n, k);
    }
  }

  lemma CheckDepOk(s: State, s0: State, s2: State, s': State, a: Addr)
    requires Checked(s, s0, s2, s', a) && DepOk(s) && CurrFlush(s)
    ensures DepOk(s')
  {
    forall k: nat | Resting(s', k) && s'.curr != Some(k) ensures DepFor(s', k) {
      assert s'.cons[k] == s.cons[k];
      assert DepFor(s, k);
      CheckQueues(s, s0, s2, s', a, k);
      CheckFresh(s, s0, s2, s', a, k);
      forall b: nat ensures b in s'.cons[k].seen <==> HasFresh(s', b, k) {}
    }
  }

  lemma CheckCurrOk(s: State, s0: State, s2: State, s': State, a: Addr)
    requires Checked(s, s0, s2, s', a) && CurrFlush(s)
    ensures CurrFlush(s')
  {
    if s'.curr.Some? && Resting(s', s'.curr.value) {
      var k := s'.curr.value;
      assert s'.cons[k] == s.cons[k];
      CheckFresh(s, s0, s2, s', a, k);
      forall b: nat, n: nat | Listed(s', b, n) && FreshFor(s', n, k) ensures ListAt(s', b)[0] == n {
        assert Listed(s, b, n);
        assert ListAt(s, b)[0] == n;
      }
      if HasFresh(s, a, k) {
        var n: nat :| Listed(s, a, n) && FreshFor(s, n, k);
        assert Listed(s', a, n);
      }
    }
  }

  /** Checking one cell keeps the flush invariant. */
  lemma CheckKeeps(s: State, a: Addr, l: seq<Addr>)
    requires FlushInv(s, [a] + l)
    ensures var s' := Check(SetFlag(s, a, Untouched), a);
            FlushInv(s', l) && Flushes(s, s', [a])
  {
    var s' := Check(SetFlag(s, a, Untouched), a);
    assert a in [a] + l;
    if Changed(s, a) {
      CheckSteps(s, a);
      CheckIsScan(s, a);
      var s0 := Noted(s, a);
      var s2 := Scan(s0, ListAt(s0, a));
      CheckDepOk(s, s0, s2, s', a);
      CheckCurrOk(s, s0, s2, s', a);
      CheckMemOk(s, s0, s2, s', a, l);
      CheckFlushes(s, s0, s2, s', a);
    } else {
      UnchangedKeeps(s, a, l);
    }
  }

  lemma CheckMemOk(s: State, s0: State, s2: State, s': State, a: Addr, l: seq<Addr>)
    requires Checked(s, s0, s2, s', a) && FlushMem(s, [a] + l)
    ensures FlushMem(s', l)
  {
    forall b: nat | b !in l ensures CellAt(s', b).val == MemAt(s', b) && CellAt(s', b).flag == Untouched {
      assert b != a ==> b !in [a] + l && CellAt(s', b) == CellAt(s, b);
    }
  }

  lemma CheckFlushes(s: State, s0: State, s2: State, s': State, a: Addr)
    requires Checked(s, s0, s2, s', a) && DepOk(s) && CurrFlush(s) && Changed(s, a)
    ensures Flushes(s, s', [a])
  {
    forall k: nat | Eligible(s, k) ensures s'.cons[k] != s.cons[k] <==> Woken(s, k, [a]) {
      CheckQueues(s, s0, s2, s', a, k);
      SeenIsFresh(s, k, a);
      assert a in [a];
    }
    assert forall k: nat :: k < |s.cons| ==> s2.cons[k] == s0.cons[k] || Enqueued(s0, s2, k);
    assert forall b: nat :: b != a ==> CellAt(s', b) == CellAt(s, b);
  }

  lemma UnchangedKeeps(s: State, a: Addr, l: seq<Addr>)
    requires FlushInv(s, [a] + l) && !Changed(s, a)
    ensures var s' := Check(SetFlag(s, a, Untouched), a);
            FlushInv(s', l) && Flushes(s, s', [a])
  {
    var s' := SetFlag(s, a, Untouched);
    SetFlagKeeps(s, a, Untouched);
    SameStoreKeeps(s, s');
    SameFresh(s, s');
    SameObjectsKeep(s, s', None);
    assert DepOk(s') by {
      forall k: nat | Resting(s', k) && s'.curr != Some(k) ensures DepFor(s', k) { assert DepFor(s, k); }
    }
    assert FlushMem(s', l) by {
      forall b: nat | b !in l ensures CellAt(s', b).val == MemAt(s', b) && CellAt(s', b).flag == Untouched {
        assert b != a ==> b !in [a] + l;
      }
    }
  }

  lemma FlushesCompose(s: State, s1: State, s': State, a: Addr, l: seq<Addr>)
    requires Flushes(s, s1, [a]) && Flushes(s1, s', l)
    ensures Flushes(s, s', [a] + l)
  {
    forall k: nat | k < |s.cons| ensures s'.cons[k] == s.cons[k] || Enqueued(s, s', k) {
      assert s1.cons[k] == s.cons[k] || Enqueued(s, s1, k);
      assert s'.cons[k] == s1.cons[k] || Enqueued(s1, s', k);
    }
    forall k: nat | Eligible(s, k) ensures s'.cons[k] != s.cons[k] <==> Woken(s, k, [a] + l) {
      WokenSplits(s, s1, k, a, l);
      assert s1.cons[k] == s.cons[k] || Enqueued(s, s1, k);
      assert s'.cons[k] == s1.cons[k] || Enqueued(s1, s', k);
    }
  }

  lemma WokenSplits(s: State, s1: State, k: nat, a: Addr, l: seq<Addr>)
    requires Flushes(s, s1, [a]) && k < |s.cons|
    ensures Woken(s, k, [a] + l) <==> Woken(s, k, [a]) || (s1.cons[k].seen == s.cons[k].seen && Woken(s1, k, l))
  {
    assert s1.cons[k] == s.cons[k] || Enqueued(s, s1, k);
    if Woken(s, k, [a] + l) {
      var b: nat :| b in [a] + l && b in s.cons[k].seen && Changed(s, b);
      if b == a { assert b in [a]; } else { assert b in l && Changed(s1, b); }
    }
    if Woken(s, k, [a]) {
      var b: nat :| b in [a] && b in s.cons[k].seen && Changed(s, b);
      assert b in [a] + l;
    }
    if Woken(s1, k, l) {
      var b: nat :| b in l && b in s1.cons[k].seen && Changed(s1, b);
      assert b in [a] + l && Changed(s, b);
    }
  }

  /** Checking all written cells. */
  lemma {:induction false} FlushKeeps(s: State, l: seq<Addr>)
    requires FlushInv(s, l)
    ensures FlushInv(Flush(s, l), []) && Flushes(s, Flush(s, l), l)
    decreases |l|
  {
    if l != [] {
      assert l == [l[0]] + l[1..];
      CheckKeeps(s, l[0], l[1..]);
      var s1 := Check(SetFlag(s, l[0], Untouched), l[0]);
      FlushKeeps(s1, l[1..]);
      FlushesCompose(s, s1, Flush(s, l), l[0], l[1..]);
    } else {
      assert forall k: nat :: k < |s.cons| ==> !Woken(s, k, l);
    }
  }
}
