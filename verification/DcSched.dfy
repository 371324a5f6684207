/** Scheduling: queueing the dependents of changed cells, and dropping all but the first node. */
module DcSched {
  import opened DcState
  import opened DcInv
  import opened DcLog

  /** From `s` to `s'` some resting constraints, none of them exempt, have been queued; cells, nodes
      and memory are untouched. */
  ghost predicate Queues(s: State, s': State) {
    && s' == s.(top := s'.top, cons := s'.cons, groups := s'.groups)
    && |s'.cons| == |s.cons| && |s'.groups| == |s.groups|
    && (forall k: nat :: k < |s.cons| ==> s'.cons[k] == s.cons[k] || Enqueued(s, s', k))
  }

  /** `k` was at rest in `s` and is waiting in `s'`, in the scheduler of its group, or at top level under the stamp it
      had. */
  ghost predicate Enqueued(s: State, s': State, k: nat) {
    && k < |s.cons| && k < |s'.cons|
    && s.cons[k].place == AtRest
    && (s.selfTrigger || s.curr != Some(k))
    && s'.cons[k].place == (if s.cons[k].group.Some? then InGroup else InTop(s.cons[k].ts))
    && s'.cons[k] == s.cons[k].(ts := SCHED_TIME_STAMP, place := s'.cons[k].place)
  }

  lemma QueuesTransitive(s0: State, s1: State, s2: State)
    requires Queues(s0, s1) && Queues(s1, s2)
    ensures Queues(s0, s2)
  {
    forall k: nat | k < |s0.cons| ensures s2.cons[k] == s0.cons[k] || Enqueued(s0, s2, k) {
      assert s1.cons[k] == s0.cons[k] || Enqueued(s0, s1, k);
      assert s2.cons[k] == s1.cons[k] || Enqueued(s1, s2, k);
    }
  }

  /** Queueing only makes nodes stale. */
  lemma QueuesFresh(s: State, s': State)
    requires Queues(s, s') && StampsOk(s) && NodesOk(s)
    ensures NodesOk(s') && (Unique(s) ==> Unique(s'))
    ensures forall a: nat, n: nat :: Listed(s', a, n) <==> Listed(s, a, n)
    ensures forall n: nat :: UpToDate(s', n) ==> UpToDate(s, n)
    ensures forall a: nat, k: nat :: k < |s.cons| && s'.cons[k] == s.cons[k] ==>
              (HasFresh(s', a, k) <==> HasFresh(s, a, k))
  {
    SameStoreKeeps(s, s');
    forall n: nat | UpToDate(s', n) ensures UpToDate(s, n) {
      var k := s.nodes[n].cons;
      assert k < |s.cons| ==> TsOf(s, k) <= TsOf(s', k);
    }
  }

  // ---- one trigger -----------------------------------------------------------------------------

  lemma QueueAtTopKeeps(s: State, k: nat)
    requires ConsOk(s, None) && Resting(s, k) && s.cons[k].group == None
    ensures ConsOk(QueueCons(s, k), None)
  {
    var s' := QueueCons(s, k);
    assert forall h: nat, j: nat :: h < |s'.groups| ==> InSched(s', None, h, j) == InSched(s, None, h, j);
    forall item ensures s'.top[item] == AtTop(s', None, item) {
      assert s.top[item] == AtTop(s, None, item);
    }
    assert forall j: nat :: InFree(s', None, j) == InFree(s, None, j);
    assert forall j: nat :: AmongNew(s', None, j) == AmongNew(s, None, j);
  }

  lemma QueueInGroupKeeps(s: State, k: nat)
    requires ConsOk(s, None) && Resting(s, k) && s.cons[k].group.Some?
    ensures ConsOk(QueueCons(s, k), None)
  {
    var s' := QueueCons(s, k);
    forall h: nat, j: nat | h < |s'.groups| ensures s'.groups[h].sched[j] == InSched(s', None, h, j) {
      assert s.groups[h].sched[j] == InSched(s, None, h, j);
    }
    assert forall item :: AtTop(s', None, item) == AtTop(s, None, item);
    assert forall j: nat :: InFree(s', None, j) == InFree(s, None, j);
    assert forall j: nat :: AmongNew(s', None, j) == AmongNew(s, None, j);
  }

  lemma QueueConsKeeps(s: State, k: nat)
    requires ConsOk(s, None) && Resting(s, k)
    requires s.selfTrigger || s.curr != Some(k)
    ensures ConsOk(QueueCons(s, k), None)
    ensures Queues(s, QueueCons(s, k)) && Enqueued(s, QueueCons(s, k), k)
  {
    if s.cons[k].group == None { QueueAtTopKeeps(s, k); } else { QueueInGroupKeeps(s, k); }
  }

  lemma QueueGroupKeeps(s: State, g: nat)
    requires ConsOk(s, None)
    requires g < |s.groups| && (Unscheduled(s.groups[g].ts) ==> s.groups[g].spot == Off)
    ensures ConsOk(QueueGroup(s, g), None) && Queues(s, QueueGroup(s, g))
  {
    var s' := QueueGroup(s, g);
    forall h: nat, j: nat | h < |s'.groups| ensures s'.groups[h].sched[j] == InSched(s', None, h, j) {
      assert s.groups[h].sched[j] == InSched(s, None, h, j);
    }
    forall item ensures s'.top[item] == AtTop(s', None, item) {
      assert s.top[item] == AtTop(s, None, item);
    }
    assert forall j: nat :: InFree(s', None, j) == InFree(s, None, j);
    assert forall j: nat :: AmongNew(s', None, j) == AmongNew(s, None, j);
  }

  lemma QueueConsGroups(s: State, k: nat)
    requires k < |s.cons|
    ensures var s1 := QueueCons(s, k);
            && |s1.groups| == |s.groups| && s1.currGroup == s.currGroup && s1.time == s.time
            && (forall h: nat :: h < |s.groups| ==> s1.groups[h] == s.groups[h].(sched := s1.groups[h].sched))
            && (forall h: nat :: h < |s.groups| && s.cons[k].group != Some(h) ==> s1.groups[h] == s.groups[h])
  {}

  /** Queueing a member and then its group leaves no queued member in a group that is off. */
  lemma QueueGroupOk(s: State, s1: State, g: nat)
    requires GroupsOk(s) && s.time < DEL_TIME_STAMP && g < |s.groups|
    requires |s1.groups| == |s.groups| && s1.currGroup == s.currGroup && s1.time == s.time
    requires s1.groups[g] == s.groups[g].(sched := s1.groups[g].sched)
    requires forall h: nat :: h < |s.groups| && h != g ==> s1.groups[h] == s.groups[h]
    ensures GroupsOk(QueueGroup(s1, g))
  {
    var s' := QueueGroup(s1, g);
    forall h: nat | h < |s'.groups| ensures GroupOk(s', h) {
      assert GroupOk(s, h);
    }
  }

  lemma TriggerGroupsOk(s: State, k: nat)
    requires StampsOk(s) && GroupsOk(s) && Resting(s, k)
    ensures GroupsOk(Trigger(s, k))
  {
    var s1 := if Triggers(s, k) then QueueCons(s, k) else s;
    QueueConsGroups(s, k);
    match s.cons[k].group
    case None =>
      forall h: nat | h < |s1.groups| ensures GroupOk(s1, h) { assert GroupOk(s, h); }
    case Some(g) => QueueGroupOk(s, s1, g);
  }

  lemma TriggerKeeps(s: State, k: nat)
    requires ConsOk(s, None) && GroupsOk(s) && Resting(s, k)
    ensures ConsOk(Trigger(s, k), None) && GroupsOk(Trigger(s, k)) && Queues(s, Trigger(s, k))
    ensures Triggers(s, k) ==> Enqueued(s, Trigger(s, k), k)
    ensures !Triggers(s, k) ==> !s.selfTrigger && s.curr == Some(k)
    ensures forall j: nat :: j < |s.cons| && (j != k || !Triggers(s, k)) ==> Trigger(s, k).cons[j] == s.cons[j]
  {
    TriggerGroupsOk(s, k);
    assert Unscheduled(TsOf(s, k));
    var s1 := if Triggers(s, k) then QueueCons(s, k) else s;
    if Triggers(s, k) { QueueConsKeeps(s, k); }
    if GroupOf(s, k).Some? { TriggerGroupKeeps(s, s1, k, GroupOf(s, k).value); }
  }

  /** The group part: `s1` is the state after the constraint has been queued, or left alone. */
  lemma TriggerGroupKeeps(s: State, s1: State, k: nat, g: nat)
    requires GroupsOk(s) && ConsOk(s1, None) && Queues(s, s1) && Resting(s, k) && s.cons[k].group == Some(g)
        && g < |s.groups|
    requires s1 == if Triggers(s, k) then QueueCons(s, k) else s
    ensures ConsOk(QueueGroup(s1, g), None) && Queues(s, QueueGroup(s1, g)) && QueueGroup(s1, g).cons == s1.cons
  {
    assert GroupOk(s, g);
    QueueConsGroups(s, k);
    QueueGroupKeeps(s1, g);
    QueuesTransitive(s, s1, QueueGroup(s1, g));
  }

  // ---- the scan loop ---------------------------------------------------------------------------

  /** What scanning `l` does: it queues exactly the constraints with an up-to-date node in `l`, the
      exempt one aside. */
  ghost predicate Scans(s: State, s': State, l: seq<nat>) {
    && Queues(s, s')
    && (forall n: nat :: n in l && UpToDate(s', n) ==> !s.selfTrigger && s.curr == Some(s.nodes[n].cons))
    && (forall k: nat :: k < |s.cons| && s'.cons[k] != s.cons[k] ==> exists n: nat :: n in l && FreshFor(s, n, k))
  }

  ghost predicate Scannable(s: State, l: seq<nat>) {
    forall n: nat :: n in l ==> n < |s.nodes| && s.nodes[n].ts <= s.time && s.nodes[n].cons < |s.cons|
  }

  lemma ScanOne(s: State, n: nat)
    requires NodesOk(s) && ConsOk(s, None) && GroupsOk(s) && Scannable(s, [n])
    ensures var s1 := if UpToDate(s, n) then Trigger(s, s.nodes[n].cons) else s;
            && ConsOk(s1, None) && GroupsOk(s1) && Scans(s, s1, [n])
  {
    assert n in [n];
    var k := s.nodes[n].cons;
    if UpToDate(s, n) {
      assert Resting(s, k);
      TriggerKeeps(s, k);
      assert FreshFor(s, n, k);
    }
  }

  lemma ScansCompose(s: State, s1: State, s': State, n: nat, l: seq<nat>)
    requires NodesOk(s) && StampsOk(s) && StampsOk(s1)
    requires Scans(s, s1, [n]) && Scans(s1, s', l)
    ensures Scans(s, s', [n] + l)
  {
    QueuesTransitive(s, s1, s');
    QueuesFresh(s, s1);
    QueuesFresh(s1, s');
    forall m: nat | m in [n] + l && UpToDate(s', m) ensures !s.selfTrigger && s.curr == Some(s.nodes[m].cons) {
      assert m in [n] || m in l;
    }
    forall k: nat | k < |s.cons| && s'.cons[k] != s.cons[k] ensures exists m: nat :: m in [n] + l && FreshFor(s, m, k) {
      if s1.cons[k] != s.cons[k] {
        var m: nat :| m in [n] && FreshFor(s, m, k);
        assert m in [n] + l;
      } else {
        var m: nat :| m in l && FreshFor(s1, m, k);
        assert m in [n] + l && FreshFor(s, m, k);
      }
    }
  }

  lemma {:induction false} ScanKeeps(s: State, l: seq<nat>)
    requires NodesOk(s) && ConsOk(s, None) && GroupsOk(s) && Scannable(s, l)
    ensures ConsOk(Scan(s, l), None) && GroupsOk(Scan(s, l)) && Scans(s, Scan(s, l), l)
    decreases |l|
  {
    if l != [] {
      assert l[0] in l;
      ScanOne(s, l[0]);
      var s1 := if UpToDate(s, l[0]) then Trigger(s, s.nodes[l[0]].cons) else s;
      QueuesFresh(s, s1);
      ScanKeeps(s1, l[1..]);
      ScansCompose(s, s1, Scan(s, l), l[0], l[1..]);
      assert l == [l[0]] + l[1..];
    }
  }

  // ---- keeping the first node only -------------------------------------------------------------

  lemma KeepFirstPartition(s: State, a: Addr)
    requires Partition(s) && forall b: nat, n: nat :: Listed(s, b, n) ==> n < |s.nodes|
    requires forall n: nat :: n in s.freeNodes ==> n < |s.nodes|
    ensures Partition(KeepFirst(s, a))
    ensures forall b: nat :: b != a ==> CellAt(KeepFirst(s, a), b) == CellAt(s, b)
    ensures forall b: nat, n: nat :: Listed(KeepFirst(s, a), b, n) ==> Listed(s, b, n)
  {
    var l := ListAt(s, a);
    var s' := KeepFirst(s, a);
    if l != [] {
      assert l == l[..1] + l[1..];
      assert multiset(l) == multiset(l[..1]) + multiset(l[1..]);
      assert multiset(l[1..] + s.freeNodes) == multiset(l[1..]) + multiset(s.freeNodes);
      assert forall m: nat :: Occ(s', a, m) + OccFree(s', m) == Occ(s, a, m) + OccFree(s, m);
      assert forall b: nat :: b != a ==> ListAt(s', b) == ListAt(s, b);
      forall b: nat, n: nat | Listed(s', b, n) ensures Listed(s, b, n) {
        if b == a { assert n in l[..1]; }
      }
      PartitionStep(s, s', a);
    }
  }

  lemma KeepFirstKeeps(s: State, a: Addr)
    requires NodesOk(s) && Unique(s)
    ensures NodesOk(KeepFirst(s, a)) && Unique(KeepFirst(s, a))
    ensures forall b: nat :: b != a ==> CellAt(KeepFirst(s, a), b) == CellAt(s, b)
    ensures forall b: nat, n: nat :: Listed(KeepFirst(s, a), b, n) ==> Listed(s, b, n)
    ensures ListAt(s, a) != [] ==> ListAt(KeepFirst(s, a), a) == [ListAt(s, a)[0]]
  {
    KeepFirstPartition(s, a);
    var l := ListAt(s, a);
    forall n: nat | n in KeepFirst(s, a).freeNodes ensures n < |s.nodes| {
      if n !in s.freeNodes { assert n in l[1..]; assert Listed(s, a, n); }
    }
  }
}
