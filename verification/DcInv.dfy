/** The invariant of the solver, one predicate for each concern. */
module DcInv {
  import opened DcState

  predicate Listed(s: State, a: Addr, n: nat) { n in ListAt(s, a) }

  /** Node `n` records a read by the latest execution of `k`. */
  predicate FreshFor(s: State, n: nat, k: nat) {
    n < |s.nodes| && s.nodes[n].cons == k && s.nodes[n].ts >= TsOf(s, k)
  }

  /** The list of `a` holds an up-to-date node of `k`: `k` depends on `a`. */
  ghost predicate HasFresh(s: State, a: Addr, k: nat) {
    exists n: nat :: Listed(s, a, n) && FreshFor(s, n, k)
  }

  function Count(l: seq<nat>, n: nat): nat { multiset(l)[n] }

  function Occ(s: State, a: Addr, n: nat): nat { Count(ListAt(s, a), n) }

  function OccFree(s: State, n: nat): nat { Count(s.freeNodes, n) }

  /** Every node is in exactly one cell list or in the free list, and there exactly once. */
  ghost predicate Partition(s: State) {
    && (forall a: nat, n: nat :: Occ(s, a, n) + OccFree(s, n) <= 1)
    && (forall a: nat, b: nat, n: nat :: a != b ==> Occ(s, a, n) + Occ(s, b, n) <= 1)
    && (forall n: nat :: 0 <= n < |s.nodes| ==> n in s.freeNodes || exists a: nat :: Listed(s, a, n))
  }

  ghost predicate NodesOk(s: State) {
    && (forall a: nat, n: nat :: Listed(s, a, n) ==>
          n < |s.nodes| && s.nodes[n].ts <= s.time && s.nodes[n].cons < |s.cons|)
    && (forall n: nat :: n in s.freeNodes ==> n < |s.nodes|)
    && Partition(s)
  }

  /** A cell list has at most one up-to-date node per constraint. */
  ghost predicate Unique(s: State) {
    forall a: nat, n: nat, m: nat ::
      (Listed(s, a, n) && Listed(s, a, m) && UpToDate(s, n) && UpToDate(s, m) && s.nodes[n].cons == s.nodes[m].cons)
      ==> n == m
  }

  predicate Resting(s: State, k: nat) { k < |s.cons| && s.cons[k].place == AtRest }

  /** How often `k` should be in the free list, among the new constraints, in the scheduler of `g` and
      under `key` at top level. The constraint `hand`, just picked, is in none of them. */
  function InFree(s: State, hand: Option<nat>, k: nat): nat {
    if k < |s.cons| && s.cons[k].place == Free && hand != Some(k) then 1 else 0
  }

  function AmongNew(s: State, hand: Option<nat>, k: nat): nat {
    if k < |s.cons| && s.cons[k].place == InNew && hand != Some(k) then 1 else 0
  }

  function InSched(s: State, hand: Option<nat>, g: nat, k: nat): nat {
    if k < |s.cons| && s.cons[k].place == InGroup && s.cons[k].group == Some(g) && hand != Some(k) then 1 else 0
  }

  function AtTop(s: State, hand: Option<nat>, item: Item): nat {
    match item.obj
    case ConsObj(k) => if k < |s.cons| && s.cons[k].place == InTop(item.key) && hand != Some(k) then 1 else 0
    case GroupObj(g) => if g < |s.groups| && s.groups[g].spot == Queued(item.key) then 1 else 0
  }

  ghost predicate StampsOk(s: State) {
    && s.time <= MAX_TIME_STAMP
    && (forall k: nat :: 0 <= k < |s.cons| ==>
          && (s.cons[k].place == Free ==> s.cons[k].ts == DEL_TIME_STAMP)
          && (s.cons[k].place == AtRest ==> s.cons[k].ts <= s.time)
          && (s.cons[k].place != Free && s.cons[k].place != AtRest ==>
                s.cons[k].ts == SCHED_TIME_STAMP || s.cons[k].ts == DEL_TIME_STAMP)
          && (s.cons[k].place == InGroup ==> s.cons[k].group.Some?)
          && (s.cons[k].place.InTop? ==> s.cons[k].group == None)
          && (s.cons[k].group.Some? ==> s.cons[k].group.value < |s.groups|))
  }

  /** Each constraint object is free, resting, or queued exactly once, where `place` says. */
  ghost predicate PlacesOk(s: State, hand: Option<nat>) {
    && (forall k: nat :: Count(s.freeCons, k) == InFree(s, hand, k))
    && (forall k: nat :: Count(s.tempList, k) + Count(s.initList, k) == AmongNew(s, hand, k))
    && (forall g: nat, k: nat :: 0 <= g < |s.groups| ==> s.groups[g].sched[k] == InSched(s, hand, g, k))
    && (forall item :: s.top[item] == AtTop(s, hand, item))
  }

  ghost predicate ConsOk(s: State, hand: Option<nat>) {
    StampsOk(s) && PlacesOk(s, hand)
  }

  /** A group with queued members is current or queued at top level, and stamped as scheduled. */
  ghost predicate GroupOk(s: State, g: nat)
    requires g < |s.groups|
  {
    && (s.groups[g].spot == Off ==> s.groups[g].ts <= s.time && s.groups[g].sched == multiset{})
    && (s.groups[g].spot != Off ==> s.groups[g].ts == SCHED_TIME_STAMP)
    && (s.groups[g].spot == Current <==> s.currGroup == Some(g))
  }

  ghost predicate GroupsOk(s: State) {
    && (s.currGroup.Some? ==> s.currGroup.value < |s.groups|)
    && (forall g: nat :: g < |s.groups| ==> GroupOk(s, g))
  }

  /** The cells constraint `k` depends on are exactly those its last execution logged, and the last
      known value of each is the value it had when that execution finished. */
  ghost predicate DepFor(s: State, k: nat)
    requires k < |s.cons|
  {
    forall a: nat :: && (a in s.cons[k].seen <==> HasFresh(s, a, k))
                && (a in s.cons[k].seen ==> CellAt(s, a).val == s.cons[k].seen[a])
  }

  ghost predicate DepOk(s: State) {
    forall k: nat :: Resting(s, k) && s.curr != Some(k) ==> DepFor(s, k)
  }

  /** The running constraint depends on exactly the cells of `logged`, and its node is always first. */
  ghost predicate FrontFor(s: State, k: nat, logged: set<Addr>) {
    && (forall a: nat :: a in logged <==> HasFresh(s, a, k))
    && (forall a: nat, n: nat :: Listed(s, a, n) && FreshFor(s, n, k) ==> ListAt(s, a)[0] == n)
  }

  function Cells(l: seq<Addr>): set<Addr> { set a | a in l }

  ghost predicate CurrOk(s: State) {
    s.curr.Some? && Resting(s, s.curr.value) ==>
      s.cons[s.curr.value].ts == s.time && FrontFor(s, s.curr.value, Cells(s.rd))
  }

  /** Flags and logs agree, and a cell that is not logged as written holds its last known value. */
  ghost predicate MemOk(s: State) {
    forall a: nat :: && (CellAt(s, a).flag == WrittenMark <==> a in s.wr)
                && (CellAt(s, a).flag == ReadMark ==> a in s.rd)
                && (a in s.rd ==> CellAt(s, a).flag != Untouched)
                && (CellAt(s, a).flag != WrittenMark ==> CellAt(s, a).val == MemAt(s, a))
  }

  ghost predicate CtlOk(s: State) {
    && (s.currGroup == None ==> !s.selfTrigger)
    && (s.pc == Body <==> s.curr.Some?)
    && (s.curr.Some? ==> s.curr.value < |s.cons|)
    && (s.pc != Body ==> s.noLog == 1 && s.rd == [])
    && (s.pc == Idle ==> s.currGroup == None && s.initList == [] && s.top == multiset{})
    && (s.pc == Idle && s.atomic == 0 ==> s.tempList == [] && s.wr == [])
    && (s.pc != Idle ==> s.atomic == 1)
    && (s.pc == Loop ==> s.tempList == [] && s.wr == [])
  }

  ghost predicate Core(s: State) {
    NodesOk(s) && Unique(s) && ConsOk(s, None) && GroupsOk(s)
  }

  ghost predicate Good(s: State) {
    Core(s) && DepOk(s) && CurrOk(s) && MemOk(s) && CtlOk(s)
  }

  ghost predicate Inv(s: State) {
    s.pc == Stuck || s.pc == Halted || Good(s)
  }

  // ---- frames ----------------------------------------------------------------------------------

  /** The constraint objects, the groups and the queues are the same. */
  ghost predicate SameObjects(s: State, s': State) {
    && s'.cons == s.cons && s'.groups == s.groups && s'.top == s.top
    && s'.tempList == s.tempList && s'.initList == s.initList && s'.freeCons == s.freeCons
    && s'.currGroup == s.currGroup && s'.time == s.time
  }

  lemma SameObjectsKeep(s: State, s': State, hand: Option<nat>)
    requires SameObjects(s, s')
    ensures ConsOk(s, hand) ==> ConsOk(s', hand)
    ensures GroupsOk(s) ==> GroupsOk(s')
  {
    assert forall k: nat :: InFree(s', hand, k) == InFree(s, hand, k);
    assert forall k: nat :: AmongNew(s', hand, k) == AmongNew(s, hand, k);
    assert forall g: nat, k: nat :: InSched(s', hand, g, k) == InSched(s, hand, g, k);
    assert forall item :: AtTop(s', hand, item) == AtTop(s, hand, item);
    assert forall g: nat :: g < |s.groups| && GroupOk(s, g) ==> GroupOk(s', g);
  }

  /** The dependency lists and the nodes are the same. */
  ghost predicate SameStore(s: State, s': State) {
    && s'.nodes == s.nodes && s'.freeNodes == s.freeNodes && s'.time == s.time
    && (forall a: nat :: ListAt(s', a) == ListAt(s, a))
  }

  lemma SameStoreKeeps(s: State, s': State)
    requires SameStore(s, s') && |s.cons| <= |s'.cons|
    ensures NodesOk(s) ==> NodesOk(s')
    ensures forall a: nat, n: nat :: Listed(s', a, n) <==> Listed(s, a, n)
  {
    assert forall a: nat, n: nat :: Listed(s', a, n) <==> Listed(s, a, n);
    assert forall a: nat, n: nat :: Occ(s', a, n) == Occ(s, a, n);
    assert forall n: nat :: OccFree(s', n) == OccFree(s, n);
  }

  /** If the stamps are the same too, so are the dependencies. */
  lemma SameFresh(s: State, s': State)
    requires SameStore(s, s') && s'.cons == s.cons
    ensures forall a: nat, k: nat :: HasFresh(s', a, k) <==> HasFresh(s, a, k)
    ensures Unique(s) ==> Unique(s')
  {
    assert forall a: nat, n: nat :: Listed(s', a, n) <==> Listed(s, a, n);
    assert forall n: nat, k: nat :: FreshFor(s', n, k) <==> FreshFor(s, n, k);
    assert forall n: nat :: UpToDate(s', n) <==> UpToDate(s, n);
  }

  lemma SameFront(s: State, s': State, k: nat, logged: set<Addr>)
    requires SameStore(s, s') && s'.cons == s.cons && FrontFor(s, k, logged)
    ensures FrontFor(s', k, logged)
  {
    SameFresh(s, s');
    forall a: nat, n: nat | Listed(s', a, n) && FreshFor(s', n, k) ensures ListAt(s', a)[0] == n {
      assert Listed(s, a, n) && FreshFor(s, n, k);
    }
  }
}
