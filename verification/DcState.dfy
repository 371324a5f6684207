/** The DC constraint solver as a state machine: the globals of dc2/include/dc_globals.h, the objects
    of dc2/include/dc_defs.h, and one function for each operation that changes them.

    A constraint body is not a datatype here: a run is any sequence of operations, so a body may do
    anything between entering (`ExecCons`) and leaving (`Leave`) constraint execution mode.
    Fields marked "history" are never read by an operation; the theorems speak about them. */
module DcState {

  datatype Option<+T> = None | Some(value: T)

  /** A reactive address, and a 32-bit value, of which the solver only tests equality. */
  type Addr = nat
  type Word = nat

  const MAX_TIME_STAMP: nat := 0xFFFF_FFFD
  const DEL_TIME_STAMP: nat := 0xFFFF_FFFE
  const SCHED_TIME_STAMP: nat := 0xFFFF_FFFF
  const CELL_COUNTDOWN: nat := 2
  const MAX_NESTING: nat := 0xFFFF_FFFF

  /** The two stolen low bits of a shadow record. */
  datatype Flag = Untouched | ReadMark | WrittenMark

  /** A dependency node: the constraint `cons` logged a read at time `ts`. */
  datatype Dep = Dep(ts: nat, cons: nat)

  /** A cell record. `list` holds the ids of its dependency nodes, first node first.
      History: `base` is the countdown set by the last cleanup, `allocs` the nodes ever allocated for
      the cell and `visits` the nodes ever visited by its cleanup loops. */
  datatype Cell = Cell(list: seq<nat>, countdown: nat, val: Word, flag: Flag,
                       base: nat, allocs: nat, visits: nat)

  /** Where a constraint object is (history). */
  datatype Place = Free | AtRest | InNew | InGroup | InTop(key: nat)

  /** What a constraint body does to reactive memory. */
  datatype Event = Rd(a: Addr, v: Word) | Wr(a: Addr, v: Word)

  /** A constraint object; `fun` stands for its function and parameter. History: `place`; `seen`, the cells logged by
      the last complete execution with the value each had when that execution finished; `trace`, the accesses it
      made. */
  datatype Cons = Cons(fun: nat, ts: nat, group: Option<nat>, place: Place,
                       seen: map<Addr, Word>, trace: seq<Event>)

  /** Where a group is (history). */
  datatype Spot = Off | Queued(key: nat) | Current

  /** A group with its scheduler contents. The scheduler class is user-defined, so `sched` has no order. */
  datatype Group = Group(ts: nat, self: bool, sched: multiset<nat>, spot: Spot)

  datatype Obj = ConsObj(k: nat) | GroupObj(g: nat)

  /** An entry of the top-level scheduler, with the time stamp captured when it was scheduled. */
  datatype Item = Item(key: nat, obj: Obj)

  /** Control point: normal mode, inside a constraint body, at the head of the dispatch loop, stopped
      by the missing constraint of an empty group, stopped by time-stamp overflow. */
  datatype Pc = Idle | Body | Loop | Stuck | Halted

  datatype State = State(
    pc: Pc,
    time: nat,
    atomic: nat,
    noLog: nat,
    curr: Option<nat>,
    currGroup: Option<nat>,
    selfTrigger: bool,
    rd: seq<Addr>,
    wr: seq<Addr>,
    initList: seq<nat>,
    tempList: seq<nat>,
    top: multiset<Item>,
    cells: map<Addr, Cell>,
    nodes: seq<Dep>,
    freeNodes: seq<nat>,
    cons: seq<Cons>,
    freeCons: seq<nat>,
    groups: seq<Group>,
    mem: map<Addr, Word>,
    trace: seq<Event>)

  function Init(): State {
    State(Idle, 0, 0, 1, None, None, false, [], [], [], [], multiset{}, map[], [], [], [], [], [], map[], [])
  }

  // ---- lookups ---------------------------------------------------------------------------------

  /** The record allocated on first access. */
  const FRESH_CELL := Cell([], CELL_COUNTDOWN, 0, Untouched, CELL_COUNTDOWN, 0, 0)

  function CellAt(s: State, a: Addr): Cell {
    if a in s.cells then s.cells[a] else FRESH_CELL
  }

  function ListAt(s: State, a: Addr): seq<nat> { CellAt(s, a).list }

  /** Reactive memory is zero until first written. */
  function MemAt(s: State, a: Addr): Word {
    if a in s.mem then s.mem[a] else 0
  }

  function TsOf(s: State, k: nat): nat {
    if k < |s.cons| then s.cons[k].ts else 0
  }

  function GroupOf(s: State, k: nat): Option<nat> {
    if k < |s.cons| then s.cons[k].group else None
  }

  predicate Unscheduled(ts: nat) { ts < DEL_TIME_STAMP }

  /** Node `n` is up to date: it was logged by the latest execution of its constraint. */
  predicate UpToDate(s: State, n: nat) {
    n < |s.nodes| && s.nodes[n].ts >= TsOf(s, s.nodes[n].cons)
  }

  // ---- reading ---------------------------------------------------------------------------------

  /** The nodes the cleanup loop keeps. */
  function Keep(s: State, l: seq<nat>): seq<nat> {
    if l == [] then [] else if UpToDate(s, l[0]) then [l[0]] + Keep(s, l[1..]) else Keep(s, l[1..])
  }

  /** The free list after the cleanup loop has pushed the stale nodes of `l` on it. */
  function Release(s: State, l: seq<nat>, free: seq<nat>): seq<nat> {
    if l == [] then free
    else if UpToDate(s, l[0]) then Release(s, l[1..], free)
    else Release(s, l[1..], [l[0]] + free)
  }

  /** Puts a new node with contents `d` at the front of the list of `a`, and cleans the list up if the
      countdown has reached zero. */
  function AddNode(s: State, a: Addr, d: Dep): State {
    var c := CellAt(s, a);
    var n := if s.freeNodes == [] then |s.nodes| else s.freeNodes[0];
    var free := if s.freeNodes == [] then [] else s.freeNodes[1..];
    var nodes := if n < |s.nodes| then s.nodes[n := d] else s.nodes + [d];
    if c.countdown > 0 then
      s.(nodes := nodes, freeNodes := free,
         cells := s.cells[a := c.(list := [n] + c.list, countdown := c.countdown - 1, allocs := c.allocs + 1)])
    else
      var kept := Keep(s, c.list);
      s.(nodes := nodes, freeNodes := Release(s, c.list, free),
         cells := s.cells[a := c.(list := [n] + kept, countdown := |kept|, base := |kept|,
                                  allocs := c.allocs + 1, visits := c.visits + |c.list|)])
  }

  /** Overwrites the stale first node of `a`, or adds a node. */
  function LogDep(s: State, a: Addr, d: Dep): State {
    var l := ListAt(s, a);
    if l == [] || l[0] >= |s.nodes| || UpToDate(s, l[0]) then AddNode(s, a, d)
    else s.(nodes := s.nodes[l[0] := d])
  }

  function SetFlag(s: State, a: Addr, f: Flag): State {
    s.(cells := s.cells[a := CellAt(s, a).(flag := f)])
  }

  function ReadHandler(s: State, a: Addr): State {
    var k := if s.curr.Some? then s.curr.value else 0;
    var s1 := LogDep(s.(rd := s.rd + [a], cells := s.cells[a := CellAt(s, a)]), a, Dep(s.time, k));
    SetFlag(s1, a, ReadMark)
  }

  /** A load from reactive memory: the read handler runs if logging is on and bit 0 is clear. */
  function ReadOp(s: State, a: Addr): State {
    var s1 := if s.noLog == 0 && CellAt(s, a).flag == Untouched then ReadHandler(s, a) else s;
    if s.pc == Body then s1.(trace := s1.trace + [Rd(a, MemAt(s, a))]) else s1
  }

  // ---- scheduling ------------------------------------------------------------------------------

  /** Queues constraint `k`, unless it is already queued or is the exempt current constraint. */
  predicate Triggers(s: State, k: nat) {
    Unscheduled(TsOf(s, k)) && (s.selfTrigger || s.curr != Some(k))
  }

  function QueueCons(s: State, k: nat): State
    requires k < |s.cons|
  {
    var c := s.cons[k];
    match c.group
    case None =>
      s.(top := s.top + multiset{Item(c.ts, ConsObj(k))},
         cons := s.cons[k := c.(ts := SCHED_TIME_STAMP, place := InTop(c.ts))])
    case Some(g) =>
      if g < |s.groups| then
        var gr := s.groups[g];
        s.(groups := s.groups[g := gr.(sched := gr.sched + multiset{k})],
           cons := s.cons[k := c.(ts := SCHED_TIME_STAMP, place := InGroup)])
      else s
  }

  /** Queues group `g` at top level, unless it is already queued or current. */
  function QueueGroup(s: State, g: nat): State {
    if g < |s.groups| && Unscheduled(s.groups[g].ts) then
      var gr := s.groups[g];
      s.(top := s.top + multiset{Item(gr.ts, GroupObj(g))},
         groups := s.groups[g := gr.(ts := SCHED_TIME_STAMP, spot := Queued(gr.ts))])
    else s
  }

  /** One turn of the scan loop of `_schedule`, for an up-to-date node of `k`. */
  function Trigger(s: State, k: nat): State {
    var s1 := if k < |s.cons| && Triggers(s, k) then QueueCons(s, k) else s;
    match GroupOf(s, k)
    case None => s1
    case Some(g) => QueueGroup(s1, g)
  }

  function Scan(s: State, l: seq<nat>): State
    decreases |l|
  {
    if l == [] then s
    else Scan(if UpToDate(s, l[0]) then Trigger(s, s.nodes[l[0]].cons) else s, l[1..])
  }

  /** Frees every node of the list of `a` but the first. */
  function KeepFirst(s: State, a: Addr): State {
    var l := ListAt(s, a);
    if l == [] then s
    else s.(cells := s.cells[a := CellAt(s, a).(list := l[..1])], freeNodes := l[1..] + s.freeNodes)
  }

  function Schedule(s: State, a: Addr): State {
    KeepFirst(Scan(s, ListAt(s, a)), a)
  }

  // ---- writing ---------------------------------------------------------------------------------

  /** Compares memory with the last known value of `a`, and schedules its dependents if it changed. */
  function Check(s: State, a: Addr): State {
    var c := CellAt(s, a);
    if c.val == MemAt(s, a) then s
    else Schedule(s.(cells := s.cells[a := c.(val := MemAt(s, a))]), a)
  }

  /** The write handler, which runs after the store: within an atomic section it logs the write,
      otherwise it schedules the dependents and starts the dispatch loop. */
  function WriteHandler(s: State, a: Addr): State {
    if s.atomic != 0 then SetFlag(s.(wr := s.wr + [a]), a, WrittenMark)
    else
      var c := CellAt(s, a);
      var s1 := s.(cells := s.cells[a := c]);
      if c.val == MemAt(s, a) then s1
      else Check(s1, a).(atomic := 1, pc := Loop)
  }

  /** A store to reactive memory: the write handler runs if bit 1 is clear. */
  function WriteOp(s: State, a: Addr, v: Word): State {
    var s1 := s.(mem := s.mem[a := v], trace := if s.pc == Body then s.trace + [Wr(a, v)] else s.trace);
    if CellAt(s1, a).flag == WrittenMark then s1 else WriteHandler(s1, a)
  }

  // ---- closing an atomic section ---------------------------------------------------------------

  function ClearFlags(s: State, l: seq<Addr>): State
    decreases |l|
  {
    if l == [] then s else ClearFlags(SetFlag(s, l[0], Untouched), l[1..])
  }

  function Flush(s: State, l: seq<Addr>): State
    decreases |l|
  {
    if l == [] then s else Flush(Check(SetFlag(s, l[0], Untouched), l[0]), l[1..])
  }

  function Finalize(s: State): State {
    var s1 := s.(initList := s.tempList + s.initList, tempList := []);
    var s2 := ClearFlags(s1, s.rd).(rd := []);
    Flush(s2, s.wr).(wr := [])
  }

  // ---- executing constraints -------------------------------------------------------------------

  /** Frees a constraint that was deleted while queued; runs any other. */
  function ExecCons(s: State, k: nat): State
    requires k < |s.cons|
  {
    if s.cons[k].ts == DEL_TIME_STAMP then
      s.(freeCons := [k] + s.freeCons, cons := s.cons[k := s.cons[k].(place := Free)])
    else if s.time + 1 > MAX_TIME_STAMP then
      s.(time := s.time + 1, pc := Halted)
    else
      s.(time := s.time + 1, cons := s.cons[k := s.cons[k].(ts := s.time + 1, place := AtRest)],
         curr := Some(k), noLog := 0, pc := Body, trace := [])
  }

  /** History: what the execution that is about to finish logged. An execution that deleted its own
      constraint leaves nothing to remember. */
  function Remember(s: State): State {
    if s.curr.Some? && s.curr.value < |s.cons| && s.cons[s.curr.value].place == AtRest then
      var k := s.curr.value;
      s.(cons := s.cons[k := s.cons[k].(seen := map a | a in s.rd :: MemAt(s, a), trace := s.trace)])
    else s
  }

  /** The end of a constraint body. */
  function Leave(s: State): State {
    Finalize(Remember(s).(noLog := 1)).(curr := None, pc := Loop, trace := [])
  }

  /** Takes the first of the new constraints. */
  function RunNew(s: State): State
    requires s.initList != [] && s.initList[0] < |s.cons|
  {
    ExecCons(s.(initList := s.initList[1..]), s.initList[0])
  }

  /** Takes constraint `k` out of the scheduler of group `g`. */
  function RunInGroup(s: State, g: nat, k: nat): State
    requires g < |s.groups| && k < |s.cons|
  {
    var gr := s.groups[g];
    ExecCons(s.(groups := s.groups[g := gr.(sched := gr.sched - multiset{k})]), k)
  }

  function LeaveGroup(s: State): State {
    match s.currGroup
    case None => s
    case Some(g) =>
      var s1 := s.(currGroup := None, selfTrigger := false);
      if g < |s.groups| then s1.(groups := s.groups[g := s.groups[g].(ts := s.time, spot := Off)]) else s1
  }

  predicate IsMin(top: multiset<Item>, item: Item) {
    item in top && forall other :: other in top ==> item.key <= other.key
  }

  /** One turn of the dispatch loop with no new constraint pending and no group being executed. `item`
      is the entry the top-level scheduler picks, and `k` the constraint the group's scheduler picks. */
  function RunTop(s: State, item: Item, k: nat): State {
    if s.top == multiset{} then s.(atomic := 0, pc := Idle)
    else if !IsMin(s.top, item) then s
    else
      var s1 := s.(top := s.top - multiset{item});
      match item.obj
      case ConsObj(c) => if c < |s.cons| then ExecCons(s1, c) else s
      case GroupObj(g) =>
        if g >= |s.groups| then s else
        var gr := s.groups[g];
        var s2 := s1.(currGroup := Some(g), selfTrigger := gr.self,
                      groups := s.groups[g := gr.(spot := Current)]);
        if gr.sched == multiset{} then s2.(pc := Stuck)
        else if k in gr.sched && k < |s.cons| then RunInGroup(s2, g, k)
        else s
  }

  function DispatchTurn(s: State, item: Item, k: nat): State {
    if s.initList != [] then
      if s.initList[0] < |s.cons| then RunNew(s) else s
    else match s.currGroup
      case None => RunTop(s, item, k)
      case Some(g) =>
        if g < |s.groups| && s.groups[g].sched != multiset{} then
          if k in s.groups[g].sched && k < |s.cons| then RunInGroup(s, g, k) else s
        else RunTop(LeaveGroup(s), item, k)
  }

  // ---- creating and deleting -------------------------------------------------------------------

  /** The id of the object the constraint pool hands out next. */
  function NextCons(s: State): nat {
    if s.freeCons == [] then |s.cons| else s.freeCons[0]
  }

  function AllocCons(s: State, fun: nat, g: Option<nat>, place: Place): State {
    var k := NextCons(s);
    var c := Cons(fun, SCHED_TIME_STAMP, g, place, map[], []);
    s.(cons := if k < |s.cons| then s.cons[k := c] else s.cons + [c],
       freeCons := if s.freeCons == [] then [] else s.freeCons[1..])
  }

  /** Within an atomic section the new constraint joins the temporary list; otherwise it runs at once,
      with its group as the current group. */
  function NewCons(s: State, fun: nat, g: Option<nat>): State {
    var k := NextCons(s);
    var s1 := AllocCons(s, fun, g, InNew);
    if s.atomic != 0 then s1.(tempList := s1.tempList + [k])
    else if k >= |s1.cons| then s
    else
      ExecCons(EnterGroup(s1, g), k)
  }

  /** Opens the atomic section of the dispatch loop with `g` as the current group. */
  function EnterGroup(s: State, g: Option<nat>): State {
    var s1 := s.(atomic := 1, currGroup := g, pc := Loop);
    match g
    case None => s1
    case Some(h) =>
      if h < |s1.groups| then
        s1.(selfTrigger := s1.groups[h].self,
            groups := s1.groups[h := s1.groups[h].(ts := SCHED_TIME_STAMP, spot := Current)])
      else s1
  }

  function DelCons(s: State, k: nat): State
    requires k < |s.cons|
  {
    var c := s.cons[k];
    if Unscheduled(c.ts) then
      s.(freeCons := [k] + s.freeCons, cons := s.cons[k := c.(ts := DEL_TIME_STAMP, place := Free)])
    else s.(cons := s.cons[k := c.(ts := DEL_TIME_STAMP)])
  }

  /** A constraint the program may still name: allocated and not deleted. */
  predicate Live(s: State, k: nat) {
    k < |s.cons| && s.cons[k].place != Free && s.cons[k].ts != DEL_TIME_STAMP
  }

  // ---- atomic and no-log blocks ----------------------------------------------------------------

  function BeginAt(s: State): State {
    if s.curr.Some? || s.atomic == MAX_NESTING then s else s.(atomic := s.atomic + 1)
  }

  function EndAt(s: State): State {
    if s.curr.Some? || s.atomic == 0 then s
    else if s.atomic == 1 then Finalize(s.(atomic := 0)).(atomic := 1, pc := Loop)
    else s.(atomic := s.atomic - 1)
  }

  function BeginNoLog(s: State): State {
    if s.curr == None || s.noLog == MAX_NESTING then s else s.(noLog := s.noLog + 1)
  }

  function EndNoLog(s: State): State {
    if s.curr == None || s.noLog == 0 then s else s.(noLog := s.noLog - 1)
  }

  // ---- runs ------------------------------------------------------------------------------------

  /** What happens next: user code acts (the first ten), a body ends, or the dispatch loop turns. */
  datatype Op =
    | Read(a: Addr)
    | Write(a: Addr, v: Word)
    | New(fun: nat, g: Option<nat>)
    | Del(k: nat)
    | OpenAt
    | CloseAt
    | OpenNoLog
    | CloseNoLog
    | NewGroup
    | SetSelf(h: nat, self: bool)
    | EndBody
    | Turn(item: Item, k: nat)

  /** User code runs in normal mode and in constraint bodies. */
  predicate UserMode(s: State) { s.pc == Idle || s.pc == Body }

  /** `op` may happen in `s`: its caller obligations are met. */
  predicate Enabled(s: State, op: Op) {
    match op
    case New(_, g) => UserMode(s) && (g.Some? ==> g.value < |s.groups|)
    case Del(k) => UserMode(s) && Live(s, k)
    case SetSelf(g, _) => UserMode(s) && g < |s.groups|
    case EndBody => s.pc == Body
    case Turn(_, _) => s.pc == Loop
    case _ => UserMode(s)
  }

  function Apply(s: State, op: Op): State {
    if !Enabled(s, op) then s else
    match op
    case Read(a) => ReadOp(s, a)
    case Write(a, v) => WriteOp(s, a, v)
    case New(fun, g) => NewCons(s, fun, g)
    case Del(k) => DelCons(s, k)
    case OpenAt => BeginAt(s)
    case CloseAt => EndAt(s)
    case OpenNoLog => BeginNoLog(s)
    case CloseNoLog => EndNoLog(s)
    case NewGroup => s.(groups := s.groups + [Group(0, false, multiset{}, Off)])
    case SetSelf(g, b) => s.(groups := s.groups[g := s.groups[g].(self := b)])
    case EndBody => Leave(s)
    case Turn(item, k) => DispatchTurn(s, item, k)
  }

  function Run(s: State, ops: seq<Op>): State
    decreases |ops|
  {
    if ops == [] then s else Run(Apply(s, ops[0]), ops[1..])
  }
}
