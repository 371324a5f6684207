/** The common fixpoint: when the solver has returned, no constraint would change memory if it were run
    again, provided constraint bodies are deterministic, depend only on logged reads, do not change what
    they logged, and no one overwrites what a constraint at rest has written. */
module DcFixpoint {
  import opened DcState
  import opened DcInv
  import opened DcSched
  import opened DcFlush
  import opened DcSteps
  import opened DcTurn
  import opened DcTheorems

  // ---- deterministic bodies --------------------------------------------------------------------

  /** What a body does next, given all it has done and seen so far. */
  datatype Act = Done | Get(a: Addr) | Put(a: Addr, v: Word)
  type Body = seq<Event> -> Act

  function Look(m: map<Addr, Word>, a: Addr): Word { if a in m then m[a] else 0 }

  /** After `past`, body `b` goes on to make exactly the accesses of `t` and then ends. */
  predicate Follows(b: Body, past: seq<Event>, t: seq<Event>)
    decreases |t|
  {
    match b(past)
    case Done => t == []
    case Get(a) => t != [] && t[0] == Rd(a, t[0].v) && Follows(b, past + [t[0]], t[1..])
    case Put(a, v) => t != [] && t[0] == Wr(a, v) && Follows(b, past + [t[0]], t[1..])
  }

  /** Run on memory `m`, what is left of body `b` after `past` makes the accesses of `t` and ends with
      memory `m'`. */
  predicate Executes(b: Body, past: seq<Event>, m: map<Addr, Word>, t: seq<Event>, m': map<Addr, Word>)
    decreases |t|
  {
    match b(past)
    case Done => t == [] && m' == m
    case Get(a) => t != [] && t[0] == Rd(a, Look(m, a)) && Executes(b, past + [t[0]], m, t[1..], m')
    case Put(a, v) => t != [] && t[0] == Wr(a, v) && Executes(b, past + [t[0]], m[a := v], t[1..], m')
  }

  lemma {:induction false} ExecutesOnce(b: Body, past: seq<Event>, m: map<Addr, Word>,
                                        t1: seq<Event>, m1: map<Addr, Word>, t2: seq<Event>, m2: map<Addr, Word>)
    requires Executes(b, past, m, t1, m1) && Executes(b, past, m, t2, m2)
    ensures t1 == t2 && m1 == m2
    decreases |t1|
  {
    match b(past)
    case Done =>
    case Get(a) =>
      ExecutesOnce(b, past + [t1[0]], m, t1[1..], m1, t2[1..], m2);
      assert t1 == [t1[0]] + t1[1..] && t2 == [t2[0]] + t2[1..];
    case Put(a, v) =>
      ExecutesOnce(b, past + [t1[0]], m[a := v], t1[1..], m1, t2[1..], m2);
      assert t1 == [t1[0]] + t1[1..] && t2 == [t2[0]] + t2[1..];
  }

  // ---- traces ----------------------------------------------------------------------------------

  predicate Writes(t: seq<Event>, a: Addr) { exists i: nat :: i < |t| && t[i].Wr? && t[i].a == a }

  /** The last value written to `a`. */
  function LastWrite(t: seq<Event>, a: Addr): Option<Word> {
    if t == [] then None
    else if t[|t| - 1].Wr? && t[|t| - 1].a == a then Some(t[|t| - 1].v)
    else LastWrite(t[..|t| - 1], a)
  }

  lemma {:induction false} LastWriteWrites(t: seq<Event>, a: Addr)
    ensures Writes(t, a) <==> LastWrite(t, a).Some?
  {
    if t != [] {
      var n := |t| - 1;
      LastWriteWrites(t[..n], a);
      if Writes(t, a) && !(t[n].Wr? && t[n].a == a) {
        var i: nat :| i < |t| && t[i].Wr? && t[i].a == a;
        assert t[..n][i] == t[i];
      }
      if Writes(t[..n], a) {
        var i: nat :| i < n && t[..n][i].Wr? && t[..n][i].a == a;
        assert t[i] == t[..n][i];
      }
    }
  }

  /** Step `i` of the trace reads a cell the body has not written before. */
  predicate FirstRead(t: seq<Event>, i: nat) { i < |t| && t[i].Rd? && !Writes(t[..i], t[i].a) }

  /** A read sees what the body itself wrote last, if it wrote the cell at all. */
  predicate ReadsOwn(t: seq<Event>) {
    forall i: nat :: i < |t| && t[i].Rd? && Writes(t[..i], t[i].a) ==> LastWrite(t[..i], t[i].a) == Some(t[i].v)
  }

  /** Memory holds every value the body read before writing, and the last of those it wrote. */
  ghost predicate Settled(t: seq<Event>, m: map<Addr, Word>) {
    && ReadsOwn(t)
    && (forall i: nat :: FirstRead(t, i) ==> Look(m, t[i].a) == t[i].v)
    && (forall a: nat :: Writes(t, a) ==> a in m && LastWrite(t, a) == Some(m[a]))
  }

  /** Memory during the rerun: what was written so far, and otherwise what was there. */
  ghost predicate Midway(m: map<Addr, Word>, now: map<Addr, Word>, past: seq<Event>) {
    && now.Keys == m.Keys
    && (forall a: nat :: a in m ==> now[a] == match LastWrite(past, a) case Some(v) => v case None => m[a])
  }

  /** Rerunning a settled trace follows the same path and leaves memory as it was. */
  lemma {:induction false} SettledRerun(b: Body, past: seq<Event>, t: seq<Event>, m: map<Addr, Word>,
                                        now: map<Addr, Word>)
    requires Settled(past + t, m) && Follows(b, past, t) && Midway(m, now, past)
    ensures Executes(b, past, now, t, m)
    decreases |t|
  {
    var whole := past + t;
    if t == [] {
      assert whole == past;
      forall a: nat | a in m ensures now[a] == m[a] { LastWriteWrites(past, a); }
    } else {
      var e := t[0];
      var i := |past|;
      assert whole[i] == e && whole[..i] == past && past + [e] + t[1..] == whole;
      LastWriteWrites(past, e.a);
      assert (past + [e])[..|past|] == past;
      if e.Wr? {
        assert Writes(whole, e.a);
        SettledRerun(b, past + [e], t[1..], m, now[e.a := e.v]);
      } else {
        assert Writes(past, e.a) ==> Writes(whole, e.a) by {
          if Writes(past, e.a) {
            var j: nat :| j < |past| && past[j].Wr? && past[j].a == e.a;
            assert whole[j] == past[j];
          }
        }
        assert FirstRead(whole, i) || Writes(whole[..i], e.a);
        assert Look(now, e.a) == e.v;
        SettledRerun(b, past + [e], t[1..], m, now);
      }
    }
  }

  // ---- disciplined runs ------------------------------------------------------------------------

  /** What the theorem asks of the program at each operation: a body reads with logging on, unless it
      has accessed the cell before; no one writes a cell which a constraint at rest wrote in its last
      execution, but that constraint; and when a body ends, it has done what the function of its
      constraint does on these values, and the cells it read before writing hold what it read. */
  ghost predicate Disciplined(bodies: nat -> Body, s: State, op: Op) {
    match op
    case Read(a) => s.pc == Body ==> s.noLog == 0 || CellAt(s, a).flag != Untouched
    case Write(a, _) => forall j: nat :: Resting(s, j) && s.curr != Some(j) ==> !Writes(s.cons[j].trace, a)
    case EndBody =>
      s.curr.Some? && Resting(s, s.curr.value) ==>
        && Follows(bodies(s.cons[s.curr.value].fun), [], s.trace)
        && (forall i: nat :: FirstRead(s.trace, i) ==> MemAt(s, s.trace[i].a) == s.trace[i].v)
    case _ => true
  }

  ghost predicate RunDisciplined(bodies: nat -> Body, s: State, ops: seq<Op>)
    decreases |ops|
  {
    ops == [] ||
    ((Enabled(s, ops[0]) ==> Disciplined(bodies, s, ops[0])) && RunDisciplined(bodies, Apply(s, ops[0]), ops[1..]))
  }

  /** What `j` did in its last execution is still what it would do. */
  ghost predicate Stable(bodies: nat -> Body, s: State, j: nat)
    requires j < |s.cons|
  {
    var c := s.cons[j];
    && Follows(bodies(c.fun), [], c.trace)
    && ReadsOwn(c.trace)
    && (forall i: nat :: FirstRead(c.trace, i) ==> c.trace[i].a in c.seen && c.seen[c.trace[i].a] == c.trace[i].v)
    && (forall a: nat :: Writes(c.trace, a) ==> a in s.mem && LastWrite(c.trace, a) == Some(s.mem[a]))
  }

  /** The trace of the body being executed: its first reads are logged, the cells it wrote are flagged
      and hold what it wrote last. */
  ghost predicate TraceOk(s: State) {
    && ReadsOwn(s.trace)
    && (forall i: nat :: FirstRead(s.trace, i) ==> s.trace[i].a in s.rd)
    && (forall a: nat :: Writes(s.trace, a) ==> a in s.mem && LastWrite(s.trace, a) == Some(s.mem[a]))
    && (forall a: nat :: a in s.wr ==> Writes(s.trace, a))
  }

  ghost predicate FixInv(bodies: nat -> Body, s: State) {
    && (forall j: nat :: Resting(s, j) && s.curr != Some(j) ==> Stable(bodies, s, j))
    && (s.pc == Body ==> TraceOk(s))
  }

  // ---- extending the trace ---------------------------------------------------------------------

  lemma TraceExtends(t: seq<Event>, e: Event)
    ensures forall i: nat :: FirstRead(t + [e], i) <==> FirstRead(t, i) || (i == |t| && e.Rd? && !Writes(t, e.a))
    ensures forall a: nat :: Writes(t + [e], a) <==> Writes(t, a) || (e.Wr? && e.a == a)
    ensures forall a: nat :: LastWrite(t + [e], a) == if e.Wr? && e.a == a then Some(e.v) else LastWrite(t, a)
    ensures ReadsOwn(t) && (e.Rd? && Writes(t, e.a) ==> LastWrite(t, e.a) == Some(e.v)) ==> ReadsOwn(t + [e])
  {
    var t' := t + [e];
    assert t'[..|t|] == t && t'[|t|] == e;
    assert forall i: nat :: i < |t| ==> t'[..i] == t[..i] && t'[i] == t[i];
    forall a: nat ensures Writes(t', a) <==> Writes(t, a) || (e.Wr? && e.a == a) {
      if Writes(t, a) {
        var i: nat :| i < |t| && t[i].Wr? && t[i].a == a;
        assert t'[i] == t[i];
      }
    }
  }

  lemma ReadShape(s: State, a: Addr)
    requires s.pc == Body
    ensures var s' := ReadOp(s, a);
            && s'.trace == s.trace + [Rd(a, MemAt(s, a))] && s'.mem == s.mem && s'.wr == s.wr
            && s'.cons == s.cons && s'.curr == s.curr && s'.pc == s.pc
            && (s'.rd == s.rd || s'.rd == s.rd + [a])
            && (s.noLog == 0 && CellAt(s, a).flag == Untouched ==> s'.rd == s.rd + [a])
  {}

  lemma ReadStepOk(s: State, a: Addr)
    requires Good(s) && s.pc == Body && TraceOk(s) && (s.noLog == 0 || CellAt(s, a).flag != Untouched)
    ensures TraceOk(ReadOp(s, a))
  {
    ReadShape(s, a);
    ReadTraceOk(s, ReadOp(s, a), a);
  }

  lemma ReadTraceOk(s: State, s': State, a: Addr)
    requires MemOk(s) && TraceOk(s)
    requires s'.trace == s.trace + [Rd(a, MemAt(s, a))] && s'.mem == s.mem && s'.wr == s.wr
    requires s'.rd == s.rd || s'.rd == s.rd + [a]
    requires CellAt(s, a).flag == Untouched ==> s'.rd == s.rd + [a]
    ensures TraceOk(s')
  {
    TraceExtends(s.trace, Rd(a, MemAt(s, a)));
    assert CellAt(s, a).flag == WrittenMark ==> Writes(s.trace, a);
    assert CellAt(s, a).flag != WrittenMark ==> a in s'.rd;
  }

  lemma WriteStepOk(s: State, a: Addr, v: Word)
    requires Good(s) && s.pc == Body && TraceOk(s)
    ensures TraceOk(WriteOp(s, a, v))
  {
    TraceExtends(s.trace, Wr(a, v));
    assert WriteOp(s, a, v).trace == s.trace + [Wr(a, v)];
    assert WriteOp(s, a, v).mem == s.mem[a := v];
  }

  // ---- constraints at rest ---------------------------------------------------------------------

  /** Constraints that are at rest afterwards were at rest before, and are the same. */
  ghost predicate NoNewRest(s: State, s': State) {
    forall j: nat :: Resting(s', j) && s'.curr != Some(j) ==>
        Resting(s, j) && s.curr != Some(j) && s'.cons[j] == s.cons[j]
  }

  lemma NoNewRestKeeps(bodies: nat -> Body, s: State, s': State)
    requires FixInv(bodies, s) && NoNewRest(s, s') && s'.mem == s.mem
    ensures forall j: nat :: Resting(s', j) && s'.curr != Some(j) ==> Stable(bodies, s', j)
  {
    forall j: nat | Resting(s', j) && s'.curr != Some(j) ensures Stable(bodies, s', j) {
      assert Stable(bodies, s, j);
    }
  }

  lemma WriteKeepsRest(bodies: nat -> Body, s: State, a: Addr, v: Word)
    requires Good(s) && UserMode(s) && FixInv(bodies, s) && Disciplined(bodies, s, Write(a, v))
    ensures FixInv(bodies, WriteOp(s, a, v))
  {
    var s' := WriteOp(s, a, v);
    WriteRest(s, a, v);
    assert s'.mem == s.mem[a := v];
    forall j: nat | Resting(s', j) && s'.curr != Some(j) ensures Stable(bodies, s', j) {
      assert Stable(bodies, s, j);
    }
    if s.pc == Body { WriteStepOk(s, a, v); }
  }

  lemma WriteRest(s: State, a: Addr, v: Word)
    requires Good(s) && UserMode(s)
    ensures NoNewRest(s, WriteOp(s, a, v)) && WriteOp(s, a, v).mem == s.mem[a := v]
    ensures WriteOp(s, a, v).pc == Body <==> s.pc == Body
  {
    if s.atomic == 0 {
      WriteNowFlushes(s, a, v);
      var s0 := Stored(s, a, v);
      FlushedRest(s0, Check(s0, a), [a]);
    }
  }

  lemma FlushedRest(s: State, s': State, l: seq<Addr>)
    requires Flushes(s, s', l)
    ensures NoNewRest(s, s') && s'.mem == s.mem && s'.pc == s.pc
  {
    assert forall k: nat :: k < |s.cons| ==> s'.cons[k] == s.cons[k] || Enqueued(s, s', k);
  }

  lemma EndAtRest(s: State)
    requires Good(s) && UserMode(s)
    ensures NoNewRest(s, EndAt(s)) && EndAt(s).mem == s.mem
    ensures s.pc == Body ==> EndAt(s) == s
    ensures s.pc != Body ==> EndAt(s).pc != Body
  {
    if s.curr == None && s.atomic == 1 {
      EndAtFlushes(s);
      var p := Prepared(s.(atomic := 0));
      FlushedRest(p, Flush(p, s.wr), s.wr);
      SectionRest(s, p, Flush(p, s.wr), EndAt(s));
    }
  }

  lemma SectionRest(s: State, p: State, f: State, s': State)
    requires NoNewRest(p, f) && p.cons == s.cons && p.curr == s.curr && p.mem == s.mem && f.mem == p.mem
    requires s'.cons == f.cons && s'.curr == f.curr && s'.mem == f.mem
    ensures NoNewRest(s, s') && s'.mem == s.mem
  {
    forall j: nat | Resting(s', j) && s'.curr != Some(j)
        ensures Resting(s, j) && s.curr != Some(j) && s'.cons[j] == s.cons[j] {
      assert Resting(f, j);
      assert Resting(p, j);
    }
  }

  lemma LeaveKeepsRest(bodies: nat -> Body, s: State)
    requires Good(s) && s.pc == Body && FixInv(bodies, s) && Disciplined(bodies, s, EndBody)
    ensures FixInv(bodies, Leave(s))
  {
    LeaveFlushes(s);
    var p := Prepared(Finishing(s));
    var f := Flush(p, s.wr);
    var s' := Leave(s);
    forall j: nat | Resting(s', j) ensures Stable(bodies, s', j) {
      assert f.cons[j] == p.cons[j] || Enqueued(p, f, j);
      if s.curr == Some(j) {
        assert s'.cons[j] == s.cons[j].(seen := map a | a in s.rd :: MemAt(s, a), trace := s.trace);
      } else {
        assert Stable(bodies, s, j) && s'.cons[j] == s.cons[j];
      }
    }
  }

  lemma NewConsRest(s: State, fun: nat, g: Option<nat>)
    requires Good(s) && UserMode(s) && (g.Some? ==> g.value < |s.groups|)
    ensures NoNewRest(s, NewCons(s, fun, g)) && NewCons(s, fun, g).mem == s.mem
    ensures s.pc == Body ==>
        NewCons(s, fun, g).trace == s.trace && NewCons(s, fun, g).rd == s.rd && NewCons(s, fun, g).wr == s.wr
    ensures s.pc != Body && NewCons(s, fun, g).pc == Body ==>
        NewCons(s, fun, g).trace == [] && NewCons(s, fun, g).wr == s.wr == []
  {
    AllocConsObjects(s, fun, g);
    var s1 := AllocCons(s, fun, g, InNew);
    if s.atomic == 0 {
      var s3 := EnterGroup(s1, g);
      assert s3.cons == s1.cons && s3.curr == s.curr && s3.mem == s.mem && s3.wr == s.wr;
      assert NewCons(s, fun, g) == ExecCons(s3, NextCons(s));
      ExecRestOnly(s3, NextCons(s));
    }
  }

  lemma ExecRestOnly(s: State, k: nat)
    requires k < |s.cons| && s.curr == None && s.pc == Loop
    ensures NoNewRest(s, ExecCons(s, k)) && ExecCons(s, k).mem == s.mem && ExecCons(s, k).wr == s.wr
    ensures ExecCons(s, k).pc == Body ==> ExecCons(s, k).trace == []
  {}

  lemma RunInGroupRest(s: State, g: nat, k: nat)
    requires k < |s.cons| && g < |s.groups| && s.curr == None && s.pc == Loop
    ensures NoNewRest(s, RunInGroup(s, g, k)) && RunInGroup(s, g, k).mem == s.mem && RunInGroup(s, g, k).wr == s.wr
    ensures RunInGroup(s, g, k).pc == Body ==> RunInGroup(s, g, k).trace == []
  {}

  /** What a dispatch turn does to the constraints at rest, to memory and to the trace. */
  ghost predicate TurnsQuietly(s: State, s': State) {
    NoNewRest(s, s') && s'.mem == s.mem && s'.wr == s.wr && (s'.pc == Body ==> s'.trace == [])
  }

  lemma RunTopRest(s: State, item: Item, k: nat)
    requires Good(s) && s.pc == Loop && s.currGroup == None && s.initList == []
    ensures TurnsQuietly(s, RunTop(s, item, k))
  {
    if s.top != multiset{} && IsMin(s.top, item) {
      match item.obj
      case ConsObj(c) =>
        PickTopConsInv(s, item);
        ExecRestOnly(s.(top := s.top - multiset{item}), c);
      case GroupObj(g) =>
        PickGroupGood(s, item);
        if k in s.groups[g].sched && k < |s.cons| { RunInGroupRest(PickGroup(s, item, g), g, k); }
    }
  }

  lemma TurnRest(s: State, item: Item, k: nat)
    requires Good(s) && s.pc == Loop
    ensures TurnsQuietly(s, DispatchTurn(s, item, k))
  {
    if s.initList != [] {
      RunNewInv(s);
      ExecRestOnly(s.(initList := s.initList[1..]), s.initList[0]);
    } else {
      match s.currGroup
      case None => RunTopRest(s, item, k);
      case Some(g) =>
        if s.groups[g].sched != multiset{} {
          if k in s.groups[g].sched && k < |s.cons| { RunInGroupRest(s, g, k); }
        } else {
          LeaveGroupGood(s, g);
          RunTopRest(LeaveGroup(s), item, k);
        }
    }
  }

  lemma ReadKeepsRest(bodies: nat -> Body, s: State, a: Addr)
    requires Good(s) && UserMode(s) && FixInv(bodies, s) && Disciplined(bodies, s, Read(a))
    ensures FixInv(bodies, ReadOp(s, a))
  {
    if s.pc == Body {
      ReadShape(s, a);
      ReadStepOk(s, a);
    }
    NoNewRestKeeps(bodies, s, ReadOp(s, a));
  }

  /** Operations that leave memory, the trace and the logs alone, or start a new trace. */
  lemma QuietKeeps(bodies: nat -> Body, s: State, s': State)
    requires FixInv(bodies, s) && Quiet(s, s')
    ensures FixInv(bodies, s')
  {
    NoNewRestKeeps(bodies, s, s');
  }

  lemma ApplyFix(bodies: nat -> Body, s: State, op: Op)
    requires Good(s) && FixInv(bodies, s) && Enabled(s, op) && Disciplined(bodies, s, op)
    ensures FixInv(bodies, Apply(s, op))
  {
    match op
    case Read(a) => ReadKeepsRest(bodies, s, a);
    case Write(a, v) => WriteKeepsRest(bodies, s, a, v);
    case EndBody => LeaveKeepsRest(bodies, s);
    case _ => OtherFix(bodies, s, op);
  }

  /** The trace, the logs and memory go on as they were, or start anew. */
  ghost predicate Quiet(s: State, s': State) {
    && NoNewRest(s, s') && s'.mem == s.mem
    && (s'.pc == Body ==> (s.pc == Body && s'.trace == s.trace && s'.rd == s.rd && s'.wr == s.wr)
                          || (s'.trace == [] && s'.wr == []))
  }

  lemma OtherFix(bodies: nat -> Body, s: State, op: Op)
    requires Good(s) && FixInv(bodies, s) && Enabled(s, op) && !op.Read? && !op.Write? && !op.EndBody?
    ensures FixInv(bodies, Apply(s, op))
  {
    var s' := Apply(s, op);
    OtherQuiet(s, op, s');
    QuietKeeps(bodies, s, s');
  }

  lemma OtherQuiet(s: State, op: Op, s': State)
    requires Good(s) && Enabled(s, op) && !op.Read? && !op.Write? && !op.EndBody? && s' == Apply(s, op)
    ensures Quiet(s, s')
  {
    match op {
      case New(fun, g) => NewConsRest(s, fun, g);
      case CloseAt => EndAtRest(s);
      case Turn(item, k) => TurnRest(s, item, k);
      case _ => SmallQuiet(s, op);
    }
  }

  lemma SmallQuiet(s: State, op: Op)
    requires Enabled(s, op) && (op.Del? || op.OpenAt? || op.OpenNoLog? || op.CloseNoLog? || op.NewGroup? || op.SetSelf?)
    requires op.Del? ==> Resting(s, op.k) ==> Unscheduled(s.cons[op.k].ts)
    ensures Quiet(s, Apply(s, op))
  {
  }

  lemma {:induction false} RunFix(bodies: nat -> Body, s: State, ops: seq<Op>)
    requires Inv(s) && (s.pc == Halted || s.pc == Stuck || FixInv(bodies, s)) && RunDisciplined(bodies, s, ops)
    ensures Inv(Run(s, ops))
    ensures Run(s, ops).pc == Halted || Run(s, ops).pc == Stuck || FixInv(bodies, Run(s, ops))
    decreases |ops|
  {
    if ops != [] {
      ApplyInv(s, ops[0]);
      if Enabled(s, ops[0]) && s.pc != Halted && s.pc != Stuck { ApplyFix(bodies, s, ops[0]); }
      RunFix(bodies, Apply(s, ops[0]), ops[1..]);
    }
  }

  /** The common fixpoint: when a disciplined run has returned, running any live constraint again makes
      the accesses of its last execution, and leaves memory exactly as it is. */
  lemma CommonFixpoint(bodies: nat -> Body, ops: seq<Op>, k: nat)
    requires RunDisciplined(bodies, Init(), ops)
    requires var s := Run(Init(), ops); Returned(s) && Live(s, k)
    ensures var s := Run(Init(), ops);
            && Executes(bodies(s.cons[k].fun), [], s.mem, s.cons[k].trace, s.mem)
            && (forall t: seq<Event>, m: map<Addr, Word> :: Executes(bodies(s.cons[k].fun), [], s.mem, t, m) ==>
                m == s.mem)
  {
    InitInv();
    RunFix(bodies, Init(), ops);
    var s := Run(Init(), ops);
    assert Reachable(s);
    NoLostDependency(s, k);
    NothingQueued(s, k);
    assert Stable(bodies, s, k);
    var t := s.cons[k].trace;
    assert [] + t == t;
    forall i: nat | FirstRead(t, i) ensures Look(s.mem, t[i].a) == t[i].v {
      assert MemAt(s, t[i].a) == s.cons[k].seen[t[i].a];
    }
    var b := bodies(s.cons[k].fun);
    SettledRerun(b, [], t, s.mem, s.mem);
    forall t': seq<Event>, m: map<Addr, Word> | Executes(b, [], s.mem, t', m) ensures m == s.mem {
      ExecutesOnce(b, [], s.mem, t, s.mem, t', m);
    }
  }
}
