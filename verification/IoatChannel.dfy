/** The I/OAT channel as the driver implements it: fields and rings updated in place, index masks, loops, and the
    environment (engine and callbacks) running in between, also between two descriptors of one build and between the
    two halves of a flush.  Every method is tied to the state machine of IoatModel. */
module IoatChannel {
  import opened Words
  import opened Dma
  import opened IoatModel
  import opened IoatInvariant
  import opened IoatTheorems
  import opened IoatInterleaving
  import opened IoatDraining

  /** What writing one descriptor does: nothing if the ring is full. */
  ghost predicate Prepared(before: Chan, after: Chan, op: Op, last: Option<nat>)
    requires Shape(before)
  {
    if RingSpace(before) < 1 then after == before && last == None
    else after == Prep(before, op) && last == Some(RingIndex(before.cfg, before.head))
  }

  lemma PreparedCore(before: Chan, after: Chan, op: Op, last: Option<nat>)
    requires Core(before) && Shape(before) && Prepared(before, after, op, last)
    ensures Core(after)
  {
    hide Core, Prep;
    if RingSpace(before) >= 1 { PrepCore(before, op); }
  }

  /** Issuing these operations from s, with engine steps in between, led to r. */
  ghost predicate Issued(s: Chan, ops: seq<Op>, r: Chan, last: Option<nat>, steps: seq<Step>) {
    && Shape(s) && EngineOnly(steps) && Runs(Issue(s, ops).0, steps)
    && r == After(Issue(s, ops).0, steps) && last == Issue(s, ops).1
  }

  /** These operations are still to be issued from r, after engine steps in between. */
  ghost predicate Issuing(s: Chan, ops: seq<Op>, r: Chan, rest: seq<Op>, steps: seq<Step>) {
    && Shape(s) && Shape(r) && EngineOnly(steps) && Runs(Issue(s, ops).0, steps)
    && Issue(r, rest) == (After(Issue(s, ops).0, steps), Issue(s, ops).1)
  }

  lemma IssuingStarts(s: Chan, ops: seq<Op>)
    requires Shape(s)
    ensures Issuing(s, ops, s, ops, [])
  {
    hide Issue;
  }

  /** The engine runs while operations are still to be issued. */
  lemma IssuingGoesOn(s: Chan, ops: seq<Op>, r: Chan, rest: seq<Op>, steps: seq<Step>, burst: seq<Step>)
    requires Issuing(s, ops, r, rest, steps) && Core(r) && EngineOnly(burst) && Runs(r, burst)
    ensures Issuing(s, ops, After(r, burst), rest, steps + burst)
  {
    hide Core, Issue, Runs, After, Shape;
    IssueCommutesWithEngine(r, rest, burst);
    RunsConcat(Issue(s, ops).0, steps, burst);
  }

  lemma IssuingEnds(s: Chan, ops: seq<Op>, r: Chan, rest: seq<Op>, steps: seq<Step>, done: Chan, last: Option<nat>)
    requires Issuing(s, ops, r, rest, steps) && Issue(r, rest) == (done, last)
    ensures Issued(s, ops, done, last, steps)
  {
    hide Issue;
  }

  lemma IssuingNext(
    s: Chan, ops: seq<Op>, r: Chan, rest: seq<Op>, steps: seq<Step>, next: Chan, rest': seq<Op>)
    requires Issuing(s, ops, r, rest, steps) && Shape(next) && Issue(r, rest) == Issue(next, rest')
    ensures Issuing(s, ops, next, rest', steps)
  {
    hide Issue;
  }

  /** The engine runs after the last operation. */
  lemma IssuedGoesOn(
    s: Chan, ops: seq<Op>, r: Chan, last: Option<nat>, steps: seq<Step>, burst: seq<Step>)
    requires Issued(s, ops, r, last, steps) && EngineOnly(burst) && Runs(r, burst)
    ensures Issued(s, ops, After(r, burst), last, steps + burst)
  {
    hide Issue, Runs, After;
    RunsConcat(Issue(s, ops).0, steps, burst);
  }

  /** Building this request from s, with engine steps in between, led to r. */
  ghost predicate Built(s: Chan, req: Request, r: Chan, rc: int, steps: seq<Step>) {
    && Shape(s) && EngineOnly(steps) && Runs(Build(s, req).0, steps)
    && r == After(Build(s, req).0, steps) && rc == Build(s, req).1
  }

  lemma BuiltBy(s: Chan, req: Request, issued: Chan, last: Option<nat>, steps: seq<Step>)
    requires Inv(s) && (req.FillRequest? ==> s.cfg.fillSupported)
    requires Issued(s, RequestOps(req, s.cfg.maxXfer), issued, last, steps)
    ensures Shape(issued) && (last.Some? ==> last.value < issued.cfg.size && |issued.log| > 0)
    ensures var (r, rc) := Finish(s, req, issued, last); Built(s, req, r, rc, steps)
  {
    hide Core, Issue, RequestOps, Runs, After, Finish, Build, Shape;
    Facts(s);
    FinishCommutesWithEngine(s, req, steps);
  }

  lemma BuiltInv(s: Chan, req: Request, r: Chan, rc: int, steps: seq<Step>)
    requires Inv(s) && Built(s, req, r, rc, steps)
    ensures Inv(r)
  {
    hide Inv, Runs, After, Build, Shape;
    BuildInv(s, req);
    RunInv(Build(s, req).0, steps);
  }

  lemma BuiltCode(s: Chan, req: Request, r: Chan, rc: int, steps: seq<Step>)
    requires Built(s, req, r, rc, steps)
    ensures rc == 0 || rc == if req.FillRequest? && !s.cfg.fillSupported then -1 else -12
  {
    hide Build, Runs, After, EngineOnly;
    BuildCodes(s, req);
  }

  lemma Unsupported(s: Chan, req: Request)
    requires Shape(s) && req.FillRequest? && !s.cfg.fillSupported
    ensures Built(s, req, s, -1, [])
  {
  }

  /** Flushing s, with engine steps in between, led to r. */
  ghost predicate Flushed(s: Chan, r: Chan, steps: seq<Step>) {
    Shape(s) && Shape(Flush(s)) && EngineOnly(steps) && Runs(Flush(s), steps) && r == After(Flush(s), steps)
  }

  lemma FlushedBy(s: Chan, steps: seq<Step>)
    requires Inv(s) && Shape(s) && EngineOnly(steps) && Runs(Mark(s), steps)
    ensures Flushed(s, Ring(After(Mark(s), steps)), steps) && Inv(Ring(After(Mark(s), steps)))
  {
    hide Core, AllEntries, NonEmpty, Runs, After, Flush, Mark, Ring, Shape;
    FlushCommutesWithEngine(s, steps);
    FlushInv(s);
    RunInv(Flush(s), steps);
  }

  lemma FlushedAnnounces(s: Chan, r: Chan, steps: seq<Step>)
    requires Inv(s) && Flushed(s, r, steps)
    ensures r.log == s.log && r.announced == |s.log| && r.dmacount == |s.log| % 0x1_0000
  {
    hide Inv, Core, Runs, After, EngineOnly, Shape;
    FlushInv(s);
    EngineKeepsPosition(Flush(s), steps);
    FlushFields(s);
    Facts(s);
    SizeDividesDoorbell(s);
  }

  lemma FlushInv(s: Chan)
    requires Inv(s)
    ensures Inv(Flush(s))
  {
    hide Core, AllEntries, NonEmpty;
    FlushCore(s);
  }

  lemma NoSteps(s0: Chan)
    requires Shape(s0)
    ensures Runs(s0, []) && After(s0, []) == s0
  {
  }

  /** What the guards at the start of process_events decide. */
  lemma PollDecision(s: Chan)
    requires Inv(s) && Enabled(s, PollStep)
    ensures Inv(Poll(s)) && Enabled(s, PollStep) && Next(s, PollStep) == Poll(s) && s.pc.Idle?
    ensures s.head == s.tail || Halted(s.comp) || CompletedAddr(s.comp) == s.lastSeen ==> Poll(s) == s
    ensures s.head != s.tail && !Halted(s.comp) ==> (CompletedAddr(s.comp) == s.lastSeen <==> s.completed == s.retired)
    ensures s.head != s.tail && !Halted(s.comp) && CompletedAddr(s.comp) != s.lastSeen ==>
      Poll(s) == s.(pc := Retiring(CompletedAddr(s.comp)), goal := s.completed)
    ensures s.comp < U64
  {
    NextInv(s, PollStep);
    if s.completed > 0 { NothingNewIff(s); }
  }

  lemma BusyPolling(s: Chan)
    requires Inv(s) && s.pc.Retiring?
    ensures s.retired < s.goal <= s.completed
  {
  }

  /** One round of the retire loop, after the callback. */
  lemma ReturnDecision(s: Chan)
    requires Inv(s) && s.pc.Calling?
    ensures Inv(Return(s)) && Shape(s) && s.cfg.Good()
    ensures s.retired < s.goal && Return(s).retired == s.retired + 1
    ensures (s.ring[RingIndex(s.cfg, s.tail)].physAddr == s.pc.target <==> s.retired + 1 == s.goal)
  {
    hide Live, Linked, Marked, Engine, Fired, Reported, Counters, AllEntries, NonEmpty, RingIndex;
    ReturnPolling(s);
    ReturnCore(s);
  }

  /** What a return does, by the address of the descriptor whose callback has returned. */
  lemma ReturnByFields(s: Chan, a: nat)
    requires Inv(s) && Shape(s) && s.pc.Calling? && s.ring[RingIndex(s.cfg, s.tail)].physAddr == a
    ensures Inv(Return(s)) && s.retired < s.goal && (a == s.pc.target <==> s.retired + 1 == s.goal)
    ensures Return(s) ==
      if a == s.pc.target then s.(tail := (s.tail + 1) % U32, retired := s.retired + 1, pc := Idle, lastSeen := a)
      else s.(tail := (s.tail + 1) % U32, retired := s.retired + 1, pc := Retiring(s.pc.target))
  {
    hide Inv, RingIndex;
    ReturnDecision(s);
  }

  // ---------------------------------------------------------------- inside process_events

  /** Nothing but building, flushing and the engine. */
  predicate NoEvents(steps: seq<Step>) {
    forall i: nat :: i < |steps| ==> steps[i].BuildStep? || steps[i].FlushStep? || steps[i].DeviceStep?
  }

  /** Every state of a run, the last included, lies inside process_events. */
  predicate Busy(s: Chan, steps: seq<Step>)
    requires Shape(s) && Runs(s, steps)
    decreases |steps|
  {
    !s.pc.Idle? && (steps == [] || Busy(Next(s, steps[0]), steps[1..]))
  }

  lemma EngineIsNoEvent(steps: seq<Step>, burst: seq<Step>)
    requires NoEvents(steps) && EngineOnly(burst)
    ensures NoEvents(steps + burst)
  {
  }

  lemma MoreNoEvents(steps: seq<Step>, step: Step, burst: seq<Step>)
    requires NoEvents(steps) && (step.BuildStep? || step.FlushStep?) && EngineOnly(burst)
    ensures NoEvents(steps + ([step] + burst))
  {
  }

  lemma KeepsPc(s: Chan, step: Step)
    requires Shape(s) && Enabled(s, step) && (step.BuildStep? || step.FlushStep? || step.DeviceStep?)
    ensures Next(s, step).pc == s.pc
  {
    hide Build, Exec, OpOf;
    if step.BuildStep? { BuildLeaves(s, step.req); }
  }

  lemma {:induction false} NoEventsBusy(s: Chan, steps: seq<Step>)
    requires Shape(s) && Runs(s, steps) && !s.pc.Idle? && NoEvents(steps)
    ensures Busy(s, steps)
    decreases |steps|
  {
    hide Next, Enabled;
    if steps != [] {
      KeepsPc(s, steps[0]);
      NoEventsBusy(Next(s, steps[0]), steps[1..]);
    }
  }

  lemma {:induction false} BusyConcat(s: Chan, a: seq<Step>, b: seq<Step>)
    requires Shape(s) && Runs(s, a) && Runs(After(s, a), b) && Busy(s, a)
    ensures Runs(s, a + b)
    ensures Busy(After(s, a), b) ==> Busy(s, a + b)
    ensures Inside(After(s, a), b) ==> Inside(s, a + b)
    decreases |a|
  {
    hide Next, Enabled;
    RunsConcat(s, a, b);
    if a == [] {
      assert a + b == b;
    } else {
      assert (a + b)[1..] == a[1..] + b;
      BusyConcat(Next(s, a[0]), a[1..], b);
    }
  }

  lemma OneStepBusy(s: Chan, step: Step)
    requires Shape(s) && Enabled(s, step) && !s.pc.Idle?
    ensures Runs(s, [step])
    ensures if Next(s, step).pc.Idle? then Inside(s, [step]) else Busy(s, [step])
  {
    hide Next, Enabled;
    assert [step][1..] == [];
  }

  /** One round of the retire loop: the callback starts, things happen that are no events, and it returns. */
  lemma RoundBusy(s: Chan, more: seq<Step>)
    requires Shape(s) && s.pc.Retiring? && Shape(Callback(s)) && Runs(Callback(s), more) && NoEvents(more)
    requires After(Callback(s), more).pc.Calling?
    ensures var all := ([CallbackStep] + more) + [ReturnStep]; var r := Return(After(Callback(s), more));
      && Runs(s, all) && (if r.pc.Idle? then Inside(s, all) else Busy(s, all))
  {
    var c, e := Callback(s), After(Callback(s), more);
    RoundEnds(s, e);
    hide *;
    NoEventsBusy(c, more);
    OneStepBusy(s, CallbackStep);
    RunsOne(s, CallbackStep);
    BusyConcat(s, [CallbackStep], more);
    RunsConcat(s, [CallbackStep], more);
    OneStepBusy(e, ReturnStep);
    BusyConcat(s, [CallbackStep] + more, [ReturnStep]);
  }

  lemma RoundEnds(s: Chan, e: Chan)
    requires Shape(s) && s.pc.Retiring? && Shape(e) && e.pc.Calling?
    ensures Enabled(s, CallbackStep) && Next(s, CallbackStep) == Callback(s)
    ensures !Callback(s).pc.Idle?
    ensures Enabled(e, ReturnStep) && Next(e, ReturnStep) == Return(e)
    ensures !s.pc.Idle? && !e.pc.Idle?
  {
    hide Return;
  }

  /** A run extended by one step and the engine running after it. */
  lemma Extend(s0: Chan, steps: seq<Step>, step: Step, burst: seq<Step>) returns (longer: seq<Step>)
    requires Shape(s0) && Runs(s0, steps) && Inv(After(s0, steps)) && Enabled(After(s0, steps), step)
    requires Runs(Next(After(s0, steps), step), burst)
    ensures Runs(s0, longer) && Inv(After(s0, longer))
    ensures After(s0, longer) == After(Next(After(s0, steps), step), burst)
    ensures longer == steps + ([step] + burst)
  {
    hide *;
    var s := After(s0, steps);
    longer := steps + ([step] + burst);
    NextInv(s, step);
    RunInv(Next(s, step), burst);
    RunsOne(s, step);
    RunsConcat(s, [step], burst);
    RunsConcat(s0, steps, [step] + burst);
  }

  /** The position of process_events in the ring is the same. */
  predicate SamePlace(s: Chan, r: Chan) {
    r.cfg == s.cfg && r.pc == s.pc && r.goal == s.goal && r.retired == s.retired && r.tail == s.tail
  }

  lemma BuiltInPlace(s: Chan, req: Request, r: Chan, rc: int, steps: seq<Step>)
    requires Inv(s) && Built(s, req, r, rc, steps)
    ensures SamePlace(s, r)
  {
    hide Inv, Runs, After, Build, Shape, EngineOnly;
    BuildLeaves(s, req);
    BuildInv(s, req);
    EngineKeepsPosition(Build(s, req).0, steps);
  }

  lemma FlushedInPlace(s: Chan, r: Chan, steps: seq<Step>)
    requires Inv(s) && Flushed(s, r, steps)
    ensures SamePlace(s, r)
  {
    hide Inv, Runs, After, Shape, EngineOnly;
    FlushInv(s);
    EngineKeepsPosition(Flush(s), steps);
  }

  lemma ExtendByBuild(s0: Chan, steps: seq<Step>, req: Request, r: Chan, rc: int, burst: seq<Step>)
    returns (longer: seq<Step>)
    requires Shape(s0) && Runs(s0, steps) && Inv(After(s0, steps)) && !After(s0, steps).pc.Retiring?
    requires Built(After(s0, steps), req, r, rc, burst)
    ensures Runs(s0, longer) && After(s0, longer) == r && Inv(r) && SamePlace(After(s0, steps), r)
    ensures NoEvents(steps) ==> NoEvents(longer)
  {
    hide Inv, Runs, After, Build, Shape, EngineOnly, SamePlace;
    BuiltInPlace(After(s0, steps), req, r, rc, burst);
    longer := Extend(s0, steps, BuildStep(req), burst);
    if NoEvents(steps) { MoreNoEvents(steps, BuildStep(req), burst); }
  }

  lemma ExtendByFlush(s0: Chan, steps: seq<Step>, r: Chan, burst: seq<Step>) returns (longer: seq<Step>)
    requires Shape(s0) && Runs(s0, steps) && Inv(After(s0, steps)) && !After(s0, steps).pc.Retiring?
    requires Flushed(After(s0, steps), r, burst)
    ensures Runs(s0, longer) && After(s0, longer) == r && Inv(r) && SamePlace(After(s0, steps), r)
    ensures NoEvents(steps) ==> NoEvents(longer)
  {
    hide Inv, Runs, After, Flush, Shape, EngineOnly, SamePlace;
    FlushedInPlace(After(s0, steps), r, burst);
    longer := Extend(s0, steps, FlushStep, burst);
    if NoEvents(steps) { MoreNoEvents(steps, FlushStep, burst); }
  }

  lemma ExtendByRun(s0: Chan, steps: seq<Step>, burst: seq<Step>)
    requires Shape(s0) && Runs(s0, steps) && Inv(After(s0, steps)) && Runs(After(s0, steps), burst)
    ensures Runs(s0, steps + burst) && After(s0, steps + burst) == After(After(s0, steps), burst)
    ensures Inv(After(s0, steps + burst))
  {
    hide *;
    RunsConcat(s0, steps, burst);
    RunInv(After(s0, steps), burst);
  }

  /** Engine steps inside process_events leave the driver's position alone. */
  lemma EngineKeepsPosition(s: Chan, steps: seq<Step>)
    requires Inv(s) && Shape(s) && EngineOnly(steps) && Runs(s, steps)
    ensures var r := After(s, steps);
      && r.pc == s.pc && r.goal == s.goal && r.retired == s.retired && r.tail == s.tail && r.cfg == s.cfg
      && r.head == s.head && r.log == s.log && r.announced == s.announced && r.dmacount == s.dmacount
  {
    hide Core, Runs, After, AllEntries, NonEmpty, EngineOnly, Shape;
    EngineKeeps(s, steps);
  }

  /** One round of the loop of build_copy, seen from its specification. */
  lemma CopyIssueStep(s: Chan, dst: nat, src: nat, n: nat)
    requires Shape(s) && n > 0
    ensures var max := s.cfg.maxXfer; var op := Copy(dst, src, Min(n, max) % U32);
      Issue(s, CopyOps(dst, src, n, max)) ==
        if RingSpace(s) < 1 then (s, None)
        else if n <= max then (Prep(s, op), Some(RingIndex(s.cfg, s.head)))
        else Issue(Prep(s, op), CopyOps((dst + max) % U64, (src + max) % U64, n - max, max))
  {
    var max := s.cfg.maxXfer;
    if n > max {
      CopyOpsCount((dst + max) % U64, (src + max) % U64, n - max, max);
      assert CopyOps(dst, src, n, max)[1..] == CopyOps((dst + max) % U64, (src + max) % U64, n - max, max);
    }
  }

  /** One round of the loop of build_fill, seen from its specification. */
  lemma FillIssueStep(s: Chan, dst: nat, pattern: nat, n: nat)
    requires Shape(s) && n > 0
    ensures var max := s.cfg.maxXfer; var op := Fill(dst, pattern, Min(n, max) % U32);
      Issue(s, FillOps(dst, pattern, n, max)) ==
        if RingSpace(s) < 1 then (s, None)
        else if n <= max then (Prep(s, op), Some(RingIndex(s.cfg, s.head)))
        else Issue(Prep(s, op), FillOps((dst + max) % U64, pattern, n - max, max))
  {
    var max := s.cfg.maxXfer;
    if n > max {
      FillOpsCount((dst + max) % U64, pattern, n - max, max);
      assert FillOps(dst, pattern, n, max)[1..] == FillOps((dst + max) % U64, pattern, n - max, max);
    }
  }

  /** The operations of a request, by its size. */
  lemma OpsBySize(req: Request, max: pos)
    ensures req.n > 0 && req.CopyRequest? ==> RequestOps(req, max) == CopyOps(req.dst, req.src, req.n, max)
    ensures req.n > 0 && req.FillRequest? ==> RequestOps(req, max) == FillOps(req.dst, req.pattern, req.n, max)
    ensures req.n == 0 ==> RequestOps(req, max) == if req.FillRequest? then [] else [Null]
  {
  }

  lemma IssueSmall(s: Chan)
    requires Shape(s)
    ensures Issue(s, []) == (s, None)
    ensures Issue(s, [Null]) ==
      if RingSpace(s) < 1 then (s, None) else (Prep(s, Null), Some(RingIndex(s.cfg, s.head)))
  {
    hide RingSpace, Prep;
  }

  /** The start-up descriptor is a copy request of no bytes and without a callback. */
  function Startup(): Request { CopyRequest(0, 0, 0, 0, 0) }

  lemma StartupRequest(s: Chan)
    requires Fresh(s)
    ensures Inv(s) && Shape(s) && s.pc.Idle? && RingSpace(s) >= 1
    ensures Build(s, Startup()) == (Prep(s, Null).(reqs := s.reqs + [Startup()]), 0)
  {
    FreshInv(s);
    FreshSpaceIsPositive(s);
    var s1 := Prep(s, Null);
    var i := RingIndex(s.cfg, s.head);
    assert Issue(s, [Null]) == (s1, Some(i));
    assert s1.ring[i := Desc(s1.ring[i].physAddr, 0, 0)] == s1.ring;
    assert s1.log[|s1.log| - 1 := Entry(Null, 0, 0)] == s1.log;
  }

  lemma FreshSpaceIsPositive(s: Chan)
    requires Fresh(s)
    ensures RingSpace(s) >= 1
  {
    SizeBelow(s.cfg);
    ModSmall(0, U32);
    ModSmall(0, s.cfg.size);
  }

  /** The start-up request is the only one, announced but not retired. */
  predicate StartedUp(s: Chan) {
    s.log == [Entry(Null, 0, 0)] && s.announced == 1 && s.retired == 0 && s.pc.Idle?
  }

  lemma StartupAnnounced(s0: Chan)
    requires Fresh(s0)
    ensures Shape(s0) && StartedUp(Flush(Build(s0, Startup()).0))
  {
    hide Active, RingSpace;
    StartupRequest(s0);
  }

  lemma StartedUpKept(s: Chan, steps: seq<Step>)
    requires Inv(s) && Shape(s) && StartedUp(s) && EngineOnly(steps) && Runs(s, steps)
    ensures StartedUp(After(s, steps))
  {
    hide Inv, Runs, After, EngineOnly, Shape;
    EngineKeepsPosition(s, steps);
  }

  /** An idle engine has executed and reported the start-up descriptor. */
  lemma StartupReported(s: Chan)
    requires Inv(s) && StartedUp(s) && s.count == s.dmacount
    ensures s.completed == 1 && s.head != s.tail
  {
    hide Live, Linked, Engine, Fired, Reported, Polling, AllEntries, NonEmpty, Active, RingSpace;
    PendingIff(s);
    Indices(s);
  }

  /** The channel status register reads idle. */
  predicate ReportsIdle(status: nat) {
    BitAnd(status, STATUS_MASK) == STATUS_IDLE
  }

  const STATUS_IDLE: nat := 1

  lemma IdleIs(status: nat)
    ensures ReportsIdle(status) <==> status % 8 == 1
  {
    hide BitAnd, Pow2;
    MaskIsMod(status, 3);
    EightIs();
  }

  lemma EightIs()
    ensures Pow2(3) == 8
  {
  }

  lemma AddrByIndex(cfg: Config, i: nat)
    ensures i < cfg.size ==> cfg.Addr(i) == cfg.base + DESC_BYTES * i
    ensures cfg.Addr(cfg.size) == cfg.Addr(0)
  {
    if i < cfg.size { ModSmall(i, cfg.size); }
    ModIs(cfg.size, cfg.size, 1, 0);
    ModSmall(0, cfg.size);
  }

  lemma ModAtMost(x: nat, m: pos)
    ensures x % m <= x
  {
    DivMod(x, m);
    hide *;
  }

  /** The outcome of writing one descriptor, in the words of the specification. */
  lemma PreparedIs(s: Chan, r: Chan, op: Op, last: Option<nat>)
    requires Shape(s) && Prepared(s, r, op, last)
    ensures (r, last) == if RingSpace(s) < 1 then (s, None) else (Prep(s, op), Some(RingIndex(s.cfg, s.head)))
  {
    hide Prep, RingSpace;
  }

  /** The two bit tests of process_events. */
  lemma ComparesWord(cfg: Config, comp: nat)
    requires cfg.Good() && comp < U64
    ensures BitAnd(comp, COMPLETED_MASK) == CompletedAddr(comp)
    ensures BitAnd(comp, STATUS_MASK) == STATUS_HALTED <==> comp % 8 == 3
    ensures Halted(comp) <==> comp % 8 == 3
  {
    hide BitAnd, CompletedAddr;
    MasksAreRemainders(cfg, comp);
    HaltedIs(comp);
  }

  lemma CallbackBegins(s: Chan) returns (steps: seq<Step>)
    requires Inv(s) && Shape(s) && s.pc.Retiring?
    ensures Shape(Callback(s)) && Inv(Callback(s)) && Callback(s).pc == Calling(s.pc.target)
    ensures Runs(s, steps) && After(s, steps) == Callback(s) && steps == [CallbackStep]
    ensures Callback(s).tail == s.tail && Callback(s).goal == s.goal && Callback(s).retired == s.retired
  {
    hide Inv, Runs, After;
    NextInv(s, CallbackStep);
    RunsOne(s, CallbackStep);
    steps := [CallbackStep];
  }

  lemma CallbackEnds(s0: Chan, steps: seq<Step>) returns (longer: seq<Step>)
    requires Shape(s0) && Runs(s0, steps) && Inv(After(s0, steps)) && After(s0, steps).pc.Calling?
    ensures Runs(s0, longer) && After(s0, longer) == Return(After(s0, steps)) && longer == steps + [ReturnStep]
  {
    hide Inv, Runs, After, Return, Shape;
    var s := After(s0, steps);
    RunsOne(s, ReturnStep);
    longer := steps + [ReturnStep];
    RunsConcat(s0, steps, [ReturnStep]);
  }

  lemma NotIdle()
    ensures !ReportsIdle(0)
  {
  }

  lemma StartupBuilt(s0: Chan, s1: Chan)
    requires Fresh(s0) && Shape(s0) && s1 == Build(s0, Startup()).0
    ensures s1.pc.Idle? && Inv(s1) && Shape(s1)
  {
    hide Inv, Core, Issue, RequestOps;
    FreshInv(s0);
    BuildInv(s0, Startup());
    BuildLeaves(s0, Startup());
  }

  lemma StartupFlushed(s0: Chan, s1: Chan, r: Chan, burst: seq<Step>) returns (steps: seq<Step>)
    requires Fresh(s0) && Shape(s0) && s1 == Build(s0, Startup()).0 && Flushed(s1, r, burst)
    ensures Runs(s0, steps) && After(s0, steps) == r && Inv(r) && StartedUp(r)
  {
    hide Inv, Core, Fresh, Build, Flush, Runs, After, StartedUp, Shape, EngineOnly;
    StartupRequest(s0);
    StartupBuilt(s0, s1);
    StartupAnnounced(s0);
    FlushInv(s1);
    NoSteps(s0);
    NoSteps(s1);
    steps := Extend(s0, [], BuildStep(Startup()), []);
    steps := ExtendByFlush(s0, steps, r, burst);
    StartedUpKept(Flush(s1), burst);
  }

  /** A run of engine steps extended by one. */
  lemma EngineExtends(s0: Chan, steps: seq<Step>, status: nat) returns (longer: seq<Step>)
    requires Core(s0) && Shape(s0) && EngineOnly(steps) && Runs(s0, steps)
    requires After(s0, steps).count != After(s0, steps).dmacount && status < DESC_BYTES
    ensures EngineOnly(longer) && Runs(s0, longer) && After(s0, longer) == Device(After(s0, steps), status)
    ensures Core(After(s0, longer))
  {
    hide Core, Runs, After, Device, Shape;
    longer := steps + [DeviceStep(status)];
    EngineKeeps(s0, steps);
    RunsOne(After(s0, steps), DeviceStep(status));
    RunsConcat(s0, steps, [DeviceStep(status)]);
    DeviceCore(After(s0, steps), status);
  }

  /** Engine steps keep the whole invariant if it holds. */
  lemma EngineKeepsInv(s: Chan, steps: seq<Step>)
    requires Core(s) && Shape(s) && EngineOnly(steps) && Runs(s, steps)
    ensures Inv(After(s, steps)) == Inv(s)
  {
    hide Runs, After, EngineOnly, Core, AllEntries, NonEmpty, Shape;
    EngineKeeps(s, steps);
  }

  /** The engine's registers and the memory it works on. */
  datatype EngineState = EngineState(cur: nat, count: nat, mem: Memory)

  /** The history of the run and the driver's position in process_events. */
  datatype History = History(
    pc: Pc, log: seq<Entry>, reqs: seq<Request>, fired: seq<Call>,
    retired: nat, completed: nat, executed: nat, announced: nat, goal: nat, asked: set<nat>)

  class Channel {
    const cfg: Config

    // The driver's fields and the two rings.
    var head: nat
    var tail: nat
    var lastSeen: nat
    const ring: array<Desc>
    const hwRing: array<HwDesc>

    // The register the driver writes and the word the engine writes.
    var dmacount: nat
    var comp: nat

    var engine: EngineState
    ghost var hist: History

    ghost function View(): Chan
      reads this, ring, hwRing
    {
      Chan(cfg, head, tail, lastSeen, ring[..], hwRing[..], dmacount, comp,
           hist.pc, engine.cur, engine.count, engine.mem, hist.log, hist.reqs, hist.fired,
           hist.retired, hist.completed, hist.executed, hist.announced, hist.goal, hist.asked)
    }

    ghost predicate Ready()
      reads this, ring, hwRing
    {
      cfg.Good() && Shape(View())
    }

    /** What holds even in the middle of a build. */
    ghost predicate Between()
      reads this, ring, hwRing
      ensures Between() ==> Ready()
    {
      Core(View())
    }

    ghost predicate Valid()
      reads this, ring, hwRing
      ensures Valid() ==> Between() && Ready()
    {
      Inv(View())
    }

    // -------------------------------------------------------------- start-up

    /** Zeroed rings, linked, with the engine at the first descriptor; the completion word is whatever memory held. */
    constructor (cfg: Config, garbage: nat)
      requires cfg.Good() && garbage < U64
      ensures fresh(ring) && fresh(hwRing)
      ensures this.cfg == cfg && Fresh(View()) && Valid() && comp == garbage
    {
      hide Inv, Pow2;
      this.cfg := cfg;
      head, tail, lastSeen := 0, 0, 0;
      ring := new Desc[cfg.size](_ => Desc(0, 0, 0));
      hwRing := new HwDesc[cfg.size](_ => HwDesc(0, Control(0, false, false), 0, 0, 0));
      dmacount, comp := 0, garbage;
      engine := EngineState(0, 0, cfg.mem0);
      hist := History(Idle, [], [], [], 0, 0, 0, 0, 0, {});
      new;
      Link();
      engine := engine.(cur := ring[0].physAddr);
      FreshInv(View());
    }

    /** The linking loop: every slot learns its address, and the slot before it its successor. */
    method Link()
      requires cfg.Good() && ring.Length == hwRing.Length == cfg.size
      requires forall j: nat :: j < cfg.size ==> ring[j] == Desc(0, 0, 0)
      modifies ring, hwRing
      ensures forall j: nat :: j < cfg.size ==> ring[j] == LinkedDesc(cfg, j)
      ensures forall j: nat :: j < cfg.size ==> hwRing[j].next == cfg.Addr(j + 1)
    {
      hide Config.Addr, BitAnd, Pow2, RingIndex, Sub32;
      var i := 0;
      AddrByIndex(cfg, 0);
      while i < cfg.size
        invariant i <= cfg.size
        invariant forall j: nat :: j < i ==> ring[j] == LinkedDesc(cfg, j)
        invariant forall j: nat :: i <= j < cfg.size ==> ring[j] == Desc(0, 0, 0)
        invariant forall j: nat :: j + 1 < i ==> hwRing[j].next == cfg.Addr(j + 1)
        invariant i > 0 ==> hwRing[cfg.size - 1].next == cfg.Addr(cfg.size)
      {
        var iova := cfg.base + DESC_BYTES * i;
        AddrByIndex(cfg, i);
        ring[i] := ring[i].(physAddr := iova);
        var p := GetRingIndex(Sub32(i, 1));
        LinkIndex(cfg, i);
        hwRing[p] := hwRing[p].(next := iova);
        i := i + 1;
      }
    }

    /** Issue and announce the start-up null descriptor. */
    method IssueStartup() returns (ghost steps: seq<Step>)
      requires Fresh(View())
      modifies this`head, this`hist, this`dmacount, this`comp, this`engine, ring, hwRing
      ensures Runs(old(View()), steps) && View() == After(old(View()), steps) && Valid()
      ensures StartedUp(View())
    {
      hide Inv, Core, Fresh, Runs, After, Build, IoatModel.Flush, Prep, Shape, StartedUp, RingSpace, View, Flushed;
      ghost var s0 := View();
      StartupRequest(s0);
      FreshIsReady();
      NullForStartup();
      ghost var s1 := View();
      StartupBuilt(s0, s1);
      ghost var burst := Flush();
      steps := StartupFlushed(s0, s1, View(), burst);
    }

    lemma RingSizes()
      requires Ready()
      ensures ring.Length == hwRing.Length == cfg.size && View().ring == ring[..] && View().cfg == cfg
    {
    }

    lemma FreshIsReady()
      requires Fresh(View())
      ensures Ready()
    {
    }

    /** The null descriptor of the start-up code. */
    method NullForStartup()
      requires Ready() && RingSpace(View()) >= 1
      modifies this`head, this`hist, ring, hwRing
      ensures View() == Prep(old(View()), Null).(reqs := old(View()).reqs + [Startup()])
    {
      hide RingSpace, HwFor;
      var last := PrepNull();
      hist := hist.(reqs := hist.reqs + [Startup()]);
    }

    /** Read the channel status.  The engine reports idle only if it has nothing left to do. */
    method ReadStatus() returns (status: nat)
      ensures status < U64 && (ReportsIdle(status) ==> engine.count == dmacount)
    {
      NotIdle();
      status := 0;
      if engine.count == dmacount {
        status :| status < U64;
      } else {
        status :| status < U64 && !ReportsIdle(status);
      }
    }

    /** The null descriptor is issued; the status is read up to a hundred times, until it is idle, while the engine
        runs or does not.  Start-up succeeds exactly if the last status read is idle, and then the descriptor is
        retired, unless the engine has reported a halted state. */
    method Start() returns (ok: bool, ghost statuses: seq<nat>, ghost steps: seq<Step>)
      requires Fresh(View())
      modifies this, ring, hwRing
      ensures Runs(old(View()), steps) && View() == After(old(View()), steps)
      ensures Valid() && View().pc.Idle?
      ensures 0 < |statuses| <= 100 && forall i: nat :: i + 1 < |statuses| ==> statuses[i] % 8 != 1
      ensures ok <==> statuses[|statuses| - 1] % 8 == 1
      ensures !ok ==> |statuses| == 100 && View().retired == 0
      ensures ok ==> View().completed > 0 && (View().retired == 1 || View().comp % 8 == 3)
    {
      hide Inv, Core, Fresh, Runs, After, Shape, EngineOnly, Halted, Readable, ReportsIdle;
      FreshIsReady();
      ghost var s0 := View();
      steps := IssueStartup();
      statuses := [];
      var i, idle := 100, false;
      while i > 0 && !idle
        invariant Valid() && StartedUp(View()) && Runs(s0, steps) && View() == After(s0, steps)
        invariant i + |statuses| == 100 && forall j: nat :: j + 1 < |statuses| ==> statuses[j] % 8 != 1
        invariant idle <==> statuses != [] && statuses[|statuses| - 1] % 8 == 1
        invariant idle ==> View().count == View().dmacount
      {
        i := i - 1;
        ghost var before := View();
        ghost var burst := EngineRuns();
        StartedUpKept(before, burst);
        ExtendByRun(s0, steps, burst);
        steps := steps + burst;
        var status := ReadStatus();
        IdleIs(status);
        idle := ReportsIdle(status);
        statuses := statuses + [status];
      }
      ok := idle;
      if ok {
        StartupReported(View());
        ghost var more;
        var rc;
        rc, more := ProcessEvents();
        CompletedFacts(View());
        RunsConcat(s0, steps, more);
        steps := steps + more;
      }
    }

    // -------------------------------------------------------------- index arithmetic

    function GetRingIndex(index: nat): (r: nat)
      requires cfg.Good()
      ensures r == RingIndex(cfg, index) && r < cfg.size
    {
      MasksAreRemainders(cfg, index);
      BitAnd(index, Pow2(cfg.order) - 1)
    }

    function GetActive(): (r: nat)
      requires cfg.Good()
      reads this, ring, hwRing
      ensures r == Active(View()) && r < cfg.size
      ensures Valid() ==> r == |View().log| - View().retired
    {
      MasksAreRemainders(cfg, Sub32(head, tail));
      assert Valid() ==> Active(View()) == |View().log| - View().retired by { if Valid() { Indices(View()); } }
      BitAnd(Sub32(head, tail), Pow2(cfg.order) - 1)
    }

    function GetRingSpace(): (r: nat)
      requires cfg.Good()
      reads this, ring, hwRing
      ensures r == RingSpace(View())
      ensures Valid() ==> r + 1 + (|View().log| - View().retired) == cfg.size
    {
      Pow2(cfg.order) - GetActive() - 1
    }

    // -------------------------------------------------------------- one descriptor

    method PrepNull() returns (last: Option<nat>)
      requires Ready()
      modifies this`head, this`hist, ring, hwRing
      ensures Prepared(old(View()), View(), Null, last)
    {
      hide Active, BitAnd, Pow2;
      if GetRingSpace() < 1 { return None; }
      var i := GetRingIndex(head);
      var d := hwRing[i];
      d := d.(control := Control(OP_COPY, true, false));
      d := d.(size := 8);
      d := d.(src := 0);
      d := d.(dest := 0);
      hwRing[i] := d;
      ring[i] := ring[i].(fn := 0, arg := 0);
      head := (head + 1) % U32;
      hist := hist.(log := hist.log + [Entry(Null, 0, 0)]);
      last := Some(i);
    }

    method PrepCopy(dst: nat, src: nat, len: nat) returns (last: Option<nat>)
      requires Ready() && len <= cfg.maxXfer
      modifies this`head, this`hist, ring, hwRing
      ensures Prepared(old(View()), View(), Copy(dst, src, len), last)
    {
      hide Active, BitAnd, Pow2;
      if GetRingSpace() < 1 { return None; }
      var i := GetRingIndex(head);
      var d := hwRing[i];
      d := d.(control := Control(OP_COPY, false, false));
      d := d.(size := len);
      d := d.(src := src);
      d := d.(dest := dst);
      hwRing[i] := d;
      ring[i] := ring[i].(fn := 0, arg := 0);
      head := (head + 1) % U32;
      hist := hist.(log := hist.log + [Entry(Copy(dst, src, len), 0, 0)]);
      last := Some(i);
    }

    method PrepFill(dst: nat, pattern: nat, len: nat) returns (last: Option<nat>)
      requires Ready() && len <= cfg.maxXfer
      modifies this`head, this`hist, ring, hwRing
      ensures Prepared(old(View()), View(), Fill(dst, pattern, len), last)
    {
      hide Active, BitAnd, Pow2;
      if GetRingSpace() < 1 { return None; }
      var i := GetRingIndex(head);
      var d := hwRing[i];
      d := d.(control := Control(OP_FILL, false, false));
      d := d.(size := len);
      d := d.(src := pattern);
      d := d.(dest := dst);
      hwRing[i] := d;
      ring[i] := ring[i].(fn := 0, arg := 0);
      head := (head + 1) % U32;
      hist := hist.(log := hist.log + [Entry(Fill(dst, pattern, len), 0, 0)]);
      last := Some(i);
    }

    // -------------------------------------------------------------- requests

    /** The engine runs in the middle of a build. */
    method EngineBetween(ghost s0: Chan, ghost ops: seq<Op>, ghost rest: seq<Op>, ghost steps: seq<Step>)
      returns (ghost longer: seq<Step>)
      requires Between() && Issuing(s0, ops, View(), rest, steps)
      modifies this`hist, this`comp, this`engine
      ensures Between() && Issuing(s0, ops, View(), rest, longer)
    {
      hide Core, Runs, After, Issuing, Shape, View, EngineOnly;
      ghost var s := View();
      ghost var burst := EngineRuns();
      IssuingGoesOn(s0, ops, s, rest, steps, burst);
      longer := steps + burst;
    }

    /** The loop of build_copy: write descriptors until the range is covered or the ring is full, while the engine
        runs. */
    method IssueCopy(ghost req: Request, dst: nat, src: nat, nbytes: nat)
      returns (last: Option<nat>, ghost steps: seq<Step>)
      requires Between() && req.CopyRequest? && req.dst == dst && req.src == src && req.n == nbytes
      modifies this`head, this`hist, this`comp, this`engine, ring, hwRing
      ensures Between() && Issued(old(View()), RequestOps(req, cfg.maxXfer), View(), last, steps)
    {
      hide Core, Issue, RequestOps, CopyOps, Runs, After, Issuing, Issued, Shape, View, Prep, RingSpace, Prepared;
      ghost var s0, max := View(), cfg.maxXfer;
      ghost var ops := RequestOps(req, max);
      ghost var rest := ops;
      OpsBySize(req, max);
      ViewFacts();
      IssuingStarts(s0, ops);
      steps := [];
      var vdst: nat, vsrc: nat, remaining: nat := dst, src, nbytes;
      while remaining > 0
        invariant Between() && Issuing(s0, ops, View(), rest, steps)
        invariant if remaining == 0 then nbytes == 0 && rest == [Null] else rest == CopyOps(vdst, vsrc, remaining, max)
        decreases remaining
      {
        steps := EngineBetween(s0, ops, rest, steps);
        ghost var s := View();
        ViewFacts();
        CopyIssueStep(s, vdst, vsrc, remaining);
        var opSize := Min(remaining, cfg.maxXfer);
        ModAtMost(opSize, U32);
        last := PrepCopy(vdst, vsrc, opSize % U32);
        PreparedIs(s, View(), Copy(vdst, vsrc, opSize % U32), last);
        PreparedCore(s, View(), Copy(vdst, vsrc, opSize % U32), last);
        remaining := remaining - opSize;
        if remaining == 0 || last.None? {
          IssuingEnds(s0, ops, s, rest, steps, View(), last);
          return;
        }
        ghost var next := CopyOps((vdst + max) % U64, (vsrc + max) % U64, remaining, max);
        ViewFacts();
        IssuingNext(s0, ops, s, rest, steps, View(), next);
        rest := next;
        vsrc := (vsrc + opSize) % U64;
        vdst := (vdst + opSize) % U64;
      }
      ghost var s := View();
      ViewFacts();
      IssueSmall(s);
      last := PrepNull();
      PreparedIs(s, View(), Null, last);
      PreparedCore(s, View(), Null, last);
      IssuingEnds(s0, ops, s, rest, steps, View(), last);
    }

    /** The loop of build_fill; it writes nothing for an empty range. */
    method IssueFill(ghost req: Request, dst: nat, pattern: nat, nbytes: nat)
      returns (last: Option<nat>, ghost steps: seq<Step>)
      requires Between() && req.FillRequest? && req.dst == dst && req.pattern == pattern && req.n == nbytes
      modifies this`head, this`hist, this`comp, this`engine, ring, hwRing
      ensures Between() && Issued(old(View()), RequestOps(req, cfg.maxXfer), View(), last, steps)
    {
      hide Core, Issue, RequestOps, FillOps, Runs, After, Issuing, Issued, Shape, View, Prep, RingSpace, Prepared;
      ghost var s0, max := View(), cfg.maxXfer;
      ghost var ops := RequestOps(req, max);
      ghost var rest := ops;
      OpsBySize(req, max);
      ViewFacts();
      IssuingStarts(s0, ops);
      steps := [];
      var vdst: nat, remaining: nat := dst, nbytes;
      last := None;
      while remaining > 0
        invariant Between() && Issuing(s0, ops, View(), rest, steps)
        invariant if remaining == 0 then last == None && rest == [] else rest == FillOps(vdst, pattern, remaining, max)
        decreases remaining
      {
        steps := EngineBetween(s0, ops, rest, steps);
        ghost var s := View();
        ViewFacts();
        FillIssueStep(s, vdst, pattern, remaining);
        var opSize := Min(remaining, cfg.maxXfer);
        ModAtMost(opSize, U32);
        last := PrepFill(vdst, pattern, opSize % U32);
        PreparedIs(s, View(), Fill(vdst, pattern, opSize % U32), last);
        PreparedCore(s, View(), Fill(vdst, pattern, opSize % U32), last);
        remaining := remaining - opSize;
        if remaining == 0 || last.None? {
          IssuingEnds(s0, ops, s, rest, steps, View(), last);
          return;
        }
        ghost var next := FillOps((vdst + max) % U64, pattern, remaining, max);
        ViewFacts();
        IssuingNext(s0, ops, s, rest, steps, View(), next);
        rest := next;
        vdst := (vdst + opSize) % U64;
      }
      ViewFacts();
      IssueSmall(View());
      IssuingEnds(s0, ops, View(), rest, steps, View(), last);
    }

    lemma ViewFacts()
      requires Between()
      ensures Ready() && Shape(View()) && Core(View()) && View().cfg == cfg
    {
      hide Core;
    }

    /** The end of both builds: the callback on the last descriptor, or head back to where it was. */
    method FinishBuild(ghost before: Chan, ghost req: Request, last: Option<nat>, fn: nat, arg: nat, origHead: nat)
      returns (rc: int)
      requires Between() && req.fn == fn && req.arg == arg && before.head == origHead
      requires last.Some? ==> last.value < cfg.size && |View().log| > 0
      modifies this`head, this`hist, ring
      ensures Shape(old(View())) && (View(), rc) == Finish(before, req, old(View()), last)
    {
      hide Core;
      if last.Some? {
        ring[last.value] := ring[last.value].(fn := fn, arg := arg);
        hist := hist.(log := hist.log[|hist.log| - 1 := Entry(hist.log[|hist.log| - 1].op, fn, arg)],
                      reqs := hist.reqs + [req]);
        rc := 0;
      } else {
        head := origHead;
        hist := hist.(log := before.log);
        rc := -ENOMEM;
      }
    }

    method BuildCopy(fn: nat, arg: nat, dst: nat, src: nat, nbytes: nat) returns (rc: int, ghost steps: seq<Step>)
      requires Valid()
      modifies this`head, this`hist, this`comp, this`engine, ring, hwRing
      ensures Valid() && Built(old(View()), CopyRequest(dst, src, nbytes, fn, arg), View(), rc, steps)
      ensures rc == 0 || rc == -12
    {
      hide Inv, Core, Runs, After, RequestOps, Issued, Built, Shape, Finish, EngineOnly;
      ghost var before, req := View(), CopyRequest(dst, src, nbytes, fn, arg);
      var origHead := head;
      var last;
      last, steps := IssueCopy(req, dst, src, nbytes);
      ghost var issued := View();
      ghost var burst := EngineRuns();
      IssuedGoesOn(before, RequestOps(req, cfg.maxXfer), issued, last, steps, burst);
      steps := steps + burst;
      BuiltBy(before, req, View(), last, steps);
      rc := FinishBuild(before, req, last, fn, arg, origHead);
      BuiltInv(before, req, View(), rc, steps);
      BuiltCode(before, req, View(), rc, steps);
    }

    method BuildFill(fn: nat, arg: nat, dst: nat, pattern: nat, nbytes: nat) returns (rc: int, ghost steps: seq<Step>)
      requires Valid()
      modifies this`head, this`hist, this`comp, this`engine, ring, hwRing
      ensures Valid() && Built(old(View()), FillRequest(dst, pattern, nbytes, fn, arg), View(), rc, steps)
      ensures rc == 0 || rc == if cfg.fillSupported then -12 else -1
    {
      hide Inv, Core, Runs, After, RequestOps, Issued, Built, Shape, Finish, EngineOnly;
      ghost var before, req := View(), FillRequest(dst, pattern, nbytes, fn, arg);
      if !cfg.fillSupported {
        Unsupported(before, req);
        return -1, [];
      }
      var origHead := head;
      var last;
      last, steps := IssueFill(req, dst, pattern, nbytes);
      ghost var issued := View();
      ghost var burst := EngineRuns();
      IssuedGoesOn(before, RequestOps(req, cfg.maxXfer), issued, last, steps, burst);
      steps := steps + burst;
      BuiltBy(before, req, View(), last, steps);
      rc := FinishBuild(before, req, last, fn, arg, origHead);
      BuiltInv(before, req, View(), rc, steps);
      BuiltCode(before, req, View(), rc, steps);
    }

    /** Mark the last descriptor, and ring the doorbell; the engine may run in between. */
    method Flush() returns (ghost steps: seq<Step>)
      requires Valid()
      modifies this`dmacount, this`hist, this`comp, this`engine, hwRing
      ensures Valid() && Flushed(old(View()), View(), steps)
      ensures View().log == old(View()).log && View().announced == |old(View()).log|
      ensures View().dmacount == |old(View()).log| % 0x1_0000
    {
      hide Inv, Core, Runs, After, Flushed, EngineOnly, Shape, Mark, Ring, View;
      ghost var before := View();
      MarkCore(before);
      MarkLast();
      steps := EngineRuns();
      FlushedBy(before, steps);
      RingDoorbell();
      FlushedAnnounces(before, View(), steps);
    }

    method MarkLast()
      requires Ready()
      modifies hwRing, this`hist
      ensures View() == Mark(old(View()))
    {
      hide Pow2, BitAnd;
      var i := GetRingIndex(Sub32(head, 1));
      hwRing[i] := hwRing[i].(control := hwRing[i].control.(completionUpdate := true));
      hist := hist.(asked := hist.asked + {|hist.log|});
    }

    method RingDoorbell()
      requires Ready()
      modifies this`dmacount, this`hist
      ensures View() == Ring(old(View()))
    {
      dmacount := head % U16;
      hist := hist.(announced := |hist.log|);
    }

    // -------------------------------------------------------------- the environment

    /** The engine executes one descriptor. */
    method EngineStep(status: nat)
      requires Ready() && engine.count != dmacount && status < DESC_BYTES
      modifies this`comp, this`engine, this`hist
      ensures View() == Device(old(View()), status)
    {
      hide Exec, OpOf, Pow2;
      var d := if InRing(cfg, engine.cur) then hwRing[(engine.cur - cfg.base) / DESC_BYTES] else HwFor(Null, 0);
      var at := engine.cur;
      engine := EngineState(d.next, (engine.count + 1) % U16, Exec(OpOf(d), engine.mem));
      if d.control.completionUpdate {
        comp := at + status;
        hist := hist.(executed := hist.executed + 1, completed := hist.executed + 1);
      } else {
        hist := hist.(executed := hist.executed + 1);
      }
    }

    /** The engine executes any number of descriptors, as long as the doorbell says that there are some. */
    method EngineRuns() returns (ghost steps: seq<Step>)
      requires Between()
      modifies this`comp, this`engine, this`hist
      ensures Between() && Valid() == old(Valid()) && EngineOnly(steps)
      ensures Runs(old(View()), steps) && View() == After(old(View()), steps)
    {
      hide Inv, Core, Runs, After, Device, Shape;
      ghost var s0 := View();
      steps := [];
      NoSteps(s0);
      var n: nat :| true;
      while n > 0
        invariant Between() && EngineOnly(steps) && Runs(s0, steps) && View() == After(s0, steps)
      {
        n := n - 1;
        var status: nat :| true;
        if engine.count != dmacount && status < DESC_BYTES {
          steps := EngineExtends(s0, steps, status);
          EngineStep(status);
        }
      }
      EngineKeepsInv(s0, steps);
    }

    /** Anything that can happen while a callback runs: any number of engine steps, builds and flushes; without a
        callback only engine steps. */
    method Interfere(inCallback: bool) returns (ghost steps: seq<Step>)
      requires Valid() && (inCallback ==> View().pc.Calling?)
      modifies this`head, this`dmacount, this`comp, this`engine, this`hist, ring, hwRing
      ensures Runs(old(View()), steps) && View() == After(old(View()), steps)
      ensures Valid() && SamePlace(old(View()), View()) && NoEvents(steps)
    {
      hide Inv, Core, Runs, After, Built, Flushed, View, Shape, EngineOnly;
      ghost var s0 := View();
      steps := [];
      NoSteps(s0);
      var n: nat :| true;
      while n > 0
        invariant Runs(s0, steps) && View() == After(s0, steps) && Valid() && SamePlace(s0, View())
        invariant NoEvents(steps)
      {
        n := n - 1;
        var choice: nat, fn: nat, arg: nat, dst: nat, other: nat, nbytes: nat :| true;
        ghost var burst;
        if choice == 0 && inCallback {
          var rc;
          rc, burst := BuildCopy(fn, arg, dst, other, nbytes);
          steps := ExtendByBuild(s0, steps, CopyRequest(dst, other, nbytes, fn, arg), View(), rc, burst);
        } else if choice == 1 && inCallback {
          var rc;
          rc, burst := BuildFill(fn, arg, dst, other, nbytes);
          steps := ExtendByBuild(s0, steps, FillRequest(dst, other, nbytes, fn, arg), View(), rc, burst);
        } else if choice == 2 && inCallback {
          burst := Flush();
          steps := ExtendByFlush(s0, steps, View(), burst);
        } else {
          ghost var s := View();
          burst := EngineRuns();
          EngineKeepsPosition(s, burst);
          EngineIsNoEvent(steps, burst);
          ExtendByRun(s0, steps, burst);
          steps := steps + burst;
        }
      }
    }

    // -------------------------------------------------------------- process_events

    /** One round of the loop of process_events: run the callback of the descriptor at tail, and only then
        move tail. */
    method RetireOne(completedDescriptor: nat) returns (physAddr: nat, ghost steps: seq<Step>)
      requires Valid() && View().pc == Retiring(completedDescriptor)
      modifies this, ring, hwRing
      ensures Runs(old(View()), steps) && View() == After(old(View()), steps)
      ensures Valid() && View().goal == old(View()).goal && View().retired == old(View()).retired + 1
      ensures if View().pc.Idle? then Inside(old(View()), steps) else Busy(old(View()), steps)
      ensures if physAddr == completedDescriptor then View().pc.Idle? && View().retired == View().goal
              else View().pc == old(View()).pc && View().retired < View().goal
    {
      hide Inv, Core, Runs, After, IoatModel.Callback, Return, Shape, RingIndex, NoEvents, Busy, Inside;
      ghost var s0 := View();
      steps := CallbackBegins(s0);
      RingSizes();
      var i := GetRingIndex(tail);
      var fn, arg := ring[i].fn, ring[i].arg;
      StartCallback(fn, arg);
      ghost var s1 := View();
      ghost var more := Interfere(fn != 0);
      RoundBusy(s0, more);
      RunsConcat(s0, steps, more);
      steps := steps + more;
      RingSizes();
      physAddr := ring[i].physAddr;
      steps := CallbackEnds(s0, steps);
      Advance(physAddr, completedDescriptor);
    }

    /** Move tail past the descriptor whose callback has returned. */
    method Advance(physAddr: nat, completedDescriptor: nat)
      requires Valid() && View().pc == Calling(completedDescriptor)
      requires View().ring[RingIndex(cfg, View().tail)].physAddr == physAddr
      modifies this`tail, this`hist, this`lastSeen
      ensures View() == Return(old(View())) && Valid()
      ensures View().retired == old(View()).retired + 1 && View().goal == old(View()).goal
      ensures if physAddr == completedDescriptor then View().pc.Idle? && View().retired == View().goal
              else View().pc == Retiring(completedDescriptor) && View().retired < View().goal
    {
      hide Inv, Core, Return, RingIndex, Shape, Config.Good;
      ReturnByFields(View(), physAddr);
      tail := (tail + 1) % U32;
      if physAddr == completedDescriptor {
        lastSeen := physAddr;
        hist := hist.(retired := hist.retired + 1, pc := Idle);
      } else {
        hist := hist.(retired := hist.retired + 1, pc := Retiring(completedDescriptor));
      }
    }

    /** The do-while loop of process_events. */
    method RetireUpTo(completedDescriptor: nat) returns (events: nat, ghost steps: seq<Step>)
      requires Valid() && View().pc == Retiring(completedDescriptor)
      modifies this, ring, hwRing
      ensures Runs(old(View()), steps) && View() == After(old(View()), steps)
      ensures Valid() && View().pc.Idle? && Inside(old(View()), steps)
      ensures View().retired == old(View()).goal && events == View().retired - old(View()).retired > 0
    {
      hide Inv, Core, Runs, After, View, Shape, Inside;
      ghost var s0 := View();
      NoSteps(s0);
      BusyPolling(s0);
      steps := [];
      events := 0;
      while true
        invariant Valid() && View().pc == Retiring(completedDescriptor)
        invariant View().goal == s0.goal && View().retired < s0.goal
        invariant Runs(s0, steps) && View() == After(s0, steps) && Busy(s0, steps)
        invariant events == View().retired - s0.retired
        decreases s0.goal - View().retired
      {
        var physAddr;
        ghost var more;
        physAddr, more := RetireOne(completedDescriptor);
        BusyConcat(s0, steps, more);
        RunsConcat(s0, steps, more);
        steps := steps + more;
        events := events + 1;
        if physAddr == completedDescriptor { break; }
      }
    }

    /** Hand control to the callback of the descriptor at tail, if there is one. */
    ghost method StartCallback(fn: nat, arg: nat)
      requires Ready() && View().pc.Retiring?
      requires fn == ring[RingIndex(cfg, tail)].fn && arg == ring[RingIndex(cfg, tail)].arg
      modifies this`hist
      ensures View() == IoatModel.Callback(old(View()))
    {
      hist := hist.(pc := Calling(hist.pc.target),
                    fired := if fn != 0 then hist.fired + [Call(fn, arg)] else hist.fired);
    }

    method ProcessEvents() returns (rc: int, ghost steps: seq<Step>)
      requires Valid() && View().pc.Idle?
      requires head == tail || View().completed > 0 || comp % 8 == 3 || comp < 64
      modifies this, ring, hwRing
      ensures Runs(old(View()), steps) && View() == After(old(View()), steps)
      ensures Valid() && View().pc.Idle?
      ensures old(head) == old(tail) ==> rc == 0
      ensures rc == -1 <==> old(head) != old(tail) && old(comp) % 8 == 3
      ensures old(head) != old(tail) && old(comp) % 8 != 3 ==>
        rc == old(View()).completed - old(View()).retired && View().retired == old(View()).completed
      ensures rc <= 0 ==> View() == old(View())
      ensures rc > 0 ==> |steps| > 0 && steps[0] == PollStep && Inside(Poll(old(View())), steps[1..])
    {
      hide Inv, Core, Poll, Runs, After, Enabled, CompletedAddr, Halted, BitAnd, Shape, Readable, Inside;
      ghost var s0 := View();
      AllowedIff(s0, Startup(), 0);
      PollDecision(s0);
      ComparesWord(cfg, comp);
      RunsOne(s0, PollStep);
      steps := [PollStep];
      if head == tail { return 0, steps; }
      var status := comp;
      var completedDescriptor := BitAnd(status, COMPLETED_MASK);
      if BitAnd(status, STATUS_MASK) == STATUS_HALTED { return -1, steps; }
      if completedDescriptor == lastSeen { return 0, steps; }
      hist := hist.(pc := Retiring(completedDescriptor), goal := hist.completed);
      ghost var more;
      rc, more := RetireUpTo(completedDescriptor);
      RunsConcat(s0, steps, more);
      steps := steps + more;
      assert steps[1..] == more;
    }
  }
}
