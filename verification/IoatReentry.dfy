/** What happens when a callback calls process_events again.  The source accepts such a call, but tail has not moved
    yet: the inner call finds the descriptor whose callback is running and runs that callback a second time. */
module IoatReentry {
  import opened Words
  import opened Dma
  import opened IoatModel
  import opened IoatInvariant
  import opened IoatTheorems

  /** A suspended call: the descriptor whose callback it is waiting for, by address, with the callback it runs, and what
      the call retires up to. */
  datatype Outer = Outer(at: nat, fn: nat, target: nat, goal: nat)

  /** A channel with the descriptor and function of the running callback, and the calls suspended further out. */
  datatype Nest = Nest(chan: Chan, at: nat, fn: nat, outer: seq<Outer>)

  datatype Move = Base(step: Step) | Reenter

  predicate NestShape(n: Nest) {
    Shape(n.chan)
  }

  /** Between two calls, as in the plain state machine. */
  function Start(s: Chan): Nest { Nest(s, 0, 0, []) }

  // ---------------------------------------------------------------- moves

  predicate CanMove(n: Nest, move: Move) {
    match move
    case Base(step) => Enabled(n.chan, step)
    case Reenter => n.chan.pc.Calling? && n.fn != 0
  }

  /** Return, for a call that noted the address of its descriptor before the callback. */
  function ReturnAt(s: Chan, at: nat): Chan
    requires s.pc.Calling?
  {
    var s1 := s.(tail := (s.tail + 1) % U32, retired := s.retired + 1);
    if at != s.pc.target then s1.(pc := Retiring(s.pc.target)) else s1.(pc := Idle, lastSeen := at)
  }

  /** A call that leaves gives control back to the callback of the call around it. */
  function Resume(n: Nest): Nest {
    if !n.chan.pc.Idle? || n.outer == [] then n
    else
      var o := n.outer[|n.outer| - 1];
      Nest(n.chan.(pc := Calling(o.target), goal := o.goal), o.at, o.fn, n.outer[..|n.outer| - 1])
  }

  /** A call from inside a callback: its guards are those of any call. */
  function Inner(n: Nest): Nest
    requires n.chan.pc.Calling?
  {
    var p := Poll(n.chan);
    if p.pc.Calling? then n
    else n.(chan := p, outer := n.outer + [Outer(n.at, n.fn, n.chan.pc.target, n.chan.goal)])
  }

  function Moved(n: Nest, move: Move): (r: Nest)
    requires NestShape(n) && CanMove(n, move)
    ensures NestShape(r)
  {
    match move
    case Base(CallbackStep) =>
      var d := n.chan.ring[RingIndex(n.chan.cfg, n.chan.tail)];
      n.(chan := Callback(n.chan), at := d.physAddr, fn := d.fn)
    case Base(ReturnStep) => Resume(n.(chan := ReturnAt(n.chan, n.at)))
    case Base(step) => n.(chan := Next(n.chan, step))
    case Reenter => Inner(n)
  }

  predicate Moves(n: Nest, moves: seq<Move>)
    requires NestShape(n)
    decreases |moves|
  {
    moves == [] || (CanMove(n, moves[0]) && Moves(Moved(n, moves[0]), moves[1..]))
  }

  function End(n: Nest, moves: seq<Move>): (r: Nest)
    requires NestShape(n) && Moves(n, moves)
    ensures NestShape(r)
    decreases |moves|
  {
    if moves == [] then n else End(Moved(n, moves[0]), moves[1..])
  }

  /** Every call from inside a callback returns at once. */
  predicate Quiet(n: Nest, moves: seq<Move>)
    requires NestShape(n) && Moves(n, moves)
    decreases |moves|
  {
    moves == [] || ((moves[0].Reenter? ==> Inner(n) == n) && Quiet(Moved(n, moves[0]), moves[1..]))
  }

  // ---------------------------------------------------------------- exact without calls from callbacks

  /** The plain state machine, with the notes of the running callback. */
  ghost predicate Plainly(n: Nest) {
    && Reachable(n.chan) && n.outer == []
    && (n.chan.pc.Calling? ==>
      var d := n.chan.ring[RingIndex(n.chan.cfg, n.chan.tail)]; n.at == d.physAddr && n.fn == d.fn)
  }

  lemma ReturnIs(s: Chan)
    requires Shape(s) && s.pc.Calling?
    ensures Return(s) == ReturnAt(s, s.ring[RingIndex(s.cfg, s.tail)].physAddr)
  {
  }

  /** No step of a callback changes the descriptor at tail. */
  lemma TailKept(s: Chan, step: Step)
    requires Reachable(s) && s.pc.Calling? && Enabled(s, step) && !step.ReturnStep?
    ensures var r := Next(s, step); var i := RingIndex(s.cfg, s.tail);
      r.pc == s.pc && r.tail == s.tail && r.ring[i].physAddr == s.ring[i].physAddr && r.ring[i].fn == s.ring[i].fn
  {
    hide *;
    ReachableInv(s);
    Facts(s);
    ReachableStep(s, step);
    TailIs(s);
    StaysCalling(s, step);
    TailIs(Next(s, step));
  }

  lemma TailIs(s: Chan)
    requires Reachable(s) && s.pc.Calling?
    ensures var i := RingIndex(s.cfg, s.tail);
      s.retired < |s.log| && s.ring[i].physAddr == s.cfg.Addr(s.retired) && s.ring[i].fn == s.log[s.retired].fn
  {
    hide Reachable, Marked, Engine, Fired, Reported, OpOf, Active, RingSpace, AllEntries, NonEmpty;
    ReachableInv(s);
    Indices(s);
    AddrOfSlot(s.cfg, s.retired);
    assert Holds(s, s.retired);
  }

  lemma StaysCalling(s: Chan, step: Step)
    requires Reachable(s) && s.pc.Calling? && Enabled(s, step) && !step.ReturnStep?
    ensures var r := Next(s, step);
      && r.pc == s.pc && r.tail == s.tail && r.retired == s.retired && r.cfg == s.cfg
      && s.retired < |s.log| <= |r.log| && r.log[s.retired].fn == s.log[s.retired].fn
  {
    hide Reachable, Exec, Build, OpOf, AllEntries, NonEmpty, Live, Linked, Marked, Engine, Fired, Reported;
    ReachableInv(s);
    match step
    case BuildStep(req) =>
      BuildLeaves(s, req);
      BuildOutcome(s, req);
      assert Build(s, req).1 == 0 ==> Build(s, req).0.log == s.log + Entries(req, s.cfg.maxXfer);
    case FlushStep =>
    case DeviceStep(status) =>
  }

  lemma PlainlyMoved(n: Nest, move: Move)
    requires Plainly(n) && CanMove(n, move) && (move.Reenter? ==> Inner(n) == n)
    ensures Plainly(Moved(n, move))
  {
    hide Reachable, Poll, Inner, Build, Device, Flush;
    PlainShape(n);
    match move
    case Reenter =>
    case Base(step) =>
      ReachableStep(n.chan, step);
      if step.ReturnStep? {
        ReturnIs(n.chan);
      } else if n.chan.pc.Calling? {
        TailKept(n.chan, step);
      } else if !step.CallbackStep? {
        NotCalling(n.chan, step);
      }
  }

  lemma NotCalling(s: Chan, step: Step)
    requires Shape(s) && !s.pc.Calling? && Enabled(s, step) && !step.CallbackStep?
    ensures !Next(s, step).pc.Calling?
  {
    hide Build, Exec, OpOf;
    if step.BuildStep? { BuildLeaves(s, step.req); }
  }

  lemma PlainShape(n: Nest)
    requires Plainly(n)
    ensures NestShape(n)
  {
  }

  /** In every run in which the calls from inside callbacks return at once, callbacks are first-in first-out and run at
      most once, as in the plain state machine. */
  lemma {:induction false} QuietIsExact(n: Nest, moves: seq<Move>)
    requires Plainly(n) && NestShape(n) && Moves(n, moves) && Quiet(n, moves)
    ensures var r := End(n, moves); Plainly(r) && r.chan.fired <= RequestCalls(r.chan.reqs)
    decreases |moves|
  {
    hide Reachable, Moved, CanMove, Inner, RequestCalls;
    if moves == [] {
      FiredIsPrefix(n.chan);
    } else {
      PlainlyMoved(n, moves[0]);
      QuietIsExact(Moved(n, moves[0]), moves[1..]);
    }
  }

  lemma StartsPlainly(s: Chan)
    requires Fresh(s)
    ensures Plainly(Start(s))
  {
    FreshReachable(s);
  }

  // ---------------------------------------------------------------- a call that does not return at once

  /** Where all inner calls so far returned at once, the callbacks run so far are those of the requests up to some r; an
      inner call from the callback of r passes its guards exactly when the channel is not halted and the completed
      descriptor is not last_seen, and the first thing it then does is to run that callback again. */
  lemma ReentryRefires(n: Nest) returns (r: nat)
    requires Plainly(n) && n.chan.pc.Calling? && n.fn != 0
    ensures r < |n.chan.reqs| && n.chan.fired == RequestCalls(n.chan.reqs[..r + 1])
    ensures Inner(n) != n <==> n.chan.comp % 8 != 3 && CompletedAddr(n.chan.comp) != n.chan.lastSeen
    ensures Inner(n) != n ==>
      && Inner(n).chan.pc.Retiring? && NestShape(Inner(n)) && CanMove(Inner(n), Base(CallbackStep))
      && var req := n.chan.reqs[r];
      Moved(Inner(n), Base(CallbackStep)).chan.fired == RequestCalls(n.chan.reqs[..r + 1]) + [Call(req.fn, req.arg)]
  {
    hide Reachable, RequestCalls, CompletedAddr;
    PlainShape(n);
    r := RunningCallback(n.chan);
  }

  /** The request whose callback is running. */
  lemma RunningCallback(s: Chan) returns (r: nat)
    requires Reachable(s) && s.pc.Calling? && s.ring[RingIndex(s.cfg, s.tail)].fn != 0
    ensures r < |s.reqs| && s.fired == RequestCalls(s.reqs[..r + 1]) && s.head != s.tail
    ensures var d := s.ring[RingIndex(s.cfg, s.tail)]; d.fn == s.reqs[r].fn && d.arg == s.reqs[r].arg
  {
    hide *;
    RunningFields(s);
    r := CallbackOwner(s.reqs, s.cfg.maxXfer, s.retired);
    CallsBeforeAndAfter(s.reqs, s.cfg.maxXfer, s.log, s.retired, r);
  }

  lemma RunningFields(s: Chan)
    requires Reachable(s) && s.pc.Calling? && s.ring[RingIndex(s.cfg, s.tail)].fn != 0
    ensures s.retired < |s.log| && s.head != s.tail
    ensures var d := s.ring[RingIndex(s.cfg, s.tail)]; d.fn == s.log[s.retired].fn && d.arg == s.log[s.retired].arg
    ensures s.log[s.retired].fn != 0 && s.log == AllEntries(s.reqs, s.cfg.maxXfer) && NonEmpty(s.reqs, s.cfg.maxXfer)
    ensures s.fired == Calls(s.log[..s.retired + 1])
  {
    hide Reachable, Linked, Marked, Engine, Reported, AllEntries, Calls, NonEmpty, OpOf, Active, RingSpace;
    ReachableInv(s);
    Indices(s);
    assert Holds(s, s.retired);
  }

  // ---------------------------------------------------------------- one such run

  /** The run up to the first callback: build, flush, one engine step, process_events. */
  function Prelude(fn: nat, arg: nat): seq<Step> {
    [BuildStep(CopyRequest(0, 0, 0, fn, arg)), FlushStep, DeviceStep(1), PollStep]
  }

  /** A channel about to run the callback of its first and only request. */
  predicate FirstCallback(s: Chan, fn: nat, arg: nat) {
    && s.cfg.Good() && Shape(s) && s.pc == Retiring(s.cfg.Addr(0)) && s.cfg.Addr(0) > 0
    && s.tail == s.retired == 0 && s.head == 1 && |s.log| == 1 && s.goal == s.completed == 1 && s.lastSeen == 0
    && !Halted(s.comp) && CompletedAddr(s.comp) == s.cfg.Addr(0) && s.fired == []
    && s.ring[RingIndex(s.cfg, 0)] == Desc(s.cfg.Addr(0), fn, arg) && s.reqs == [CopyRequest(0, 0, 0, fn, arg)]
  }

  lemma PreludeRuns(s0: Chan, fn: nat, arg: nat)
    requires Fresh(s0) && fn != 0
    ensures Runs(s0, Prelude(fn, arg)) && FirstCallback(After(s0, Prelude(fn, arg)), fn, arg)
  {
    hide *;
    var req := CopyRequest(0, 0, 0, fn, arg);
    var s1 := FirstBuild(s0, fn, arg);
    var s3 := FirstReport(s1);
    FirstPoll(s0, s1, s3, fn, arg);
    PreludeSteps(s0, s1, s3, fn, arg);
  }

  lemma FirstBuild(s0: Chan, fn: nat, arg: nat) returns (s1: Chan)
    requires Fresh(s0)
    ensures Shape(s0) && Enabled(s0, BuildStep(CopyRequest(0, 0, 0, fn, arg)))
    ensures s1 == Build(s0, CopyRequest(0, 0, 0, fn, arg)).0 && Inv(s1) && s1.pc.Idle?
    ensures |s1.log| == 1 && s1.log[0].fn == fn && s1.log[0].arg == arg && s1.fired == []
    ensures s1.retired == s1.completed == s1.executed == s1.announced == 0 && s1.reqs == [CopyRequest(0, 0, 0, fn, arg)]
  {
    hide Live, Linked, Marked, Reported, Polling, Engine, Fired, Counters, Core, Inv, Extends, Issue;
    hide CompletedAddr, Halted;
    var req := CopyRequest(0, 0, 0, fn, arg);
    FreshInv(s0);
    FreshSpace(s0);
    s1 := Build(s0, req).0;
    BuildOutcome(s0, req);
    BuildLeaves(s0, req);
    BuildInv(s0, req);
  }

  lemma FreshSpace(s: Chan)
    requires Fresh(s)
    ensures Core(s) && RingSpace(s) >= 1 && s.completed == 0
  {
    FreshInv(s);
    SizeBelow(s.cfg);
    ModSmall(0, U32);
    ModSmall(0, s.cfg.size);
  }

  lemma FirstReport(s1: Chan) returns (s3: Chan)
    requires Inv(s1) && |s1.log| == 1 && s1.pc.Idle?
    requires s1.retired == s1.completed == s1.executed == s1.announced == 0
    ensures Shape(s1) && var s2 := Flush(s1);
      && Shape(s2) && Enabled(s2, DeviceStep(1)) && s3 == Device(s2, 1) && Inv(s3)
    ensures s3.pc == s1.pc && s3.log == s1.log && s3.reqs == s1.reqs && s3.fired == s1.fired && s3.retired == 0
    ensures s3.completed == 1 && s3.head != s3.tail && !Halted(s3.comp) && s3.cfg == s1.cfg
  {
    hide Inv, Exec, Device, Flush;
    Facts(s1);
    FirstCompletion(s1);
    NextInv(s1, FlushStep);
    NextInv(Flush(s1), DeviceStep(1));
    s3 := Device(Flush(s1), 1);
    ReportFrame(s1);
  }

  lemma ReportFrame(s1: Chan)
    requires Shape(s1)
    ensures var s2 := Flush(s1); var s3 := Device(s2, 1);
      && Shape(s2) && s3.cfg == s1.cfg && s3.pc == s1.pc && s3.log == s1.log && s3.reqs == s1.reqs
      && s3.fired == s1.fired && s3.retired == s1.retired
  {
    hide Exec, OpOf;
  }

  lemma FirstPoll(s0: Chan, s1: Chan, s3: Chan, fn: nat, arg: nat)
    requires Inv(s3) && s3.pc.Idle? && s3.completed == 1 && s3.retired == 0 && s3.head != s3.tail && !Halted(s3.comp)
    requires |s3.log| == 1 && s3.log[0].fn == fn && s3.log[0].arg == arg && s3.fired == []
    requires s3.reqs == [CopyRequest(0, 0, 0, fn, arg)]
    ensures Enabled(s3, PollStep) && FirstCallback(Poll(s3), fn, arg)
  {
    hide Marked, Engine, Fired, AllEntries, NonEmpty, Active, RingSpace, CompletedAddr, Halted, OpOf;
    Indices(s3);
    NothingNewIff(s3);
    AddrInRing(s3.cfg, 0);
    ModSmall(0, s3.cfg.size);
    ModSmall(1, U32);
    ModSmall(0, U32);
    assert Holds(s3, 0);
  }

  lemma PreludeSteps(s0: Chan, s1: Chan, s3: Chan, fn: nat, arg: nat)
    requires Shape(s0) && Enabled(s0, BuildStep(CopyRequest(0, 0, 0, fn, arg)))
    requires s1 == Build(s0, CopyRequest(0, 0, 0, fn, arg)).0 && Shape(s1) && s1.pc.Idle?
    requires Shape(Flush(s1)) && Enabled(Flush(s1), DeviceStep(1)) && s3 == Device(Flush(s1), 1)
    requires Enabled(s3, PollStep)
    ensures Runs(s0, Prelude(fn, arg)) && After(s0, Prelude(fn, arg)) == Poll(s3)
  {
    hide Build, Flush, Device, Poll, Enabled;
    assert Next(s0, BuildStep(CopyRequest(0, 0, 0, fn, arg))) == s1;
    assert Enabled(s1, FlushStep) && Next(s1, FlushStep) == Flush(s1) by { FlushAllowed(s1); }
    assert Next(Flush(s1), DeviceStep(1)) == s3;
    var all := Prelude(fn, arg);
    RunsCons(s3, PollStep, []);
    RunsCons(Flush(s1), DeviceStep(1), [PollStep]);
    RunsCons(s1, FlushStep, [DeviceStep(1), PollStep]);
    RunsCons(s0, all[0], [FlushStep, DeviceStep(1), PollStep]);
    assert [PollStep] == [PollStep] + [] && [DeviceStep(1), PollStep] == [DeviceStep(1)] + [PollStep];
    assert [FlushStep, DeviceStep(1), PollStep] == [FlushStep] + [DeviceStep(1), PollStep];
    assert all == [all[0]] + [FlushStep, DeviceStep(1), PollStep];
  }

  lemma RunsCons(s: Chan, step: Step, rest: seq<Step>)
    requires Shape(s) && Enabled(s, step) && Runs(Next(s, step), rest)
    ensures Runs(s, [step] + rest) && After(s, [step] + rest) == After(Next(s, step), rest)
  {
    hide Enabled, Next;
    assert ([step] + rest)[1..] == rest;
  }

  lemma FlushAllowed(s: Chan)
    requires s.pc.Idle?
    ensures Enabled(s, FlushStep)
  {
  }

  /** From every fresh channel: the callback of the first request calls process_events.  It then runs twice for one
      request, the outer call steps over the completed descriptor, and the ring looks full from then on. */
  lemma CallbackRunsTwice(s0: Chan, fn: nat, arg: nat)
    requires Fresh(s0) && fn != 0
    ensures NestShape(Start(s0))
    ensures var moves := BaseMoves(Prelude(fn, arg)) + (Twice() + Leave());
      && Moves(Start(s0), moves)
      && var r := End(Start(s0), moves).chan;
      && r.pc.Idle? && r.fired == [Call(fn, arg), Call(fn, arg)] && |r.reqs| == 1
      && r.retired == 2 > r.completed == |r.log| == 1
      && r.head != r.tail && RingSpace(r) == 0
  {
    hide *;
    PreludeRuns(s0, fn, arg);
    StartShape(s0);
    var s := After(s0, Prelude(fn, arg));
    PreludeIsPlain(fn, arg);
    Lift(s0, Prelude(fn, arg));
    RunsTwiceFrom(s, fn, arg);
    MovesConcat(Start(s0), BaseMoves(Prelude(fn, arg)), Twice() + Leave());
  }

  lemma StartShape(s: Chan)
    requires Fresh(s)
    ensures Shape(s) && NestShape(Start(s))
  {
  }

  function BaseMoves(steps: seq<Step>): seq<Move> {
    if steps == [] then [] else [Base(steps[0])] + BaseMoves(steps[1..])
  }

  /** Steps outside callbacks. */
  predicate Outside(steps: seq<Step>) {
    forall i: nat :: i < |steps| ==> !steps[i].CallbackStep? && !steps[i].ReturnStep?
  }

  lemma PreludeIsPlain(fn: nat, arg: nat)
    ensures Outside(Prelude(fn, arg))
  {
  }

  lemma {:induction false} Lift(s: Chan, steps: seq<Step>)
    requires Shape(s) && Runs(s, steps) && Outside(steps)
    ensures NestShape(Start(s)) && Moves(Start(s), BaseMoves(steps))
    ensures End(Start(s), BaseMoves(steps)) == Start(After(s, steps))
    decreases |steps|
  {
    hide Next, Enabled;
    if steps != [] {
      assert Moved(Start(s), Base(steps[0])) == Start(Next(s, steps[0]));
      Lift(Next(s, steps[0]), steps[1..]);
      MovesCons(Start(s), Base(steps[0]), BaseMoves(steps[1..]));
    }
  }

  /** The callback and a call from inside it, from the first callback on. */
  lemma RunsTwiceFrom(s: Chan, fn: nat, arg: nat)
    requires FirstCallback(s, fn, arg) && fn != 0
    ensures NestShape(Start(s)) && Moves(Start(s), Twice()) && Moves(Start(s), Twice() + Leave())
    ensures End(Start(s), Twice()).chan.fired == [Call(fn, arg), Call(fn, arg)]
    ensures var r := End(Start(s), Twice() + Leave()).chan;
      && r.pc.Idle? && r.fired == [Call(fn, arg), Call(fn, arg)] && |r.reqs| == 1
      && r.retired == 2 > r.completed == |r.log| == 1
      && r.head != r.tail && RingSpace(r) == 0
  {
    hide Inside1, Inside2, Inside3, Inside4, Inside5, RingSpace, CanMove, Moved, Config.Good, Config.Addr;
    FirstMove(s, fn, arg);
    SecondMove(s, fn, arg);
    ThirdMove(s, fn, arg);
    FourthMove(s, fn, arg);
    FifthMove(s, fn, arg);
    LastState(s, fn, arg);
    ThreeMoves(Start(s), Base(CallbackStep), Reenter, Base(CallbackStep));
    TwoMoves(Inside3(s, fn, arg), Base(ReturnStep), Base(ReturnStep));
    MovesConcat(Start(s), Twice(), Leave());
  }

  /** The states of that run: in the callback, */
  function Inside1(s: Chan, fn: nat, arg: nat): Nest {
    Nest(s.(pc := Calling(s.cfg.Addr(0)), fired := [Call(fn, arg)]), s.cfg.Addr(0), fn, [])
  }

  /** in the inner call, */
  function Inside2(s: Chan, fn: nat, arg: nat): Nest {
    var a := s.cfg.Addr(0);
    Nest(Inside1(s, fn, arg).chan.(pc := Retiring(a), goal := 1), a, fn, [Outer(a, fn, a, 1)])
  }

  /** in the callback once more, */
  function Inside3(s: Chan, fn: nat, arg: nat): Nest {
    var a, c := s.cfg.Addr(0), Call(fn, arg);
    Nest(Inside2(s, fn, arg).chan.(pc := Calling(a), fired := [c, c]), a, fn, [Outer(a, fn, a, 1)])
  }

  /** back in the outer callback, */
  function Inside4(s: Chan, fn: nat, arg: nat): Nest {
    var a := s.cfg.Addr(0);
    Nest(Inside3(s, fn, arg).chan.(tail := 1, retired := 1, lastSeen := a, pc := Calling(a), goal := 1), a, fn, [])
  }

  /** and outside again. */
  function Inside5(s: Chan, fn: nat, arg: nat): Nest {
    var a := s.cfg.Addr(0);
    Nest(Inside4(s, fn, arg).chan.(tail := 2, retired := 2, lastSeen := a, pc := Idle), a, fn, [])
  }

  lemma FirstMove(s: Chan, fn: nat, arg: nat)
    requires FirstCallback(s, fn, arg) && fn != 0
    ensures NestShape(Start(s)) && CanMove(Start(s), Base(CallbackStep))
    ensures Moved(Start(s), Base(CallbackStep)) == Inside1(s, fn, arg)
  {
    hide Config.Good, Config.Addr, CompletedAddr, Halted;
  }

  lemma SecondMove(s: Chan, fn: nat, arg: nat)
    requires FirstCallback(s, fn, arg) && fn != 0
    ensures NestShape(Inside1(s, fn, arg)) && CanMove(Inside1(s, fn, arg), Reenter)
    ensures Moved(Inside1(s, fn, arg), Reenter) == Inside2(s, fn, arg)
  {
    hide Config.Good, Config.Addr, CompletedAddr, Halted;
  }

  lemma ThirdMove(s: Chan, fn: nat, arg: nat)
    requires FirstCallback(s, fn, arg) && fn != 0
    ensures NestShape(Inside2(s, fn, arg)) && CanMove(Inside2(s, fn, arg), Base(CallbackStep))
    ensures Moved(Inside2(s, fn, arg), Base(CallbackStep)) == Inside3(s, fn, arg)
  {
    hide Config.Good, Config.Addr, CompletedAddr, Halted;
  }

  lemma FourthMove(s: Chan, fn: nat, arg: nat)
    requires FirstCallback(s, fn, arg) && fn != 0
    ensures NestShape(Inside3(s, fn, arg)) && CanMove(Inside3(s, fn, arg), Base(ReturnStep))
    ensures Moved(Inside3(s, fn, arg), Base(ReturnStep)) == Inside4(s, fn, arg)
  {
    hide Config.Good, Config.Addr, CompletedAddr, Halted;
  }

  lemma FifthMove(s: Chan, fn: nat, arg: nat)
    requires FirstCallback(s, fn, arg) && fn != 0
    ensures NestShape(Inside4(s, fn, arg)) && CanMove(Inside4(s, fn, arg), Base(ReturnStep))
    ensures Moved(Inside4(s, fn, arg), Base(ReturnStep)) == Inside5(s, fn, arg)
  {
    hide Config.Good, Config.Addr, CompletedAddr, Halted;
  }

  lemma LastState(s: Chan, fn: nat, arg: nat)
    requires FirstCallback(s, fn, arg)
    ensures Inside3(s, fn, arg).chan.fired == [Call(fn, arg), Call(fn, arg)]
    ensures var r := Inside5(s, fn, arg).chan;
      && r.pc.Idle? && r.fired == [Call(fn, arg), Call(fn, arg)] && |r.reqs| == 1
      && r.retired == 2 > r.completed == |r.log| == 1
      && r.head != r.tail && RingSpace(r) == 0
  {
    hide RingSpace, Config.Addr, CompletedAddr, Halted;
    LooksFull(Inside5(s, fn, arg).chan);
  }

  /** With tail one beyond head, the masked difference is the whole ring. */
  lemma LooksFull(s: Chan)
    requires s.cfg.Good() && s.head == 1 && s.tail == 2
    ensures RingSpace(s) == 0
  {
    LinkIndex(s.cfg, 0);
  }

  lemma ThreeMoves(n: Nest, a: Move, b: Move, c: Move)
    requires NestShape(n) && CanMove(n, a) && CanMove(Moved(n, a), b) && CanMove(Moved(Moved(n, a), b), c)
    ensures Moves(n, [a, b, c]) && End(n, [a, b, c]) == Moved(Moved(Moved(n, a), b), c)
  {
    hide CanMove, Moved;
    TwoMoves(Moved(n, a), b, c);
    MovesCons(n, a, [b, c]);
    assert [a, b, c] == [a] + [b, c];
  }

  lemma TwoMoves(n: Nest, a: Move, b: Move)
    requires NestShape(n) && CanMove(n, a) && CanMove(Moved(n, a), b)
    ensures Moves(n, [a, b]) && End(n, [a, b]) == Moved(Moved(n, a), b)
  {
    hide CanMove, Moved;
    MovesCons(Moved(n, a), b, []);
    MovesCons(n, a, [b]);
    assert [a, b] == [a] + [b] && [b] + [] == [b];
  }

  lemma MovesCons(n: Nest, move: Move, rest: seq<Move>)
    requires NestShape(n) && CanMove(n, move) && Moves(Moved(n, move), rest)
    ensures Moves(n, [move] + rest) && End(n, [move] + rest) == End(Moved(n, move), rest)
  {
    hide CanMove, Moved;
    assert ([move] + rest)[1..] == rest;
  }

  lemma {:induction false} MovesConcat(n: Nest, a: seq<Move>, b: seq<Move>)
    requires NestShape(n) && Moves(n, a) && Moves(End(n, a), b)
    ensures Moves(n, a + b) && End(n, a + b) == End(End(n, a), b)
    decreases |a|
  {
    hide Moved, CanMove;
    if a == [] {
      assert a + b == b;
    } else {
      assert (a + b)[1..] == a[1..] + b;
      MovesConcat(Moved(n, a[0]), a[1..], b);
    }
  }

  /** The callback, a call from inside it, and the callback of that call. */
  function Twice(): seq<Move> { [Base(CallbackStep), Reenter, Base(CallbackStep)] }

  /** The inner call and then the outer one leave. */
  function Leave(): seq<Move> { [Base(ReturnStep), Base(ReturnStep)] }
}
