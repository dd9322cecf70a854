/** What the controller does in the middle of a submission or of a poll is as good as done before it. */
module NvmeInterleaving {
  import opened Words
  import opened Prp
  import opened NvmeModel
  import opened NvmeInvariant
  import opened NvmeTheorems

  /** A stretch of a run in which only the controller acts. */
  predicate ControllerOnly(steps: seq<Step>) {
    forall i: nat :: i < |steps| ==> steps[i].FetchStep? || steps[i].PostStep?
  }

  // ---------------------------------------------------------------- the parts of a submission

  /** What one submission is about: the request slot found and the new slot counter, and what is submitted. */
  datatype Plan = Plan(slot: nat, next: nat, sub: Sub)

  predicate Fits(s: Qp, c: Plan) {
    Shape(s) && c.slot < s.cfg.Slots() && c.slot * s.cfg.Room() + |c.sub.list| <= |s.prp|
  }

  /** A submission writes five times: the claim of the request, the page list, the callback in the request (and the
      history), the command at the tail of the queue, and the doorbell. */
  function Part(s: Qp, c: Plan, k: nat): (r: Qp)
    requires Fits(s, c)
    ensures Fits(r, c) && r.cfg == s.cfg
  {
    match k
    case 0 => s.(reqs := s.reqs[c.slot := s.reqs[c.slot].(isUsed := true)], reqNext := c.next)
    case 1 => s.(prp := WriteList(s.prp, c.slot * s.cfg.Room(), c.sub.list))
    case 2 => s.(reqs := s.reqs[c.slot := s.reqs[c.slot].(cb := c.sub.cb, arg := c.sub.arg)],
                 owner := s.owner[c.slot := |s.subs|], subs := s.subs + [c.sub])
    case 3 => s.(sq := s.sq[s.sqTail := c.sub.cmd], sqTail := (s.sqTail + 1) % s.cfg.q, needKick := s.needKick + 1)
    case _ => s.(sqDoorbell := s.sqTail, inflight := s.inflight + s.needKick, needKick := 0)
  }

  /** The state after the first n parts. */
  function Begun(s: Qp, c: Plan, n: nat): (r: Qp)
    requires Fits(s, c)
    ensures Fits(r, c) && r.cfg == s.cfg
  {
    if n == 0 then s else Part(Begun(s, c, n - 1), c, n - 1)
  }

  /** The parts from n on. */
  function Finished(s: Qp, c: Plan, n: nat): (r: Qp)
    requires Fits(s, c) && n <= 5
    ensures Fits(r, c) && r.cfg == s.cfg
    decreases 5 - n
  {
    if n == 5 then s else Finished(Part(s, c, n), c, n + 1)
  }

  lemma BegunNext(s: Qp, c: Plan, n: nat)
    requires Fits(s, c)
    ensures Begun(s, c, 0) == s && Begun(s, c, n + 1) == Part(Begun(s, c, n), c, n)
  {
    hide Part, Fits;
  }

  /** All five parts make a submission. */
  lemma PartsMakeSubmit(s: Qp, c: Plan)
    requires Fits(s, c)
    ensures Begun(s, c, 5) == Submit(s, c.slot, c.next, c.sub)
  {
    hide WriteList, Config.Room, Begun, Part, Claim, Enqueue, Fits;
    BegunNext(s, c, 3);
    BegunNext(s, c, 4);
    ClaimInThree(s, c);
    QueueInTwo(Begun(s, c, 3), c);
    FitsShape(s, c);
  }

  lemma ClaimInThree(s: Qp, c: Plan)
    requires Fits(s, c)
    ensures Begun(s, c, 3)
         == Claim(s, c.slot, c.next, c.sub).(prp := WriteList(s.prp, c.slot * s.cfg.Room(), c.sub.list))
  {
    hide WriteList, Config.Room, Config.Good, Begun;
    BegunNext(s, c, 0);
    BegunNext(s, c, 1);
    BegunNext(s, c, 2);
  }

  lemma QueueInTwo(s: Qp, c: Plan)
    requires Fits(s, c)
    ensures Part(Part(s, c, 3), c, 4) == Enqueue(s, c.sub.cmd)
  {
    hide Config.Room;
  }

  lemma {:induction false} FinishedFromBegun(s: Qp, c: Plan, n: nat)
    requires Fits(s, c) && n <= 5
    ensures Finished(Begun(s, c, n), c, n) == Begun(s, c, 5)
    decreases 5 - n
  {
    hide Part, Fits;
    if n < 5 { FinishedFromBegun(s, c, n + 1); }
  }

  /** A controller step commutes with every part before the doorbell, as long as the controller does not fetch from the
      slot being written. */
  lemma PartCommutes(s: Qp, c: Plan, k: nat, step: Step)
    requires Fits(s, c) && k < 4 && (step.FetchStep? || step.PostStep?)
    requires step.FetchStep? && k == 3 && s.devHead != s.sqDoorbell ==> s.devHead != s.sqTail
    ensures Enabled(Part(s, c, k), step) <==> Enabled(s, step)
    ensures Enabled(s, step) ==>
      Fits(Next(s, step), c) && Next(Part(s, c, k), step) == Part(Next(s, step), c, k)
  {
    hide Part, Fits, Fetch, PostCqe;
    FitsKept(s, c, step);
    FitsShape(s, c);
    match step
    case FetchStep => PartCommutesWithFetch(s, c, k);
    case PostStep(j, code) => PartCommutesWithPost(s, c, k, j, code);
  }

  lemma PartCommutesWithFetch(s: Qp, c: Plan, k: nat)
    requires Fits(s, c) && k < 4
    requires k == 3 && s.devHead != s.sqDoorbell ==> s.devHead != s.sqTail
    ensures var p := Part(s, c, k);
      && (p.devHead != p.sqDoorbell <==> s.devHead != s.sqDoorbell)
      && (s.devHead != s.sqDoorbell ==> Fits(Fetch(s), c) && Fetch(p) == Part(Fetch(s), c, k))
  {
    hide WriteList, Config.Room, Config.Good;
  }

  lemma PartCommutesWithPost(s: Qp, c: Plan, k: nat, j: nat, code: nat)
    requires Fits(s, c) && k < 4
    ensures var p := Part(s, c, k);
      && (j in p.exec <==> j in s.exec)
      && (j in s.exec ==> Fits(PostCqe(s, j, code), c) && PostCqe(p, j, code) == Part(PostCqe(s, j, code), c, k))
  {
    hide WriteList, Config.Room, Config.Good, Flip, Shape;
    FitsShape(s, c);
    if j in s.exec { PostShape(s, j, code); }
  }

  lemma PostShape(s: Qp, j: nat, code: nat)
    requires Shape(s) && j in s.exec
    ensures Shape(PostCqe(s, j, code))
  {
    hide Config.Room, Flip;
  }

  lemma {:induction false} TailUntilQueued(s: Qp, c: Plan, n: nat)
    requires Fits(s, c) && n <= 3
    ensures var r := Begun(s, c, n); r.sqTail == s.sqTail && r.sqDoorbell == s.sqDoorbell && r.devHead == s.devHead
  {
    hide WriteList, Config.Room;
    if n > 0 { TailUntilQueued(s, c, n - 1); }
  }

  lemma {:induction false} BegunCommutes(s: Qp, c: Plan, n: nat, step: Step)
    requires Fits(s, c) && n <= 4 && (step.FetchStep? || step.PostStep?) && s.sqTail == s.sqDoorbell
    ensures Enabled(Begun(s, c, n), step) <==> Enabled(s, step)
    ensures Enabled(s, step) ==> Fits(Next(s, step), c) && Next(Begun(s, c, n), step) == Begun(Next(s, step), c, n)
  {
    hide Part, Enabled, Next;
    if n == 0 {
      FitsKept(s, c, step);
    } else {
      BegunCommutes(s, c, n - 1, step);
      TailUntilQueued(s, c, n - 1);
      PartCommutes(Begun(s, c, n - 1), c, n - 1, step);
    }
  }

  lemma FitsKept(s: Qp, c: Plan, step: Step)
    requires Fits(s, c) && (step.FetchStep? || step.PostStep?)
    ensures Enabled(s, step) ==> Fits(Next(s, step), c)
  {
    hide Config.Room, Flip;
  }

  // ---------------------------------------------------------------- the controller in the middle

  lemma RunsUnfold(s: Qp, steps: seq<Step>)
    requires Shape(s) && steps != []
    ensures Runs(s, steps) <==> Enabled(s, steps[0]) && Runs(Next(s, steps[0]), steps[1..])
    ensures Runs(s, steps) ==> After(s, steps) == After(Next(s, steps[0]), steps[1..])
  {
    hide Enabled, Next;
  }

  lemma RunsNothing(s: Qp, steps: seq<Step>)
    requires Shape(s) && steps == []
    ensures Runs(s, steps) && After(s, steps) == s
  {
  }

  lemma HeadIsController(steps: seq<Step>)
    requires steps != [] && ControllerOnly(steps)
    ensures (steps[0].FetchStep? || steps[0].PostStep?) && ControllerOnly(steps[1..])
  {
  }

  /** The doorbell shows the tail, in every state with the invariant and until the queue is written. */
  lemma DoorbellIsTail(s: Qp)
    requires Inv(s)
    ensures Shape(s) && s.sqDoorbell == s.sqTail
  {
    hide Census, CidsValid, SqHolds, Posts, CqHolds, Calls, Owned, Lists, Fires;
  }

  lemma {:induction false} ControllerInside(s: Qp, c: Plan, n: nat, steps: seq<Step>)
    requires Inv(s) && Fits(s, c) && n <= 4 && ControllerOnly(steps)
    requires Shape(Begun(s, c, n)) && Runs(Begun(s, c, n), steps)
    ensures Shape(s) && Runs(s, steps) && Fits(After(s, steps), c)
    ensures After(Begun(s, c, n), steps) == Begun(After(s, steps), c, n)
    decreases |steps|
  {
    hide *;
    var b := Begun(s, c, n);
    DoorbellIsTail(s);
    if steps == [] {
      RunsNothing(s, steps);
      RunsNothing(b, steps);
    } else {
      HeadIsController(steps);
      RunsUnfold(s, steps);
      RunsUnfold(b, steps);
      BegunCommutes(s, c, n, steps[0]);
      NextInv(s, steps[0]);
      ControllerInside(Next(s, steps[0]), c, n, steps[1..]);
    }
  }

  /** What a submission claims and submits. */
  function PlanOf(s: Qp, io: Io): Plan
    requires Shape(s) && s.cfg.Good() && HasFree(s) && IovAccepted(s.cfg, io.iov)
  {
    var (found, next) := Scan(s.reqs, s.reqNext, s.cfg.Slots());
    Plan(found.value, next, IoSub(s.cfg, io, found.value, s.reqs[found.value].cid))
  }

  lemma PlanFits(s: Qp, io: Io)
    requires Shape(s) && s.cfg.Good() && HasFree(s) && IovAccepted(s.cfg, io.iov)
    ensures Fits(s, PlanOf(s, io))
    ensures var c := PlanOf(s, io); SubmitIo(s, io) == Submit(s, c.slot, c.next, c.sub)
  {
    hide Submit, MakeCmd;
    ListInPage(s.cfg, Scan(s.reqs, s.reqNext, s.cfg.Slots()).0.value, io.iov);
  }

  /** The controller leaves the request table, and with it the claim, alone. */
  lemma {:induction false} PlanKept(s: Qp, io: Io, steps: seq<Step>)
    requires Shape(s) && s.cfg.Good() && HasFree(s) && IovAccepted(s.cfg, io.iov)
    requires ControllerOnly(steps) && Runs(s, steps)
    ensures var r := After(s, steps);
      r.cfg == s.cfg && HasFree(r) && PlanOf(r, io) == PlanOf(s, io)
    decreases |steps|
  {
    hide Runs, After, PlanOf, HasFree, IovAccepted, Config.Good, Enabled, Next, ControllerOnly;
    if steps == [] {
      RunsNothing(s, steps);
    } else {
      HeadIsController(steps);
      RunsUnfold(s, steps);
      PlanKeptOnce(s, io, steps[0]);
      PlanKept(Next(s, steps[0]), io, steps[1..]);
    }
  }

  lemma PlanKeptOnce(s: Qp, io: Io, step: Step)
    requires Shape(s) && s.cfg.Good() && HasFree(s) && IovAccepted(s.cfg, io.iov)
    requires Enabled(s, step) && (step.FetchStep? || step.PostStep?)
    ensures var r := Next(s, step);
      r.cfg == s.cfg && HasFree(r) && PlanOf(r, io) == PlanOf(s, io)
  {
    hide Scan, IoSub, IovAccepted, Config.Room, Flip;
  }

  /** A submission is atomic for the controller.  Wherever the controller acts inside it, between the claim of the
      request, the writing of the page list, of the callback and of the command, and the ringing of the doorbell, the
      outcome is that of a submission made at once after those steps. */
  lemma SubmitIsAtomic(s: Qp, io: Io, n: nat, steps: seq<Step>)
    requires Reachable(s) && Enabled(s, SubmitStep(io)) && n <= 4 && ControllerOnly(steps)
    requires Fits(s, PlanOf(s, io)) && Runs(Begun(s, PlanOf(s, io), n), steps)
    ensures Runs(s, steps) && HasFree(After(s, steps)) && Fits(After(Begun(s, PlanOf(s, io), n), steps), PlanOf(s, io))
    ensures Finished(After(Begun(s, PlanOf(s, io), n), steps), PlanOf(s, io), n) == SubmitIo(After(s, steps), io)
  {
    hide *;
    ReachableInv(s);
    SubmitAllowed(s, io);
    var c := PlanOf(s, io);
    FitsShape(s, c);
    FitsShape(Begun(s, c, n), c);
    ControllerInside(s, c, n, steps);
    PlanKept(s, io, steps);
    var r := After(s, steps);
    PlanFits(r, io);
    FinishedFromBegun(r, c, n);
    PartsMakeSubmit(r, c);
  }

  lemma FitsShape(s: Qp, c: Plan)
    requires Fits(s, c)
    ensures Shape(s)
  {
  }

  lemma SubmitAllowed(s: Qp, io: Io)
    requires Reachable(s) && Enabled(s, SubmitStep(io))
    ensures Shape(s) && s.cfg.Good() && HasFree(s) && IovAccepted(s.cfg, io.iov)
  {
    hide Trace, Scan;
  }

  // ---------------------------------------------------------------- polling

  /** A completion posted while an entry is unconsumed leaves that entry alone. */
  lemma PostCommutesWithPoll(s: Qp, k: nat, code: nat)
    requires Inv(s) && s.consumed < |s.posted| && k in s.exec
    ensures PostCqe(s, k, code).cq[s.cqHead] == s.cq[s.cqHead]
    ensures Poll(PostCqe(s, k, code)) == PostCqe(Poll(s), k, code) && k in Poll(s).exec
  {
    hide Poll, Inv, Flip, Shape;
    HeadIsNotTail(s, k);
    ShapeOfCq(s);
    PostShape(s, k, code);
    PollReads(s, PostCqe(s, k, code));
    PollReads(s, s);
  }

  /** What a poll writes depends only on the driver's fields and the entry at the head. */
  lemma PollReads(s: Qp, r: Qp)
    requires Shape(s) && Shape(r) && r.cfg == s.cfg && r.cqHead == s.cqHead && r.cqPhase == s.cqPhase
    requires r.cq[r.cqHead] == s.cq[s.cqHead] && r.reqs == s.reqs && r.inflight == s.inflight
    requires r.consumed == s.consumed && r.fired == s.fired && r.calling == s.calling
    ensures var p := Poll(s);
      Poll(r) == r.(cqHead := p.cqHead, cqPhase := p.cqPhase, consumed := p.consumed, inflight := p.inflight,
                    fired := p.fired, calling := p.calling)
  {
    hide Translate, Flip, Config.Room, Config.Good;
  }

  lemma HeadIsNotTail(s: Qp, k: nat)
    requires Inv(s) && s.consumed < |s.posted| && k in s.exec
    ensures Shape(s) && s.cqHead != s.devTail
  {
    hide SqHolds, CqHolds, Lists, Fires, Calls, Owned, CidsValid, CountUsed, Posts;
    RoomAlways(s);
    PostCounters(s, k, 0);
    ModDistinct(s.consumed, |s.posted|, s.cfg.q);
  }

  lemma FetchCommutesWithPoll(s: Qp)
    requires Shape(s) && s.devHead != s.sqDoorbell
    ensures Poll(s).devHead != Poll(s).sqDoorbell && Poll(Fetch(s)) == Fetch(Poll(s))
  {
    hide Poll, Shape;
    ShapeOfCq(s);
    PollReads(s, Fetch(s));
    PollReads(s, s);
  }

  lemma ShapeOfCq(s: Qp)
    requires Shape(s)
    ensures s.cqHead < |s.cq| == s.cfg.q == |s.sq| && s.devHead < |s.sq| && |s.reqs| == s.cfg.q - 1
    ensures Shape(Fetch(s))
  {
    hide Config.Room;
  }

  /** A poll is atomic for the controller.  It reads phase, CID and status of one entry in turn; from the moment the
      phase shows a new entry, nothing the controller does changes that entry, and the outcome is that of a poll made at
      once, with the controller's steps following it. */
  lemma {:induction false} PollIsAtomic(s: Qp, steps: seq<Step>)
    requires Reachable(s) && s.consumed < |s.posted| && ControllerOnly(steps) && Runs(s, steps)
    ensures After(s, steps).cq[s.cqHead] == s.cq[s.cqHead] && After(s, steps).cqHead == s.cqHead
    ensures Runs(Poll(s), steps) && Poll(After(s, steps)) == After(Poll(s), steps)
    decreases |steps|
  {
    hide *;
    ReachableInv(s);
    PollShape(s);
    if steps == [] {
      RunsNothing(s, steps);
      RunsNothing(Poll(s), steps);
    } else {
      HeadIsController(steps);
      RunsUnfold(s, steps);
      RunsUnfold(Poll(s), steps);
      ControllerStepAndPoll(s, steps[0]);
      ReachableStep(s, steps[0]);
      PollIsAtomic(Next(s, steps[0]), steps[1..]);
    }
  }

  lemma PollShape(s: Qp)
    requires Inv(s)
    ensures Shape(s) && Shape(Poll(s))
  {
    hide Poll;
  }

  lemma ControllerStepAndPoll(s: Qp, step: Step)
    requires Inv(s) && s.consumed < |s.posted| && (step.FetchStep? || step.PostStep?) && Enabled(s, step)
    ensures Enabled(Poll(s), step) && Next(Poll(s), step) == Poll(Next(s, step))
    ensures var r := Next(s, step);
      r.cqHead == s.cqHead && r.cq[s.cqHead] == s.cq[s.cqHead] && r.consumed == s.consumed && |r.posted| >= |s.posted|
  {
    hide Counters, Census, SqHolds, CqHolds, Lists, Fires, Calls, Owned, CidsValid, Posts, Poll;
    match step
    case FetchStep => FetchCommutesWithPoll(s);
    case PostStep(k, code) => PostCommutesWithPoll(s, k, code);
  }
}
