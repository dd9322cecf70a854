/** What the engine does in the middle of a build or of a flush is as good as done after it. */
module IoatInterleaving {
  import opened Words
  import opened Dma
  import opened IoatModel
  import opened IoatInvariant
  import opened IoatTheorems

  /** A stretch of a run in which only the engine acts. */
  predicate EngineOnly(steps: seq<Step>) {
    forall i: nat :: i < |steps| ==> steps[i].DeviceStep?
  }

  // ---------------------------------------------------------------- one engine step

  /** The engine leaves the driver's fields alone. */
  lemma DeviceFrame(s: Chan, status: nat)
    requires Shape(s)
    ensures var r := Device(s, status);
      && Shape(r) && r == s.(mem := r.mem, cur := r.cur, count := r.count, executed := r.executed,
                             comp := r.comp, completed := r.completed)
      && RingSpace(r) == RingSpace(s)
  {
    hide Exec, OpOf;
  }

  lemma PrepKeepsFetch(s: Chan, op: Op)
    requires Core(s) && RingSpace(s) >= 1 && s.executed < s.announced
    ensures Fetch(Prep(s, op), s.cur) == Fetch(s, s.cur)
  {
    FetchesNext(s);
    PrepCore(s, op);
    FetchesNext(Prep(s, op));
    PrepFrame(s, op, s.executed);
  }

  lemma PrepFetch(s: Chan, op: Op)
    requires Core(s) && RingSpace(s) >= 1 && s.count != s.dmacount
    ensures Shape(s) && Shape(Prep(s, op)) && Fetch(Prep(s, op), s.cur) == Fetch(s, s.cur)
  {
    hide Fetch, RingSpace, Prep, Live, Linked, Marked, Engine, Fired, Reported, Polling;
    PrepRest(s, op);
    PendingIff(s);
    PrepKeepsFetch(s, op);
  }

  lemma PrepCommutesWithDevice(s: Chan, op: Op, status: nat)
    requires Core(s) && RingSpace(s) >= 1 && s.count != s.dmacount
    ensures Shape(s) && Shape(Prep(s, op)) && Shape(Device(s, status))
    ensures Prep(s, op).count != Prep(s, op).dmacount
    ensures Device(Prep(s, op), status) == Prep(Device(s, status), op)
  {
    hide Core, Exec, OpOf, HwFor, Fetch, RingSpace, RingIndex;
    PrepFetch(s, op);
    RingIndexIs(s.cfg, s.head);
  }

  lemma {:induction false} IssueCommutesWithDevice(s: Chan, ops: seq<Op>, status: nat)
    requires Core(s) && s.count != s.dmacount && status < DESC_BYTES
    ensures Shape(s) && Shape(Device(s, status))
    ensures Issue(Device(s, status), ops) == (Device(Issue(s, ops).0, status), Issue(s, ops).1)
    decreases |ops|
  {
    DeviceFrame(s, status);
    if ops != [] && RingSpace(s) >= 1 {
      hide Core, Device, RingSpace, RingIndex, Prep;
      PrepCommutesWithDevice(s, ops[0], status);
      PrepCore(s, ops[0]);
      if |ops| > 1 { IssueCommutesWithDevice(Prep(s, ops[0]), ops[1..], status); }
    }
  }

  lemma AttachCommutesWithDevice(s: Chan, i: nat, req: Request, status: nat)
    requires Shape(s) && i < s.cfg.size && |s.log| > 0
    ensures |Device(s, status).log| > 0 && Attach(Device(s, status), i, req) == Device(Attach(s, i, req), status)
  {
    hide Exec, OpOf, HwFor;
  }

  lemma RollbackCommutesWithDevice(s: Chan, before: Chan, status: nat)
    requires Shape(s)
    ensures Rollback(Device(s, status), before) == Device(Rollback(s, before), status)
  {
    hide Exec, OpOf, HwFor;
  }

  function WithMark(d: HwDesc): HwDesc { d.(control := d.control.(completionUpdate := true)) }

  lemma FlushWrites(s: Chan)
    requires Core(s) && |s.log| > 0
    ensures Shape(s) && Flush(s).hw == s.hw[(|s.log| - 1) % s.cfg.size := WithMark(s.hw[(|s.log| - 1) % s.cfg.size])]
  {
    hide Live, Linked, Marked, Engine, Fired, Reported, Polling, Active, RingSpace, Config.Addr, Pow2;
    Indices(s);
  }

  /** The last descriptor, if the engine has been told of it and not executed it, is marked. */
  lemma LastIsMarked(s: Chan)
    requires Core(s) && s.executed < s.announced
    ensures Shape(s) && s.executed <= |s.log| - 1 < s.executed + s.cfg.size
    ensures s.executed == |s.log| - 1 ==>
      WithMark(s.hw[(|s.log| - 1) % s.cfg.size]) == s.hw[(|s.log| - 1) % s.cfg.size]
  {
    hide Live, Linked, Engine, Fired, Reported, Polling, Config.Addr, Config.Good;
  }

  /** The descriptor the engine is at is not the one that a flush marks, or is marked already. */
  lemma FlushSpares(s: Chan)
    requires Core(s) && s.executed < s.announced
    ensures Shape(s) && Shape(Flush(s)) && Flush(s).hw[s.executed % s.cfg.size] == s.hw[s.executed % s.cfg.size]
  {
    hide Core, Flush, WithMark;
    LastIsMarked(s);
    FlushWrites(s);
    FlushShape(s);
    ModDistinct(s.executed, |s.log| - 1, s.cfg.size);
  }

  lemma FlushKeepsFetch(s: Chan)
    requires Core(s) && s.count != s.dmacount
    ensures Shape(s) && Fetch(Flush(s), s.cur) == Fetch(s, s.cur)
    ensures Flush(s).count != Flush(s).dmacount
  {
    hide Live, Linked, Marked, Engine, Fired, Reported, Polling, Fetch, OpOf, RingIndex, Config.Addr;
    PendingIff(s);
    FlushCore(s);
    PendingIff(Flush(s));
    FetchesNext(s);
    FetchesNext(Flush(s));
    FlushSpares(s);
  }

  /** Marking the last descriptor again has no effect while the engine can reach it. */
  lemma FlushCommutesWithDevice(s: Chan, status: nat)
    requires Core(s) && s.count != s.dmacount
    ensures Shape(s) && Shape(Device(s, status))
    ensures Flush(s).count != Flush(s).dmacount
    ensures Device(Flush(s), status) == Flush(Device(s, status))
  {
    hide Core, Exec, OpOf, HwFor, Fetch, RingSpace;
    FlushKeepsFetch(s);
    DeviceFrame(s, status);
  }

  // ---------------------------------------------------------------- any number of engine steps

  lemma HeadIsDevice(s: Chan, steps: seq<Step>) returns (status: nat)
    requires Shape(s) && steps != [] && EngineOnly(steps)
    ensures steps[0] == DeviceStep(status) && EngineOnly(steps[1..])
    ensures Enabled(s, steps[0]) <==> s.count != s.dmacount && status < DESC_BYTES
    ensures Enabled(s, steps[0]) ==> Next(s, steps[0]) == Device(s, status)
  {
    hide Device;
    status := steps[0].status;
  }

  lemma RunsUnfold(s: Chan, steps: seq<Step>)
    requires Shape(s) && steps != []
    ensures Runs(s, steps) <==> Enabled(s, steps[0]) && Runs(Next(s, steps[0]), steps[1..])
    ensures Runs(s, steps) ==> After(s, steps) == After(Next(s, steps[0]), steps[1..])
  {
    hide Enabled, Next;
  }

  lemma RunsNothing(s: Chan, steps: seq<Step>)
    requires Shape(s) && steps == []
    ensures Runs(s, steps) && After(s, steps) == s
  {
  }

  /** The engine keeps what holds even between two descriptors, and the driver's fields. */
  lemma {:induction false} EngineKeeps(s: Chan, steps: seq<Step>)
    requires Core(s) && Shape(s) && EngineOnly(steps) && Runs(s, steps)
    ensures var r := After(s, steps);
      && Core(r) && Shape(r) && r == s.(mem := r.mem, cur := r.cur, count := r.count, executed := r.executed,
                                        comp := r.comp, completed := r.completed)
    decreases |steps|
  {
    hide *;
    if steps == [] {
      RunsNothing(s, steps);
    } else {
      var status := HeadIsDevice(s, steps);
      RunsUnfold(s, steps);
      DeviceFrame(s, status);
      DeviceCore(s, status);
      EngineKeeps(Device(s, status), steps[1..]);
    }
  }

  /** From any point inside a build, engine steps and the rest of the descriptors give the same state in either
      order. */
  lemma {:induction false} IssueCommutesWithEngine(s: Chan, ops: seq<Op>, steps: seq<Step>)
    requires Core(s) && Shape(s) && EngineOnly(steps) && Runs(s, steps)
    ensures Runs(Issue(s, ops).0, steps)
    ensures Issue(After(s, steps), ops) == (After(Issue(s, ops).0, steps), Issue(s, ops).1)
    decreases |steps|
  {
    hide *;
    var r := Issue(s, ops).0;
    if steps == [] {
      RunsNothing(s, steps);
      RunsNothing(r, steps);
    } else {
      var status := HeadIsDevice(s, steps);
      var same := HeadIsDevice(r, steps);
      RunsUnfold(s, steps);
      RunsUnfold(r, steps);
      IssueLeaves(s, ops);
      IssueCommutesWithDevice(s, ops, status);
      DeviceCore(s, status);
      IssueCommutesWithEngine(Device(s, status), ops, steps[1..]);
    }
  }

  lemma {:induction false} AttachCommutesWithEngine(s: Chan, i: nat, req: Request, steps: seq<Step>)
    requires Core(s) && Shape(s) && i < s.cfg.size && |s.log| > 0 && EngineOnly(steps) && Runs(s, steps)
    ensures Shape(Attach(s, i, req)) && Runs(Attach(s, i, req), steps) && |After(s, steps).log| > 0
    ensures Attach(After(s, steps), i, req) == After(Attach(s, i, req), steps)
    decreases |steps|
  {
    hide *;
    var r := Attach(s, i, req);
    AttachShape(s, i, req);
    if steps == [] {
      RunsNothing(s, steps);
      RunsNothing(r, steps);
    } else {
      var status := HeadIsDevice(s, steps);
      var same := HeadIsDevice(r, steps);
      RunsUnfold(s, steps);
      RunsUnfold(r, steps);
      DeviceFrame(s, status);
      DeviceCore(s, status);
      AttachCommutesWithDevice(s, i, req, status);
      AttachCommutesWithEngine(Device(s, status), i, req, steps[1..]);
    }
  }

  lemma AttachShape(s: Chan, i: nat, req: Request)
    requires Shape(s) && i < s.cfg.size && |s.log| > 0
    ensures var r := Attach(s, i, req);
      Shape(r) && r.cfg == s.cfg && r.count == s.count && r.dmacount == s.dmacount
  {
  }

  lemma {:induction false} RollbackCommutesWithEngine(s: Chan, before: Chan, steps: seq<Step>)
    requires Core(s) && Shape(s) && EngineOnly(steps) && Runs(s, steps)
    ensures Shape(Rollback(s, before)) && Runs(Rollback(s, before), steps)
    ensures Rollback(After(s, steps), before) == After(Rollback(s, before), steps)
    decreases |steps|
  {
    hide *;
    var r := Rollback(s, before);
    RollbackShape(s, before);
    if steps == [] {
      RunsNothing(s, steps);
      RunsNothing(r, steps);
    } else {
      var status := HeadIsDevice(s, steps);
      var same := HeadIsDevice(r, steps);
      RunsUnfold(s, steps);
      RunsUnfold(r, steps);
      DeviceFrame(s, status);
      DeviceCore(s, status);
      RollbackCommutesWithDevice(s, before, status);
      RollbackCommutesWithEngine(Device(s, status), before, steps[1..]);
    }
  }

  lemma RollbackShape(s: Chan, before: Chan)
    requires Shape(s)
    ensures var r := Rollback(s, before);
      Shape(r) && r.cfg == s.cfg && r.count == s.count && r.dmacount == s.dmacount
  {
  }

  // ---------------------------------------------------------------- inside a build

  /** The state in the middle of a build: some descriptors written. */
  function Written(s: Chan, ops: seq<Op>): (r: Chan)
    requires Shape(s)
    ensures Shape(r) && r.cfg == s.cfg
    decreases |ops|
  {
    if ops == [] then s else Written(Prep(s, ops[0]), ops[1..])
  }

  lemma {:induction false} IssueFrom(s: Chan, ops: seq<Op>, done: nat)
    requires Core(s) && Shape(s) && done < |ops| && done <= RingSpace(s)
    ensures Core(Written(s, ops[..done])) && Issue(Written(s, ops[..done]), ops[done..]) == Issue(s, ops)
    decreases done
  {
    hide Core, RingSpace, Prep, Issue;
    if done == 0 {
      assert ops[..done] == [] && ops[done..] == ops;
    } else {
      PrepCore(s, ops[0]);
      PrepSpace(s, ops[0]);
      PrepShape(s, ops[0]);
      IssueHead(s, ops);
      assert ops[..done][0] == ops[0] && ops[..done][1..] == ops[1..][..done - 1];
      assert ops[1..][done - 1..] == ops[done..];
      IssueFrom(Prep(s, ops[0]), ops[1..], done - 1);
    }
  }

  lemma IssueHead(s: Chan, ops: seq<Op>)
    requires Shape(s) && |ops| > 1 && RingSpace(s) >= 1
    ensures Shape(Prep(s, ops[0])) && Issue(s, ops) == Issue(Prep(s, ops[0]), ops[1..])
  {
    hide RingSpace;
  }

  lemma PrepShape(s: Chan, op: Op)
    requires Shape(s)
    ensures Shape(Prep(s, op)) && Prep(s, op).cfg == s.cfg
  {
  }

  /** The end of a build: the callback, or the way back. */
  function Finish(before: Chan, req: Request, issued: Chan, last: Option<nat>): (Chan, int)
    requires Shape(issued) && (last.Some? ==> last.value < issued.cfg.size && |issued.log| > 0)
  {
    if last.Some? then (Attach(issued, last.value, req), 0) else (Rollback(issued, before), -ENOMEM)
  }

  /** Finishing a build after the engine has moved on gives the built state with the engine moved on. */
  lemma FinishCommutesWithEngine(s: Chan, req: Request, steps: seq<Step>)
    requires Core(s) && Shape(s) && (req.FillRequest? ==> s.cfg.fillSupported) && EngineOnly(steps)
    requires Runs(Issue(s, RequestOps(req, s.cfg.maxXfer)).0, steps)
    ensures var (issued, last) := Issue(s, RequestOps(req, s.cfg.maxXfer));
      && var r := After(issued, steps);
      && (last.Some? ==> last.value < r.cfg.size && |r.log| > 0) && Runs(Build(s, req).0, steps)
      && Finish(s, req, r, last) == (After(Build(s, req).0, steps), Build(s, req).1)
  {
    hide Core, Issue, RequestOps, Attach, Rollback, Runs, After, Shape;
    var (issued, last) := Issue(s, RequestOps(req, s.cfg.maxXfer));
    IssueCore(s, RequestOps(req, s.cfg.maxXfer));
    EngineKeeps(issued, steps);
    if last.Some? {
      AttachCommutesWithEngine(issued, last.value, req, steps);
    } else {
      RollbackCommutesWithEngine(issued, s, steps);
    }
  }

  /** The engine may run after any number of descriptors of a build: the outcome is that of the build at once with the
      engine running afterwards, whether it succeeds or is rolled back. */
  lemma BuildCommutesWithEngine(s: Chan, req: Request, done: nat, steps: seq<Step>)
    requires Reachable(s) && (req.FillRequest? ==> s.cfg.fillSupported)
    requires done < |RequestOps(req, s.cfg.maxXfer)| && done <= RingSpace(s)
    requires EngineOnly(steps) && Runs(Written(s, RequestOps(req, s.cfg.maxXfer)[..done]), steps)
    ensures var ops := RequestOps(req, s.cfg.maxXfer);
      && var (r, last) := Issue(After(Written(s, ops[..done]), steps), ops[done..]);
      && Runs(Build(s, req).0, steps)
      && Finish(s, req, r, last) == (After(Build(s, req).0, steps), Build(s, req).1)
  {
    hide *;
    ReachableInv(s);
    Facts(s);
    var ops := RequestOps(req, s.cfg.maxXfer);
    IssueFrom(s, ops, done);
    IssueCommutesWithEngine(Written(s, ops[..done]), ops[done..], steps);
    FinishCommutesWithEngine(s, req, steps);
  }

  // ---------------------------------------------------------------- inside a flush

  /** The first half of a flush: ask for a completion at the last descriptor. */
  function Mark(s: Chan): (r: Chan)
    requires Shape(s)
    ensures Shape(r) && r.cfg == s.cfg
  {
    var i := RingIndex(s.cfg, Sub32(s.head, 1));
    var d := s.hw[i];
    s.(hw := s.hw[i := d.(control := d.control.(completionUpdate := true))], asked := s.asked + {|s.log|})
  }

  /** The second half: the doorbell. */
  function Ring(s: Chan): Chan {
    s.(dmacount := s.head % U16, announced := |s.log|)
  }

  lemma FlushInHalves(s: Chan)
    requires Shape(s)
    ensures Flush(s) == Ring(Mark(s)) && Flush(Mark(s)) == Flush(s)
  {
  }

  lemma MarkTwice(s: Chan, x: Chan)
    requires Shape(s) && Shape(x) && x.cfg == s.cfg && x.head == s.head && x.hw == Mark(s).hw
    requires |x.log| in x.asked
    ensures Flush(x) == Ring(x)
  {
  }

  lemma MarkLive(s: Chan)
    requires Core(s)
    ensures Live(Mark(s)) && Linked(Mark(s)) && Marked(Mark(s))
  {
    hide Engine, Fired, Reported, Polling, Active, RingSpace;
    var r := Mark(s);
    Indices(s);
    forall i: nat | r.retired <= i < |r.log| ensures Holds(r, i) {
      assert Holds(s, i);
      ModDistinct(i, |s.log| - 1, s.cfg.size);
    }
  }

  lemma MarkRest(s: Chan)
    requires Core(s)
    ensures var r := Mark(s); Counters(r) && Reported(r) && Polling(r) && Engine(r) && Fired(r)
  {
    hide Live, Linked, Marked, ExecAll, Calls, Ops, RingIndex, Sub32, CompletedAddr, Config.Addr, Config.Good;
  }

  lemma MarkCore(s: Chan)
    requires Core(s)
    ensures Shape(s) && Core(Mark(s))
  {
    hide Live, Linked, Marked, Engine, Fired, Reported, Polling, Counters, Mark;
    MarkLive(s);
    MarkRest(s);
  }

  lemma {:induction false} FlushAfterEngine(s: Chan, steps: seq<Step>)
    requires Core(s) && Shape(s) && EngineOnly(steps) && Runs(s, steps)
    ensures Shape(Flush(s)) && Runs(Flush(s), steps) && Flush(After(s, steps)) == After(Flush(s), steps)
    decreases |steps|
  {
    hide *;
    FlushShape(s);
    if steps == [] {
      RunsNothing(s, steps);
      RunsNothing(Flush(s), steps);
    } else {
      var status := HeadIsDevice(s, steps);
      var same := HeadIsDevice(Flush(s), steps);
      RunsUnfold(s, steps);
      RunsUnfold(Flush(s), steps);
      FlushCommutesWithDevice(s, status);
      DeviceCore(s, status);
      FlushAfterEngine(Device(s, status), steps[1..]);
    }
  }

  lemma FlushShape(s: Chan)
    requires Shape(s)
    ensures Shape(Flush(s)) && Flush(s).cfg == s.cfg
  {
  }

  /** The engine may run between the two halves of a flush: the outcome is that of the flush at once with the engine
      running afterwards. */
  lemma FlushCommutesWithEngine(s: Chan, steps: seq<Step>)
    requires Core(s) && Shape(s) && EngineOnly(steps) && Runs(Mark(s), steps)
    ensures Shape(Flush(s)) && Runs(Flush(s), steps)
    ensures Ring(After(Mark(s), steps)) == After(Flush(s), steps)
  {
    hide *;
    MarkCore(s);
    FlushInHalves(s);
    FlushAfterEngine(Mark(s), steps);
    EngineKeeps(Mark(s), steps);
    MarkFrame(s);
    MarkTwice(s, After(Mark(s), steps));
  }

  lemma MarkFrame(s: Chan)
    requires Shape(s)
    ensures Mark(s).head == s.head && |Mark(s).log| in Mark(s).asked
  {
  }
}
