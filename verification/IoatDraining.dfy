/** From a flush to the end: the engine drains what a flush announces, and one call then retires it.  Register values,
    status codes and return codes are written as the hardware and the callers know them. */
module IoatDraining {
  import opened Words
  import opened Dma
  import opened IoatModel
  import opened IoatInvariant
  import opened IoatTheorems
  import opened IoatInterleaving

  // ---------------------------------------------------------------- descriptors

  /** What the driver writes into the slot at head: operation code 0 for a copy and 1 for a fill, a null descriptor of
      size 8 without addresses, no completion yet, and the link to the next slot unchanged. */
  lemma DescriptorWritten(s: Chan, op: Op)
    requires Reachable(s)
    ensures var next := s.cfg.Addr(|s.log| + 1);
      Prep(s, op).hw[|s.log| % s.cfg.size] ==
        match op
        case Null => HwDesc(8, Control(0x00, true, false), 0, 0, next)
        case Copy(dst, src, len) => HwDesc(len, Control(0x00, false, false), src, dst, next)
        case Fill(dst, pattern, len) => HwDesc(len, Control(0x01, false, false), pattern, dst, next)
  {
    hide Trace, Live, Marked, Engine, Fired, Reported, Polling, AllEntries, NonEmpty, Active, RingSpace, Config.Addr;
    ReachableInv(s);
    Indices(s);
    AddrOfSlot(s.cfg, |s.log|);
  }

  // ---------------------------------------------------------------- requests

  /** The chunks of a request that stays inside the address space have its whole effect on every memory if and only if
      the request is exact. */
  lemma ExactIff(cfg: Config, req: Request)
    requires cfg.Good() && req.dst + req.n <= U64 && (req.CopyRequest? ==> req.src + req.n <= U64)
    ensures Exact(req, cfg.maxXfer) <==>
      forall m: Memory :: ExecAll(RequestOps(req, cfg.maxXfer), m) == Effect(req, m)
  {
    hide Pow2, CopyExact, LengthsFit, CopyOps, FillOps, ExecAll, CopyBytes, FillBytes;
    LimitKeepsPhase(cfg);
    if Exact(req, cfg.maxXfer) {
      forall m: Memory ensures ExecAll(RequestOps(req, cfg.maxXfer), m) == Effect(req, m) {
        ChunksHaveEffect(cfg, req, m);
      }
    }
    match req
    case CopyRequest(dst, src, n, _, _) =>
      if n > 0 && forall m: Memory :: ExecAll(RequestOps(req, cfg.maxXfer), m) == Effect(req, m) {
        forall m: Memory ensures ExecAll(CopyOps(dst, src, n, cfg.maxXfer), m) == CopyBytes(m, dst, src, n) {
          assert ExecAll(RequestOps(req, cfg.maxXfer), m) == Effect(req, m);
        }
        CopyExactIff(dst, src, n, cfg.maxXfer);
      }
    case FillRequest(dst, pattern, n, _, _) =>
      if n > 0 && forall m: Memory :: ExecAll(RequestOps(req, cfg.maxXfer), m) == Effect(req, m) {
        forall m: Memory ensures ExecAll(FillOps(dst, pattern, n, cfg.maxXfer), m) == FillBytes(m, dst, pattern, n) {
          assert ExecAll(RequestOps(req, cfg.maxXfer), m) == Effect(req, m);
        }
        FillExactIff(dst, pattern, n, cfg.maxXfer);
      }
  }

  // ---------------------------------------------------------------- flush

  /** A flush announces everything that has been built, by the low 16 bits of the count, and asks for a completion at
      the last descriptor. */
  lemma FlushAnnounces(s: Chan)
    requires Reachable(s)
    ensures var r := Flush(s);
      && r.announced == |r.log| == |s.log| && r.dmacount == |s.log| % 0x1_0000
      && r.asked == s.asked + {|s.log|}
      && (s.retired < |s.log| ==> r.hw[(|s.log| - 1) % s.cfg.size].control.completionUpdate)
  {
    hide Inv, Reachable, Core, Pow2;
    ReachableInv(s);
    Facts(s);
    SizeDividesDoorbell(s);
    if s.retired < |s.log| { FlushWrites(s); }
    FlushFields(s);
  }

  lemma FlushFields(s: Chan)
    requires Shape(s)
    ensures var r := Flush(s);
      r == s.(hw := r.hw, dmacount := s.head % 0x1_0000, announced := |s.log|, asked := s.asked + {|s.log|})
  {
  }

  // ---------------------------------------------------------------- the engine

  function DeviceSteps(statuses: seq<nat>): seq<Step> {
    if statuses == [] then [] else [DeviceStep(statuses[0])] + DeviceSteps(statuses[1..])
  }

  /** Channel statuses as they fit the low bits of a descriptor address. */
  predicate LowBits(statuses: seq<nat>) {
    forall i: nat :: i < |statuses| ==> statuses[i] < 64
  }

  /** The engine reports a completion at the descriptors that were last at some flush, and at no others. */
  lemma ReportsWhereAsked(s: Chan, status: nat)
    requires Reachable(s) && s.count != s.dmacount && status < 64
    ensures var r := Device(s, status); var addr := s.cfg.Addr(s.executed);
      if s.executed + 1 in s.asked then r.completed == s.executed + 1 && r.comp == addr + status
      else r.completed == s.completed && r.comp == s.comp
  {
    hide Reachable, Inv, Exec, OpOf, Config.Addr, Fetch;
    ReachableInv(s);
    Facts(s);
    PendingIff(s);
    FetchesNext(s);
    AtNext(s);
  }

  lemma AtNext(s: Chan)
    requires Inv(s) && s.executed < s.announced
    ensures Shape(s) && s.cur == s.cfg.Addr(s.executed)
    ensures s.hw[s.executed % s.cfg.size].control.completionUpdate <==> s.executed + 1 in s.asked
  {
    hide Linked, Marked, Fired, Reported, Polling, ExecAll, AllEntries, NonEmpty, OpOf, Config.Addr;
    assert Holds(s, s.executed);
  }

  /** A drained engine has reported everything announced. */
  lemma DrainedIsReported(s: Chan)
    requires Inv(s) && s.executed == s.announced
    ensures s.completed == s.announced && s.count == s.dmacount
  {
    hide Live, Linked, Fired, Reported, Polling, Engine, AllEntries, NonEmpty;
    PendingIff(s);
  }

  /** What one step of a busy engine does to the counts. */
  lemma Progress(s: Chan, status: nat)
    requires Inv(s) && s.executed < s.announced && status < 64
    ensures Shape(s) && Enabled(s, DeviceStep(status)) && Next(s, DeviceStep(status)) == Device(s, status)
    ensures var r := Device(s, status);
      && Inv(r) && r.executed == s.executed + 1 && r.announced == s.announced
      && r.log == s.log && r.reqs == s.reqs && r.pc == s.pc && r.retired == s.retired && r.cfg == s.cfg
    ensures s.executed + 1 == s.announced ==> Device(s, status).comp % 8 == status % 8
  {
    hide Inv, Core, Exec, OpOf, Fetch, Reported, Config.Addr;
    Facts(s);
    PendingIff(s);
    NextInv(s, DeviceStep(status));
    if s.executed + 1 == s.announced { LastReport(s, status); }
  }

  lemma LastReport(s: Chan, status: nat)
    requires Inv(s) && s.executed + 1 == s.announced && status < 64
    ensures Shape(s) && Device(s, status).comp % 8 == status % 8
  {
    hide Live, Linked, Fired, Polling, ExecAll, Exec, OpOf, AllEntries, NonEmpty, Config.Addr;
    FetchesNext(s);
    AddrInRing(s.cfg, s.executed);
    StatusBits(s.cfg.Addr(s.executed), status);
  }

  lemma StatusBits(a: nat, status: nat)
    requires a % DESC_BYTES == 0
    ensures (a + status) % 8 == status % 8
  {
    var q := a / DESC_BYTES;
    DivMod(status, 8);
    ModIs(a + status, 8, 8 * q + status / 8, status % 8);
  }

  /** The state of the engine after all that was announced. */
  predicate Drained(s: Chan, r: Chan) {
    && Inv(r) && r.executed == r.completed == r.announced == s.announced && r.count == r.dmacount
    && r.log == s.log && r.reqs == s.reqs && r.pc == s.pc && r.retired == s.retired && r.cfg == s.cfg
  }

  /** As many engine steps are possible as there are announced descriptors to execute, whatever the statuses, and the
      last of them leaves its status in the completion word. */
  lemma {:induction false} EngineDrains(s: Chan, statuses: seq<nat>)
    requires Inv(s) && Shape(s) && LowBits(statuses) && |statuses| == s.announced - s.executed
    ensures Runs(s, DeviceSteps(statuses)) && Drained(s, After(s, DeviceSteps(statuses)))
    ensures statuses != [] ==>
      After(s, DeviceSteps(statuses)).comp % 8 == statuses[|statuses| - 1] % 8
    ensures statuses == [] ==> After(s, DeviceSteps(statuses)) == s
    decreases |statuses|
  {
    hide *;
    if statuses == [] {
      NoDeviceSteps(statuses);
      RunsNothing(s, DeviceSteps(statuses));
      DrainedIsReported(s);
      DrainedAlready(s);
    } else {
      var r := Device(s, statuses[0]);
      DeviceStepsCons(statuses);
      Progress(s, statuses[0]);
      EngineDrains(r, statuses[1..]);
      RunsUnfold(s, DeviceSteps(statuses));
      DrainedFrom(s, r, After(s, DeviceSteps(statuses)));
      if |statuses| == 1 {
        NoDeviceSteps(statuses[1..]);
        RunsNothing(r, DeviceSteps(statuses[1..]));
      }
    }
  }

  lemma NoDeviceSteps(statuses: seq<nat>)
    requires statuses == []
    ensures DeviceSteps(statuses) == []
  {
  }

  lemma DeviceStepsCons(statuses: seq<nat>)
    requires statuses != [] && LowBits(statuses)
    ensures DeviceSteps(statuses) != [] && DeviceSteps(statuses)[0] == DeviceStep(statuses[0])
    ensures DeviceSteps(statuses)[1..] == DeviceSteps(statuses[1..])
    ensures statuses[0] < 64 && LowBits(statuses[1..])
  {
  }

  lemma DrainedAlready(s: Chan)
    requires Inv(s) && s.executed == s.announced == s.completed && s.count == s.dmacount
    ensures Drained(s, s)
  {
  }

  lemma DrainedFrom(s: Chan, s1: Chan, r: Chan)
    requires Drained(s1, r) && s1.announced == s.announced && s1.log == s.log && s1.reqs == s.reqs
    requires s1.pc == s.pc && s1.retired == s.retired && s1.cfg == s.cfg
    ensures Drained(s, r)
  {
    hide Inv;
  }

  /** And no more than that. */
  lemma {:induction false} EngineStops(s: Chan, steps: seq<Step>)
    requires Inv(s) && Shape(s) && EngineOnly(steps) && Runs(s, steps)
    ensures |steps| <= s.announced - s.executed
    decreases |steps|
  {
    hide Inv, Runs, After, Device, Shape;
    Facts(s);
    if steps != [] {
      var status := HeadIsDevice(s, steps);
      RunsUnfold(s, steps);
      PendingIff(s);
      Progress(s, status);
      EngineStops(Device(s, status), steps[1..]);
    }
  }

  /** After a flush the engine executes and completes everything that has been built, in exactly as many steps as there
      are unexecuted descriptors, and then stops. */
  lemma FlushDrains(s: Chan, statuses: seq<nat>)
    requires Reachable(s) && !s.pc.Retiring? && LowBits(statuses) && |statuses| == |s.log| - s.executed
    ensures Shape(Flush(s)) && Runs(Flush(s), DeviceSteps(statuses))
    ensures var r := After(Flush(s), DeviceSteps(statuses));
      && Reachable(r) && r.executed == r.completed == r.announced == |r.log| && r.count == r.dmacount
      && r.log == s.log && r.reqs == s.reqs && r.pc == s.pc && r.retired == s.retired && r.cfg == s.cfg
      && (statuses != [] ==> r.comp % 8 == statuses[|statuses| - 1] % 8)
    ensures forall steps: seq<Step> :: EngineOnly(steps) && Runs(Flush(s), steps) ==> |steps| <= |s.log| - s.executed
  {
    hide *;
    ReachableInv(s);
    Facts(s);
    FlushAnnounces(s);
    FlushFields(s);
    FlushedReachable(s);
    ReachableInv(Flush(s));
    EngineDrains(Flush(s), statuses);
    ReachableRun(Flush(s), DeviceSteps(statuses));
    DrainedFields(Flush(s), After(Flush(s), DeviceSteps(statuses)));
    forall steps: seq<Step> | EngineOnly(steps) && Runs(Flush(s), steps) ensures |steps| <= |s.log| - s.executed {
      EngineStops(Flush(s), steps);
    }
  }

  lemma DrainedFields(s: Chan, r: Chan)
    requires Drained(s, r)
    ensures r.executed == r.completed == r.announced == s.announced && r.count == r.dmacount
    ensures r.log == s.log && r.reqs == s.reqs && r.pc == s.pc && r.retired == s.retired && r.cfg == s.cfg
  {
  }

  /** Flushing keeps a state reachable, except between the rounds of the retire loop, where nothing else runs. */
  lemma FlushedReachable(s: Chan)
    requires Reachable(s)
    ensures Shape(s) && Shape(Flush(s))
    ensures !s.pc.Retiring? ==> Reachable(Flush(s))
  {
    hide Trace;
    FlushShape(s);
    if !s.pc.Retiring? {
      assert Enabled(s, FlushStep) && Next(s, FlushStep) == Flush(s);
      ReachableStep(s, FlushStep);
    }
  }

  // ---------------------------------------------------------------- process_events

  lemma HaltedIs(comp: nat)
    ensures Halted(comp) <==> comp % 8 == 3
  {
  }

  /** When each party may act.  The driver may build and flush outside the function and inside callbacks; the engine
      runs while its count differs from the doorbell, with any status; and a call is possible exactly when no other is
      in progress and the completion word can be read. */
  lemma AllowedIff(s: Chan, req: Request, status: nat)
    ensures Enabled(s, BuildStep(req)) <==> s.pc.Idle? || s.pc.Calling?
    ensures Enabled(s, FlushStep) <==> s.pc.Idle? || s.pc.Calling?
    ensures Enabled(s, DeviceStep(status)) <==> s.count != s.dmacount && status < 64
    ensures Enabled(s, PollStep) <==>
      s.pc.Idle? && (s.head == s.tail || s.completed > 0 || s.comp % 8 == 3 || s.comp < 64)
  {
    if s.comp < 64 { ModSmall(s.comp, 64); } else { DivMod(s.comp, 64); }
  }

  /** Once something has completed, a call starts to retire if and only if something completed is not retired and the
      low three bits of the completion word are not 3; it then retires up to the last completed descriptor, and
      otherwise leaves everything alone. */
  lemma PollDecidesIff(s: Chan)
    requires Reachable(s) && s.pc.Idle? && s.completed > 0
    ensures Enabled(s, PollStep)
    ensures Poll(s) ==
      if s.comp % 8 != 3 && s.retired < s.completed then
        s.(pc := Retiring(s.cfg.Addr(s.completed - 1)), goal := s.completed)
      else s
  {
    hide *;
    ReachableInv(s);
    Facts(s);
    CompletedFacts(s);
    NothingNewIff(s);
    Indices(s);
    AllowedIff(s, CopyRequest(0, 0, 0, 0, 0), 0);
    PollGuards(s);
  }

  lemma PollGuards(s: Chan)
    requires s.pc.Idle?
    ensures Poll(s) ==
      if s.head == s.tail || s.comp % 8 == 3 || CompletedAddr(s.comp) == s.lastSeen then s
      else s.(pc := Retiring(CompletedAddr(s.comp)), goal := s.completed)
  {
    hide CompletedAddr;
  }

  /** From a flush to the end: whatever was built before the flush, however many builds failed in between, and
      whatever the engine reports on the way, if its last status is not 3 in the low three bits, one call of
      process_events then retires everything and runs all remaining callbacks. */
  lemma FlushedIsRetired(s: Chan, statuses: seq<nat>)
    requires Reachable(s) && s.pc.Idle? && s.retired < |s.log|
    requires LowBits(statuses) && |statuses| == |s.log| - s.executed
    requires if statuses == [] then s.comp % 8 != 3 else statuses[|statuses| - 1] % 8 != 3
    ensures Shape(Flush(s)) && Runs(Flush(s), DeviceSteps(statuses))
    ensures var r := After(Flush(s), DeviceSteps(statuses));
      && Enabled(r, PollStep) && Shape(Poll(r)) && Runs(Poll(r), Rounds(|s.log| - s.retired))
      && var e := After(Poll(r), Rounds(|s.log| - s.retired));
      e.pc.Idle? && e.head == e.tail && e.retired == |s.log| && e.fired == RequestCalls(s.reqs)
  {
    hide *;
    FlushedShape(s);
    FlushDrainsIdle(s, statuses);
    var r := After(Flush(s), DeviceSteps(statuses));
    ReachableInv(r);
    Facts(r);
    Indices(r);
    HaltedIs(r.comp);
    NoLostCompletion(r);
    PollIdle(r);
  }

  lemma PollIdle(s: Chan)
    requires Shape(s)
    ensures Shape(Poll(s))
  {
  }

  lemma FlushDrainsIdle(s: Chan, statuses: seq<nat>)
    requires Reachable(s) && s.pc.Idle? && LowBits(statuses) && |statuses| == |s.log| - s.executed
    requires if statuses == [] then s.comp % 8 != 3 else statuses[|statuses| - 1] % 8 != 3
    ensures Shape(Flush(s)) && Runs(Flush(s), DeviceSteps(statuses))
    ensures var r := After(Flush(s), DeviceSteps(statuses));
      && Reachable(r) && r.pc.Idle? && r.comp % 8 != 3 && r.retired == s.retired && r.reqs == s.reqs
      && r.announced == |r.log| == |s.log| && r.count == r.dmacount
  {
    hide Reachable, Runs, After, Flush, Shape, LowBits;
    FlushDrains(s, statuses);
    if statuses == [] {
      FlushedShape(s);
      NoDeviceSteps(statuses);
      RunsNothing(Flush(s), DeviceSteps(statuses));
    }
  }

  lemma FlushedShape(s: Chan)
    requires Reachable(s)
    ensures Shape(s) && Shape(Flush(s)) && Flush(s).comp == s.comp
  {
    hide Trace;
    FlushShape(s);
    FlushFields(s);
  }
}
