/** What the I/OAT driver guarantees, over every reachable state and every run. */
module IoatTheorems {
  import opened Words
  import opened Dma
  import opened IoatModel
  import opened IoatInvariant

  // ---------------------------------------------------------------- counters, slots, doorbell

  lemma Facts(s: Chan)
    requires Inv(s)
    ensures Core(s) && s.cfg.Good() && Shape(s) && Counters(s) && Linked(s)
    ensures s.announced < s.executed + s.cfg.size && s.executed <= s.announced <= |s.log|
    ensures s.dmacount == s.announced % U16 && s.count == s.executed % U16
  {
    hide Live, Marked, Engine, Fired, Reported, Polling;
  }

  /** The configurations of the source: 2^15 descriptors, a transfer limit of 4 KiB to 4 GiB, and a ring anywhere that
      is aligned to 64 bytes and not at address 0. */
  lemma SourceConfigs(xferOrder: nat, fillSupported: bool, base: nat, mem0: Memory)
    requires 12 <= xferOrder <= 32
    requires 0 < base && base % 64 == 0 && base + 64 * 32768 <= 0x1_0000_0000_0000_0000
    ensures Pow2(15) == 32768 && Config(15, 32768, xferOrder, Pow2(xferOrder), fillSupported, base, mem0).Good()
  {
    assert Pow2(5) == 32;
    Pow2Add(5, 5);
    Pow2Add(10, 5);
  }

  /** In every reachable state the masked 32-bit arithmetic gives the true live count, the live count,
      the free space and the reserved slot add up to the ring, and live submissions have their own slots. */
  lemma WrappedCountersAreExact(s: Chan)
    requires Reachable(s)
    ensures Active(s) == |s.log| - s.retired && RingSpace(s) + Active(s) + 1 == s.cfg.size
    ensures forall i: nat, j: nat :: s.retired <= i <= j < |s.log| && s.cfg.Addr(i) == s.cfg.Addr(j) ==> i == j
  {
    ReachableInv(s);
    hide Reachable, Live, Linked, Marked, Engine, Fired, Reported, Polling;
    Indices(s);
    forall i: nat, j: nat | s.retired <= i <= j < |s.log| && s.cfg.Addr(i) == s.cfg.Addr(j) ensures i == j {
      AddrDistinct(s.cfg, i, j);
    }
  }

  /** The 16-bit doorbell minus the engine's 16-bit count is the true number of announced,
      unexecuted descriptors. */
  lemma DoorbellIsExact(s: Chan)
    requires Reachable(s)
    ensures (s.dmacount - s.count) % U16 == s.announced - s.executed
  {
    hide *;
    ReachableInv(s);
    Facts(s);
    SizeBelow(s.cfg);
    ModOfDifference(s.announced, s.executed, U16);
    ModSmall(s.announced - s.executed, U16);
  }

  /** What the engine makes of a backlog of d descriptors after x executed ones. */
  function Backlog(x: nat, d: nat): int {
    ((x + d) % U16 - x % U16) % U16
  }

  /** For a ring of the given order: every possible backlog is read back from the two 16-bit counts. */
  ghost predicate DoorbellSuffices(order: nat) {
    forall x: nat, d: nat :: d < Pow2(order) ==> Backlog(x, d) == d
  }

  /** Ring orders up to 16 are exactly the ones the 16-bit doorbell can serve. */
  lemma DoorbellSufficesIff(order: nat)
    ensures DoorbellSuffices(order) <==> order <= 16
  {
    Pow2Values();
    if order <= 16 {
      Pow2Monotone(order, 16);
      forall x: nat, d: nat | d < Pow2(order) ensures Backlog(x, d) == d {
        ModOfDifference(x + d, x, U16);
        ModSmall(d, U16);
      }
    } else {
      // A full backlog of 65536 descriptors reads as none.
      Pow2Monotone(17, order);
      assert Pow2(17) == 2 * Pow2(16);
      assert Backlog(0, U16) == 0;
    }
  }

  // ---------------------------------------------------------------- the descriptor chain

  /** The address reached from a by following k next pointers. */
  function Hops(s: Chan, a: nat, k: nat): nat
    requires Shape(s)
  {
    if k == 0 then a else Fetch(s, Hops(s, a, k - 1)).next
  }

  lemma {:induction false} HopsFollowIndices(s: Chan, i: nat, k: nat)
    requires s.cfg.Good() && Shape(s) && Linked(s)
    ensures Hops(s, s.cfg.Addr(i), k) == s.cfg.Addr(i + k)
  {
    if k > 0 {
      HopsFollowIndices(s, i, k - 1);
      AddrInRing(s.cfg, i + k - 1);
      AddrOfSlot(s.cfg, i + k - 1);
    }
  }

  /** The number of hops from slot i to slot j. */
  function Distance(i: nat, j: nat, n: nat): nat
    requires i < n && j < n
  {
    if i <= j then j - i else j + n - i
  }

  lemma SlotAfter(i: nat, j: nat, k: nat, n: nat)
    requires i < n && j < n && k < n
    ensures (i + k) % n == j <==> k == Distance(i, j, n)
  {
    if i + k < n { ModSmall(i + k, n); } else { ModIs(i + k, n, 1, i + k - n); }
  }

  /** In every reachable state the next pointers form one cycle through the whole ring: k hops from
      slot i end at slot i + k, every slot is met within one round, and none twice. */
  lemma ChainIsOneCycle(s: Chan, i: nat, j: nat, k: nat)
    requires Reachable(s) && i < s.cfg.size && j < s.cfg.size
    ensures Hops(s, s.cfg.Addr(i), k) == s.cfg.Addr(i + k)
    ensures k < s.cfg.size ==> (Hops(s, s.cfg.Addr(i), k) == s.cfg.Addr(j) <==> k == Distance(i, j, s.cfg.size))
    ensures Hops(s, s.cfg.Addr(i), s.cfg.size) == s.cfg.Addr(i)
  {
    hide Inv, Hops, Distance, Linked, Reachable;
    var n := s.cfg.size;
    ReachableInv(s);
    Facts(s);
    HopsFollowIndices(s, i, k);
    HopsFollowIndices(s, i, n);
    ModIs(i + n, n, 1, i);
    ModSmall(i, n);
    ModSmall(j, n);
    if k < n { SlotAfter(i, j, k, n); }
  }

  // ---------------------------------------------------------------- building

  /** The number of descriptors a request needs. */
  function Needs(req: Request, max: pos): nat {
    match req
    case CopyRequest(_, _, n, _, _) => if n == 0 then 1 else NumChunks(n, max)
    case FillRequest(_, _, n, _, _) => NumChunks(n, max)
  }

  lemma NeedsIsCount(req: Request, max: pos)
    ensures |RequestOps(req, max)| == Needs(req, max)
    ensures Needs(req, max) == 0 <==> req.FillRequest? && req.n == 0
  {
    NumChunksStep(req.n, max);
    if req.n > 0 {
      match req
      case CopyRequest(dst, src, n, _, _) => CopyOpsCount(dst, src, n, max);
      case FillRequest(dst, pattern, n, _, _) => FillOpsCount(dst, pattern, n, max);
    }
  }

  /** Building is all or nothing.  It succeeds exactly when the chunks fit the free space (and a fill is
      supported and not empty); success logs the request's chunks with the callback on the last;
      failure leaves head, tail, the log and every live slot of both rings, and the reserved slot, alone. */
  lemma BuildAllOrNothing(s: Chan, req: Request)
    requires Reachable(s)
    ensures var (r, rc) := Build(s, req);
      && (rc == 0 <==>
        (req.FillRequest? ==> s.cfg.fillSupported && req.n > 0) && Needs(req, s.cfg.maxXfer) <= RingSpace(s))
      && (rc == 0 ==> r.log == s.log + Entries(req, s.cfg.maxXfer))
      && (rc != 0 ==> r.head == s.head && r.tail == s.tail && r.log == s.log && r.reqs == s.reqs)
      && (rc != 0 ==> forall i: nat :: s.retired <= i + 1 && i < |s.log| ==> Untouched(s, r, i))
      && (rc != 0 ==> rc == (if req.FillRequest? && !s.cfg.fillSupported then -1 else -12))
      && (rc == 0 && req.n == 0 ==> r.log == s.log + [Entry(Null, req.fn, req.arg)])
      && (rc == 0 ==> r.reqs == s.reqs + [req])
  {
    hide Inv, Entries, RequestOps, Needs;
    ReachableInv(s);
    Facts(s);
    BuildOutcome(s, req);
    NeedsIsCount(req, s.cfg.maxXfer);
    BuildCodes(s, req);
    BuildLeaves(s, req);
    EmptyCopy(req, s.cfg.maxXfer);
  }

  /** A copy of no bytes is one null descriptor. */
  lemma EmptyCopy(req: Request, max: pos)
    ensures req.CopyRequest? && req.n == 0 ==> Entries(req, max) == [Entry(Null, req.fn, req.arg)]
    ensures req.FillRequest? && req.n == 0 ==> Needs(req, max) == 0
  {
    NumChunksStep(req.n, max);
  }

  lemma BuildCodes(s: Chan, req: Request)
    requires Shape(s)
    ensures var (r, rc) := Build(s, req);
      && (rc != 0 ==> r.reqs == s.reqs)
      && rc == if req.FillRequest? && !s.cfg.fillSupported then -1 else if rc == 0 then 0 else -12
  {
    hide Issue, RequestOps;
    if !(req.FillRequest? && !s.cfg.fillSupported) { IssueLeaves(s, RequestOps(req, s.cfg.maxXfer)); }
  }

  // ---------------------------------------------------------------- callbacks

  /** The callbacks that a list of accepted requests asks for, in order. */
  function RequestCalls(reqs: seq<Request>): seq<Call> {
    if reqs == [] then []
    else
      var q := reqs[|reqs| - 1];
      RequestCalls(reqs[..|reqs| - 1]) + if q.fn != 0 then [Call(q.fn, q.arg)] else []
  }

  lemma CallsOfEntries(log: seq<Entry>, req: Request, max: pos)
    requires RequestOps(req, max) != []
    ensures Calls(log + Entries(req, max)) == Calls(log) + if req.fn != 0 then [Call(req.fn, req.arg)] else []
  {
    var ops := RequestOps(req, max);
    var k := |ops| - 1;
    var l := log + Entries(req, max);
    assert l[..|l| - 1] == log + Plain(ops[..k]);
    CallsSkipPlain(log, ops[..k]);
  }

  lemma {:induction false} CallsOfAll(reqs: seq<Request>, max: pos)
    requires NonEmpty(reqs, max)
    ensures Calls(AllEntries(reqs, max)) == RequestCalls(reqs)
    decreases |reqs|
  {
    if reqs != [] {
      var k := |reqs| - 1;
      CallsOfAll(reqs[..k], max);
      CallsOfEntries(AllEntries(reqs[..k], max), reqs[k], max);
    }
  }

  lemma {:induction false} CallsPrefix(log: seq<Entry>, i: nat)
    requires i <= |log|
    ensures Calls(log[..i]) <= Calls(log)
    decreases |log| - i
  {
    if i == |log| {
      assert log[..i] == log;
    } else {
      CallsPrefix(log, i + 1);
      assert log[..i + 1][..i] == log[..i];
    }
  }

  /** Callbacks are first-in first-out and fire at most once: what has fired is a prefix of what the
      accepted requests asked for, and it is everything once all descriptors are retired. */
  lemma FiredIsPrefix(s: Chan)
    requires Reachable(s)
    ensures s.fired <= RequestCalls(s.reqs)
    ensures s.head == s.tail ==> s.fired == RequestCalls(s.reqs)
  {
    hide Reachable, Live, Linked, Marked, Engine, Reported, RequestCalls, AllEntries, Calls, NonEmpty;
    ReachableInv(s);
    CallsOfAll(s.reqs, s.cfg.maxXfer);
    CallsPrefix(s.log, Started(s));
    Indices(s);
    if s.head == s.tail { assert s.log[..Started(s)] == s.log; }
  }

  lemma LastCarriesCallback(req: Request, max: pos, j: nat)
    requires j < |Entries(req, max)| && Entries(req, max)[j].fn != 0
    ensures j == |Entries(req, max)| - 1 && Entries(req, max)[j].fn == req.fn && Entries(req, max)[j].arg == req.arg
  {
  }

  /** The request whose last descriptor is submission i: only last descriptors carry a callback. */
  lemma {:induction false} CallbackOwner(reqs: seq<Request>, max: pos, i: nat) returns (r: nat)
    requires i < |AllEntries(reqs, max)| && AllEntries(reqs, max)[i].fn != 0
    ensures r < |reqs| && AllEntries(reqs, max)[..i + 1] == AllEntries(reqs[..r + 1], max)
    ensures AllEntries(reqs, max)[i].fn == reqs[r].fn && AllEntries(reqs, max)[i].arg == reqs[r].arg
    decreases |reqs|
  {
    hide Entries, RequestOps;
    var k := |reqs| - 1;
    var all, before := AllEntries(reqs, max), AllEntries(reqs[..k], max);
    if i < |before| {
      r := CallbackOwner(reqs[..k], max, i);
      assert reqs[..k][..r + 1] == reqs[..r + 1];
      assert all[..i + 1] == before[..i + 1];
    } else {
      r := k;
      LastCarriesCallback(reqs[k], max, i - |before|);
      assert reqs[..r + 1] == reqs && all[..i + 1] == all;
    }
  }

  // ---------------------------------------------------------------- memory

  /** The whole operation a request stands for. */
  function Effect(req: Request, m: Memory): Memory {
    match req
    case CopyRequest(dst, src, n, _, _) => CopyBytes(m, dst, src, n)
    case FillRequest(dst, pattern, n, _, _) => FillBytes(m, dst, pattern, n)
  }

  function EffectAll(reqs: seq<Request>, m: Memory): Memory {
    if reqs == [] then m else Effect(reqs[|reqs| - 1], EffectAll(reqs[..|reqs| - 1], m))
  }

  /** The requests whose chunks have, on every memory, the effect of the whole operation. */
  predicate Exact(req: Request, max: pos) {
    match req
    case CopyRequest(dst, src, n, _, _) => n == 0 || (dst + n <= U64 && src + n <= U64 && CopyExact(dst, src, n, max))
    case FillRequest(dst, _, n, _, _) => n == 0 || (dst + n <= U64 && LengthsFit(n, max))
  }

  predicate AllExact(reqs: seq<Request>, max: pos) {
    forall r: nat :: r < |reqs| ==> Exact(reqs[r], max)
  }

  lemma LimitKeepsPhase(cfg: Config)
    requires cfg.Good()
    ensures cfg.maxXfer % 8 == 0 && cfg.maxXfer <= U32
  {
    var k := Pow2(cfg.xferOrder - 3);
    Pow2Add(3, cfg.xferOrder - 3);
    assert Pow2(3) == 8;
    Pow2Monotone(cfg.xferOrder, 32);
    Pow2Values();
    assert cfg.maxXfer == 8 * k;
    hide Pow2;
    ModIs(cfg.maxXfer, 8, k, 0);
  }

  lemma FillNothing(m: Memory, dst: nat, pattern: nat)
    ensures FillBytes(m, dst, pattern, 0) == m
  {
  }

  lemma ChunksHaveEffect(cfg: Config, req: Request, m: Memory)
    requires cfg.Good() && Exact(req, cfg.maxXfer)
    ensures ExecAll(RequestOps(req, cfg.maxXfer), m) == Effect(req, m)
  {
    LimitKeepsPhase(cfg);
    match req
    case CopyRequest(dst, src, n, _, _) =>
      if n == 0 {
        assert [Null][..0] == [];
        CopyNothing(m, dst, src);
      } else {
        CopyExactIff(dst, src, n, cfg.maxXfer);
      }
    case FillRequest(dst, pattern, n, _, _) =>
      if n == 0 { FillNothing(m, dst, pattern); } else { FillExactIff(dst, pattern, n, cfg.maxXfer); }
  }

  lemma OpsConcat(a: seq<Entry>, b: seq<Entry>)
    ensures Ops(a + b) == Ops(a) + Ops(b)
  {
  }

  lemma OpsOfEntries(req: Request, max: pos)
    ensures Ops(Entries(req, max)) == RequestOps(req, max)
  {
  }

  /** Executing all descriptors of the accepted requests applies the whole operations in order. */
  lemma {:induction false} EntriesHaveEffect(cfg: Config, reqs: seq<Request>, m: Memory)
    requires cfg.Good() && AllExact(reqs, cfg.maxXfer)
    ensures ExecAll(Ops(AllEntries(reqs, cfg.maxXfer)), m) == EffectAll(reqs, m)
    decreases |reqs|
  {
    if reqs != [] {
      var k := |reqs| - 1;
      var a, b := AllEntries(reqs[..k], cfg.maxXfer), Entries(reqs[k], cfg.maxXfer);
      EntriesHaveEffect(cfg, reqs[..k], m);
      assert Exact(reqs[k], cfg.maxXfer);
      OpsConcat(a, b);
      OpsOfEntries(reqs[k], cfg.maxXfer);
      hide ExecAll, RequestOps, AllExact, Exact, Effect, Ops, Entries;
      ExecAllConcat(Ops(a), Ops(b), m);
      ChunksHaveEffect(cfg, reqs[k], EffectAll(reqs[..k], m));
    }
  }

  /** Once the engine has executed the first r requests completely, memory is those whole operations
      in order, followed by the single descriptors it has executed beyond them. */
  lemma MemoryRefinesRequests(s: Chan, r: nat)
    requires Reachable(s) && r <= |s.reqs| && AllExact(s.reqs[..r], s.cfg.maxXfer)
    requires |AllEntries(s.reqs[..r], s.cfg.maxXfer)| <= s.executed
    ensures var e := |AllEntries(s.reqs[..r], s.cfg.maxXfer)|;
      s.executed <= |s.log| && s.mem == ExecAll(Ops(s.log[e..s.executed]), EffectAll(s.reqs[..r], s.cfg.mem0))
  {
    var e := |AllEntries(s.reqs[..r], s.cfg.maxXfer)|;
    hide *;
    ReachableInv(s);
    MemoryFields(s);
    EntriesPrefix(s.reqs, s.cfg.maxXfer, r);
    EntriesHaveEffect(s.cfg, s.reqs[..r], s.cfg.mem0);
    SplitLog(s.log, AllEntries(s.reqs[..r], s.cfg.maxXfer), s.executed);
    OpsConcat(s.log[..e], s.log[e..s.executed]);
    ExecAllConcat(Ops(s.log[..e]), Ops(s.log[e..s.executed]), s.cfg.mem0);
  }

  lemma SplitLog(log: seq<Entry>, a: seq<Entry>, x: nat)
    requires a <= log && |a| <= x <= |log|
    ensures log[..|a|] == a && log[..x] == log[..|a|] + log[|a|..x]
  {
  }

  lemma MemoryFields(s: Chan)
    requires Inv(s)
    ensures s.cfg.Good() && s.executed <= |s.log| && s.mem == ExecAll(Ops(s.log[..s.executed]), s.cfg.mem0)
    ensures s.log == AllEntries(s.reqs, s.cfg.maxXfer)
  {
    hide Exact, ExecAll, AllEntries, NonEmpty;
  }

  lemma {:induction false} EntriesPrefix(reqs: seq<Request>, max: pos, r: nat)
    requires r <= |reqs|
    ensures AllEntries(reqs[..r], max) <= AllEntries(reqs, max)
    decreases |reqs|
  {
    hide Entries, RequestOps;
    if r < |reqs| {
      var k := |reqs| - 1;
      EntriesPrefix(reqs[..k], max, r);
      assert reqs[..k][..r] == reqs[..r];
    } else {
      assert reqs[..r] == reqs;
    }
  }

  lemma CallsBeforeAndAfter(reqs: seq<Request>, max: pos, log: seq<Entry>, i: nat, r: nat)
    requires NonEmpty(reqs, max) && r < |reqs| && i < |log|
    requires log[..i + 1] == AllEntries(reqs[..r + 1], max)
    requires log[i].fn == reqs[r].fn != 0 && log[i].arg == reqs[r].arg
    ensures Calls(log[..i + 1]) == RequestCalls(reqs[..r + 1]) && Calls(log[..i]) == RequestCalls(reqs[..r])
  {
    hide *;
    CallsUnfold(log, i);
    RequestCallsUnfold(reqs, max, r);
    CallsOfAll(reqs[..r + 1], max);
    LastCancels(Calls(log[..i]), RequestCalls(reqs[..r]), Call(reqs[r].fn, reqs[r].arg));
  }

  lemma CallsUnfold(log: seq<Entry>, i: nat)
    requires i < |log| && log[i].fn != 0
    ensures Calls(log[..i + 1]) == Calls(log[..i]) + [Call(log[i].fn, log[i].arg)]
  {
    assert log[..i + 1][..i] == log[..i];
  }

  lemma RequestCallsUnfold(reqs: seq<Request>, max: pos, r: nat)
    requires NonEmpty(reqs, max) && r < |reqs| && reqs[r].fn != 0
    ensures NonEmpty(reqs[..r + 1], max)
    ensures RequestCalls(reqs[..r + 1]) == RequestCalls(reqs[..r]) + [Call(reqs[r].fn, reqs[r].arg)]
  {
    hide RequestOps;
    assert reqs[..r + 1][..r] == reqs[..r];
  }

  lemma LastCancels(a: seq<Call>, b: seq<Call>, c: Call)
    requires a + [c] == b + [c]
    ensures a == b
  {
    assert (a + [c])[..|a|] == a && (b + [c])[..|b|] == b;
  }

  /** When a callback is about to run it belongs to an accepted request r, and exactly the callbacks of the
      requests before r have run. */
  lemma CallbackInOrder(s: Chan) returns (r: nat)
    requires Reachable(s) && s.pc.Retiring? && s.ring[RingIndex(s.cfg, s.tail)].fn != 0
    ensures r < |s.reqs| && s.retired < |s.log| && s.log[..s.retired + 1] == AllEntries(s.reqs[..r + 1], s.cfg.maxXfer)
    ensures s.fired == RequestCalls(s.reqs[..r])
    ensures Callback(s).fired == RequestCalls(s.reqs[..r + 1])
  {
    hide *;
    CallbackFields(s);
    r := CallbackOwner(s.reqs, s.cfg.maxXfer, s.retired);
    CallsBeforeAndAfter(s.reqs, s.cfg.maxXfer, s.log, s.retired, r);
  }

  lemma CallbackFields(s: Chan)
    requires Reachable(s) && s.pc.Retiring? && s.ring[RingIndex(s.cfg, s.tail)].fn != 0
    ensures s.retired < s.executed <= |s.log|
    ensures s.log[s.retired].fn != 0 && s.log == AllEntries(s.reqs, s.cfg.maxXfer) && NonEmpty(s.reqs, s.cfg.maxXfer)
    ensures s.fired == Calls(s.log[..s.retired]) && Callback(s).fired == Calls(s.log[..s.retired + 1])
  {
    hide Reachable, Linked, Marked, Engine, Reported, AllEntries, Calls, NonEmpty, OpOf, Active, RingSpace;
    ReachableInv(s);
    Indices(s);
    assert Holds(s, s.retired);
    CallbackFires(s);
  }

  /** End to end: when the callback of request r is about to run, all descriptors of r have been executed, and
      memory holds the whole operations of the requests up to and including r, in order, changed only by
      descriptors of later requests. */
  lemma CallbackAfterEffects(s: Chan) returns (r: nat)
    requires Reachable(s) && s.pc.Retiring? && s.ring[RingIndex(s.cfg, s.tail)].fn != 0
    ensures r < |s.reqs| && Callback(s).fired == RequestCalls(s.reqs[..r + 1])
    ensures var e := |AllEntries(s.reqs[..r + 1], s.cfg.maxXfer)|;
      && e <= s.executed <= |s.log|
      && (AllExact(s.reqs[..r + 1], s.cfg.maxXfer) ==>
        s.mem == ExecAll(Ops(s.log[e..s.executed]), EffectAll(s.reqs[..r + 1], s.cfg.mem0)))
  {
    hide *;
    r := CallbackInOrder(s);
    CallbackFields(s);
    if AllExact(s.reqs[..r + 1], s.cfg.maxXfer) { MemoryRefinesRequests(s, r + 1); }
  }

  // ---------------------------------------------------------------- process_events

  /** No ABA: outside process_events the address in the completion word equals last_seen exactly when nothing new has
      completed, if and only if something has completed at all or the word holds no address; and once something has
      completed, the word names the last completed descriptor. */
  lemma LastSeenIsSoundIff(s: Chan)
    requires Reachable(s) && s.pc.Idle?
    ensures (CompletedAddr(s.comp) == s.lastSeen <==> s.completed == s.retired)
      <==> (s.completed > 0 || CompletedAddr(s.comp) == 0)
    ensures s.completed > 0 ==> CompletedAddr(s.comp) == s.cfg.Addr(s.completed - 1)
    ensures s.retired <= s.completed <= s.executed
  {
    hide *;
    ReachableInv(s);
    Facts(s);
    CompletedFacts(s);
    if s.completed > 0 { NothingNewIff(s); }
  }

  lemma CompletedFacts(s: Chan)
    requires Inv(s)
    ensures s.completed > 0 ==> CompletedAddr(s.comp) == s.cfg.Addr(s.completed - 1)
    ensures s.retired <= s.completed <= s.executed
    ensures s.pc.Idle? && s.retired == 0 ==> s.lastSeen == 0
  {
    hide CompletedAddr, Config.Addr;
  }

  /** A completion word that holds the address of the first descriptor before anything has completed lets process_events
      retire, and call back, a request that the engine has not even been told of. */
  lemma EarlyPollRetiresUnexecuted(s: Chan, req: Request)
    requires Fresh(s) && Accepts(s, req) && CompletedAddr(s.comp) == s.cfg.Addr(0) && !Halted(s.comp)
    ensures var p := Poll(Build(s, req).0);
      && Shape(p) && p.pc.Retiring? && Shape(Callback(p)) && Callback(p).pc.Calling?
      && var r := Return(Callback(p));
      r.pc.Idle? && r.retired == 1 && r.executed == r.announced == 0
  {
    hide Accepts, CompletedAddr, Halted, Extends, Entries, Core, AllEntries, Build;
    var b := Build(s, req).0;
    FreshInv(s);
    BuildOutcome(s, req);
    EarlyBuild(s, req);
    BuiltFacts(b);
    ModSmall(0, s.cfg.size);
  }

  lemma EarlyBuild(s: Chan, req: Request)
    requires Fresh(s) && Accepts(s, req) && Core(s)
    ensures var b := Build(s, req).0;
      && b.pc == s.pc && b.retired == b.tail == b.lastSeen == b.executed == b.announced == 0 && b.comp == s.comp
      && |b.log| > 0 && Core(b) && b.cfg == s.cfg
  {
    hide Core, Extends, CompletedAddr, Halted, Issue, RingSpace, RequestOps, Fresh;
    FreshFields(s);
    BuildOutcome(s, req);
    BuildLeaves(s, req);
  }

  lemma FreshFields(s: Chan)
    requires Fresh(s)
    ensures s.retired == s.tail == s.lastSeen == s.executed == s.announced == 0
    ensures Shape(s) && s.pc.Idle? && s.log == []
  {
  }

  lemma {:induction false} IssueLeaves(s: Chan, ops: seq<Op>)
    requires Shape(s)
    ensures var r := Issue(s, ops).0;
      r == s.(ring := r.ring, hw := r.hw, head := r.head, log := r.log)
    decreases |ops|
  {
    hide RingSpace, HwFor;
    if ops != [] && RingSpace(s) >= 1 && |ops| > 1 { IssueLeaves(Prep(s, ops[0]), ops[1..]); }
  }

  /** What a build leaves alone. */
  lemma BuildLeaves(s: Chan, req: Request)
    requires Shape(s)
    ensures var r := Build(s, req).0;
      r == s.(ring := r.ring, hw := r.hw, head := r.head, log := r.log, reqs := r.reqs)
  {
    hide Issue, RequestOps;
    if !(req.FillRequest? && !s.cfg.fillSupported) { IssueLeaves(s, RequestOps(req, s.cfg.maxXfer)); }
  }

  lemma BuiltFacts(b: Chan)
    requires Core(b) && b.retired == 0 && |b.log| > 0
    ensures b.head != b.tail && Shape(b) && b.cfg.Good() && b.ring[RingIndex(b.cfg, b.tail)].physAddr == b.cfg.Addr(0)
    ensures b.cfg.Addr(0) > 0
  {
    hide Live, Marked, Engine, Fired, Reported, Polling, Active, RingSpace;
    Indices(b);
    ModSmall(0, b.cfg.size);
  }

  /** The engine works exactly when something announced is unexecuted, and what it fetches next is the next submission
      in order, still as it was submitted. */
  lemma EngineExecutesSubmissions(s: Chan)
    requires Reachable(s)
    ensures s.count != s.dmacount <==> s.executed < s.announced
    ensures s.executed < s.announced ==> s.executed < |s.log| && OpOf(Fetch(s, s.cur)) == s.log[s.executed].op
  {
    hide *;
    ReachableInv(s);
    Facts(s);
    PendingIff(s);
    if s.executed < s.announced { FetchesNext(s); }
  }

  /** k rounds of the retire loop. */
  function Rounds(k: nat): seq<Step> {
    if k == 0 then [] else [CallbackStep, ReturnStep] + Rounds(k - 1)
  }

  lemma OneRound(s: Chan)
    requires Inv(s) && s.pc.Retiring?
    ensures var r := Return(Callback(s));
      && Inv(r) && r.retired == s.retired + 1 && r.goal == s.goal && r.log == s.log && r.reqs == s.reqs
      && (if s.retired + 1 == s.goal then r.pc.Idle? else r.pc.Retiring?)
    ensures s.retired < s.goal && Shape(s) && Shape(Callback(s)) && Callback(s).pc.Calling?
    ensures Shape(Return(Callback(s)))
  {
    hide Live, Linked, Marked, Engine, Fired, Reported, Counters, AllEntries, NonEmpty;
    CallbackCore(s);
    ReturnCore(Callback(s));
    ReturnPolling(Callback(s));
  }

  lemma RoundReachable(s: Chan)
    requires Reachable(s) && s.pc.Retiring?
    ensures Shape(Callback(s)) && Callback(s).pc.Calling? && Reachable(Return(Callback(s)))
  {
    var c := Callback(s);
    assert Enabled(s, CallbackStep) && Next(s, CallbackStep) == c;
    assert Enabled(c, ReturnStep) && Next(c, ReturnStep) == Return(c);
    ReachableStep(s, CallbackStep);
    ReachableStep(c, ReturnStep);
  }

  lemma NoRounds(s: Chan)
    requires Shape(s)
    ensures Runs(s, Rounds(0)) && After(s, Rounds(0)) == s
  {
  }

  lemma RoundsUnfold(s: Chan, k: nat)
    requires Shape(s) && s.pc.Retiring? && k > 0 && Runs(Return(Callback(s)), Rounds(k - 1))
    ensures Runs(s, Rounds(k)) && After(s, Rounds(k)) == After(Return(Callback(s)), Rounds(k - 1))
  {
    var c := Callback(s);
    assert Enabled(s, CallbackStep) && Enabled(c, ReturnStep);
    assert Next(s, CallbackStep) == c && Next(c, ReturnStep) == Return(c);
    hide Callback, Return, Next, Enabled;
    var all := Rounds(k);
    assert all[0] == CallbackStep && all[1..][0] == ReturnStep && all[1..][1..] == Rounds(k - 1);
    assert Runs(c, all[1..]) && After(c, all[1..]) == After(Return(c), Rounds(k - 1));
  }

  /** After k rounds the loop has retired up to its goal and left, with nothing else built. */
  predicate RetiredBy(s: Chan, k: nat) {
    && Shape(s) && Runs(s, Rounds(k))
    && var r := After(s, Rounds(k)); r.pc.Idle? && r.retired == s.goal && r.log == s.log && r.reqs == s.reqs
  }

  /** The retire loop terminates after exactly goal - tail rounds, and retires up to the goal. */
  lemma {:induction false} RoundsRetire(s: Chan)
    requires Reachable(s) && s.pc.Retiring?
    ensures s.retired < s.goal && RetiredBy(s, s.goal - s.retired)
    decreases s.goal - s.retired
  {
    hide Reachable, Inv, Callback, Return, Runs, After, Rounds, Polling;
    ReachableInv(s);
    OneRound(s);
    RoundReachable(s);
    var k := s.goal - s.retired;
    var r := Return(Callback(s));
    if k > 1 { RoundsRetire(r); } else { NoRounds(r); }
    RoundsUnfold(s, k);
  }

  /** Every state of a run lies inside process_events until the last one, which is outside. */
  predicate Inside(s: Chan, steps: seq<Step>)
    requires Shape(s) && Runs(s, steps)
    decreases |steps|
  {
    if steps == [] then s.pc.Idle? else !s.pc.Idle? && Inside(Next(s, steps[0]), steps[1..])
  }

  /** The first descriptor of a channel, once it is flushed and executed by a not halted engine, has been reported. */
  lemma FirstCompletion(s1: Chan)
    requires Inv(s1) && |s1.log| == 1 && s1.pc.Idle?
    requires s1.retired == s1.completed == s1.executed == s1.announced == 0
    ensures var s2 := Flush(s1);
      && s2.pc.Idle? && s2.count != s2.dmacount
      && var s3 := Device(s2, 1);
      && s3.completed == 1 && s3.retired == 0 && |s3.log| == 1 && s3.pc.Idle? && s3.head != s3.tail && !Halted(s3.comp)
  {
    hide Engine, Fired, Reported, AllEntries, NonEmpty, Exec, Halted, OpOf, Live, Linked, Active, RingSpace;
    var s2 := Flush(s1);
    FlushCore(s1);
    PendingIff(s2);
    FetchesNext(s2);
    DeviceCore(s2, 1);
    Indices(Device(s2, 1));
    AddrInRing(s2.cfg, 0);
    AtFirst(s2);
    NotHalted(s2.cfg.Addr(0));
  }

  lemma AtFirst(s: Chan)
    requires Core(s) && s.executed == 0
    ensures s.cur == s.cfg.Addr(0)
  {
    hide Live, Linked, Marked, Fired, Reported, ExecAll;
  }

  lemma NotHalted(a: nat)
    requires a % DESC_BYTES == 0
    ensures !Halted(a + 1)
  {
    var q := a / DESC_BYTES;
    assert a == 8 * (8 * q);
    ModIs(a + 1, 8, 8 * q, 1);
  }

  /** The slot before slot i, across the wrap at 0. */
  lemma LinkIndex(cfg: Config, i: nat)
    requires cfg.Good() && i < cfg.size
    ensures RingIndex(cfg, Sub32(i, 1)) == if i == 0 then cfg.size - 1 else i - 1
  {
    var n, k := cfg.size, Pow2(32 - cfg.order);
    assert n * k == U32 by { Pow2Add(cfg.order, 32 - cfg.order); Pow2Values(); }
    SizeBelow(cfg);
    WrappedIndices(i, 0, n, k);
    ModSmall(i, U32);
    if i == 0 { ModIs(-1, n, -1, n - 1); } else { ModSmall(i - 1, n); }
  }

  /** The number of rounds of the retire loop that a run completes. */
  function Returns(steps: seq<Step>): nat {
    if steps == [] then 0 else (if steps[0].ReturnStep? then 1 else 0) + Returns(steps[1..])
  }

  /** Whatever the engine does and the callbacks build and flush meanwhile, the loop goes round exactly goal - tail
      times and retires exactly the descriptors up to the completion that was read at its start. */
  lemma {:induction false} RetiresExactlyGoal(s: Chan, steps: seq<Step>)
    requires Reachable(s) && !s.pc.Idle? && Runs(s, steps) && Inside(s, steps)
    ensures After(s, steps).retired == s.goal && Returns(steps) == s.goal - s.retired
    decreases |steps|
  {
    hide Reachable, Inv;
    ReachableInv(s);
    Facts(s);
    var r := Next(s, steps[0]);
    ReachableStep(s, steps[0]);
    if s.pc.Calling? { ReturnPolling(s); }
    BusyStep(s, steps[0]);
    if !r.pc.Idle? {
      RetiresExactlyGoal(r, steps[1..]);
    } else {
      NothingInside(r, steps[1..]);
    }
  }

  lemma NothingInside(r: Chan, steps: seq<Step>)
    requires Shape(r) && r.pc.Idle? && Runs(r, steps) && Inside(r, steps)
    ensures steps == [] && Returns(steps) == 0
  {
  }

  /** Inside process_events no step but a return moves tail or leaves, and none changes the goal. */
  lemma BusyStep(s: Chan, step: Step)
    requires Inv(s) && !s.pc.Idle? && Enabled(s, step)
    ensures Next(s, step).goal == s.goal
    ensures !step.ReturnStep? ==> !Next(s, step).pc.Idle? && Next(s, step).retired == s.retired
    ensures step.ReturnStep? ==> Next(s, step).retired == s.retired + 1
  {
    Facts(s);
    hide Inv, Core, Exec, Build;
    match step
    case BuildStep(req) => BuildLeaves(s, req);
    case FlushStep =>
    case DeviceStep(status) =>
    case PollStep =>
    case CallbackStep =>
    case ReturnStep =>
  }

  /** No completion is lost: when everything built has been announced and the engine has drained to the
      doorbell, one call of process_events retires everything and fires all remaining callbacks. */
  lemma NoLostCompletion(s: Chan)
    requires Reachable(s) && s.pc.Idle? && s.head != s.tail
    requires s.announced == |s.log| && s.count == s.dmacount && s.comp % 8 != 3
    ensures Enabled(s, PollStep) && Poll(s).pc.Retiring?
    ensures Poll(s).goal - s.retired == Active(s) == |s.log| - s.retired && Runs(Poll(s), Rounds(Active(s)))
    ensures var r := After(Poll(s), Rounds(Active(s)));
      r.pc.Idle? && r.head == r.tail && r.retired == |s.log| && r.fired == RequestCalls(s.reqs)
  {
    hide *;
    ReachableInv(s);
    DrainedPoll(s);
    PollReachable(s);
    DrainedByRounds(Poll(s));
  }

  lemma PollReachable(s: Chan)
    requires Reachable(s) && Enabled(s, PollStep)
    ensures Reachable(Poll(s))
  {
    hide Reachable;
    ReachableStep(s, PollStep);
  }

  /** The poll finds that everything has completed. */
  lemma DrainedPoll(s: Chan)
    requires Inv(s) && s.pc.Idle? && s.head != s.tail
    requires s.announced == |s.log| && s.count == s.dmacount && s.comp % 8 != 3
    ensures Shape(s) && Enabled(s, PollStep) && Active(s) == |s.log| - s.retired
    ensures var p := Poll(s);
      && Inv(p) && p.pc.Retiring? && p.retired == s.retired && p.goal == |s.log|
      && p.log == s.log && p.reqs == s.reqs
  {
    hide Live, Linked, Engine, Fired, Reported, Polling, AllEntries, NonEmpty, CompletedAddr, Active, RingSpace;
    PendingIff(s);
    Indices(s);
    assert s.completed == |s.log| > s.retired;
    NothingNewIff(s);
    PollCore(s);
  }

  lemma DrainedByRounds(p: Chan)
    requires Reachable(p) && p.pc.Retiring? && p.goal == |p.log|
    ensures p.retired < p.goal && Runs(p, Rounds(p.goal - p.retired))
    ensures var r := After(p, Rounds(p.goal - p.retired));
      r.pc.Idle? && r.head == r.tail && r.retired == p.goal && r.fired == RequestCalls(p.reqs)
  {
    hide Reachable, Rounds, Runs, After, Inv;
    ReachableInv(p);
    Facts(p);
    RoundsRetire(p);
    ReachableRun(p, Rounds(p.goal - p.retired));
    ReachableInv(After(p, Rounds(p.goal - p.retired)));
    var r := After(p, Rounds(p.goal - p.retired));
    Facts(r);
    Indices(r);
    FiredIsPrefix(r);
  }

  // ---------------------------------------------------------------- every run

  /** Safety of every run from the start, whatever is built, flushed, executed and retired in whatever order. */
  lemma EveryRun(s0: Chan, steps: seq<Step>)
    requires Fresh(s0) && Runs(s0, steps)
    ensures var s := After(s0, steps);
      && Inv(s) && s.fired <= RequestCalls(s.reqs)
      && (s.count == s.dmacount && s.announced == |s.log| && AllExact(s.reqs, s.cfg.maxXfer)
          ==> s.mem == EffectAll(s.reqs, s0.mem))
  {
    hide Reachable;
    FreshReachable(s0);
    ReachableRun(s0, steps);
    var s := After(s0, steps);
    ReachableInv(s);
    FiredIsPrefix(s);
    if s.count == s.dmacount && s.announced == |s.log| && AllExact(s.reqs, s.cfg.maxXfer) {
      PendingIff(s);
      assert s.reqs[..|s.reqs|] == s.reqs;
      MemoryRefinesRequests(s, |s.reqs|);
      assert Ops(s.log[|s.log|..|s.log|]) == [];
    }
  }
}
