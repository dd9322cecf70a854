/** The invariant of the I/OAT channel and its preservation by every step. */
module IoatInvariant {
  import opened Words
  import opened Dma
  import opened IoatModel

  // ---------------------------------------------------------------- the invariant

  /** The wrapping fields are the true counts cut to their width, and one ring slot stays free. */
  predicate Counters(s: Chan) {
    && s.retired <= s.completed <= s.executed <= s.announced <= |s.log| < s.retired + s.cfg.size
    && s.head == |s.log| % U32 && s.tail == s.retired % U32
    && s.dmacount == s.announced % U16 && s.count == s.executed % U16
  }

  /** Every slot knows its own address and links to the following slot. */
  predicate Linked(s: Chan)
    requires Shape(s)
  {
    && (forall i: nat :: i < s.cfg.size ==> s.ring[i].physAddr == s.cfg.Addr(i))
    && (forall i: nat :: i < s.cfg.size ==> s.hw[i].next == s.cfg.Addr(i + 1))
  }

  /** Submission i is still intact in both rings, and asks for a completion exactly if it was the last at some flush. */
  predicate Holds(s: Chan, i: nat)
    requires Shape(s) && i < |s.log|
  {
    && OpOf(s.hw[i % s.cfg.size]) == s.log[i].op
    && s.ring[i % s.cfg.size].fn == s.log[i].fn
    && s.ring[i % s.cfg.size].arg == s.log[i].arg
    && (s.hw[i % s.cfg.size].control.completionUpdate <==> i + 1 in s.asked)
  }

  predicate Live(s: Chan)
    requires Shape(s)
  {
    forall i: nat :: s.retired <= i < |s.log| ==> Holds(s, i)
  }

  /** Either everything announced has been reported, or the last announced descriptor is still to
      be executed and asks for a completion. */
  predicate Marked(s: Chan)
    requires Shape(s)
  {
    || s.completed == s.announced
    || (s.executed < s.announced && s.hw[(s.announced - 1) % s.cfg.size].control.completionUpdate)
  }

  predicate Reported(s: Chan) {
    && s.comp < U64 && (s.completed > 0 ==> CompletedAddr(s.comp) == s.cfg.Addr(s.completed - 1))
    && forall k: nat :: k in s.asked ==> k <= |s.log|
  }

  predicate Polling(s: Chan) {
    match s.pc
    case Idle => s.lastSeen == if s.retired == 0 then 0 else s.cfg.Addr(s.retired - 1)
    case Retiring(t) => s.retired < s.goal <= s.completed && t == s.cfg.Addr(s.goal - 1)
    case Calling(t) => s.retired < s.goal <= s.completed && t == s.cfg.Addr(s.goal - 1)
  }

  function Ops(log: seq<Entry>): (r: seq<Op>)
    ensures |r| == |log|
  {
    seq(|log|, i requires 0 <= i < |log| => log[i].op)
  }

  predicate Engine(s: Chan) {
    s.executed <= |s.log| && s.cur == s.cfg.Addr(s.executed) && s.mem == ExecAll(Ops(s.log[..s.executed]), s.cfg.mem0)
  }

  /** The callbacks in a stretch of the submission log, in order. */
  function Calls(log: seq<Entry>): seq<Call> {
    if log == [] then []
    else
      var e := log[|log| - 1];
      Calls(log[..|log| - 1]) + if e.fn != 0 then [Call(e.fn, e.arg)] else []
  }

  /** The number of descriptors whose callback has been started. */
  function Started(s: Chan): nat {
    s.retired + if s.pc.Calling? then 1 else 0
  }

  predicate Fired(s: Chan) {
    Started(s) <= |s.log| && s.fired == Calls(s.log[..Started(s)])
  }

  /** What holds at every moment, even between two descriptors of one request. */
  predicate Core(s: Chan) {
    && s.cfg.Good() && Shape(s)
    && Counters(s) && Linked(s) && Live(s) && Marked(s) && Reported(s) && Polling(s) && Engine(s) && Fired(s)
  }

  /** The log entries of a request: its operations, with the callback on the last. */
  function Entries(req: Request, max: nat): (r: seq<Entry>)
    requires max > 0
    ensures |r| == |RequestOps(req, max)|
  {
    var ops := RequestOps(req, max);
    seq(|ops|, i requires 0 <= i < |ops| =>
      if i == |ops| - 1 then Entry(ops[i], req.fn, req.arg) else Entry(ops[i], 0, 0))
  }

  function AllEntries(reqs: seq<Request>, max: nat): seq<Entry>
    requires max > 0
  {
    if reqs == [] then []
    else AllEntries(reqs[..|reqs| - 1], max) + Entries(reqs[|reqs| - 1], max)
  }

  /** No accepted request is without descriptors. */
  predicate NonEmpty(reqs: seq<Request>, max: nat)
    requires max > 0
  {
    forall r: nat :: r < |reqs| ==> RequestOps(reqs[r], max) != []
  }

  /** What holds between steps: the log is exactly the accepted requests, in order. */
  predicate Inv(s: Chan) {
    Core(s) && s.log == AllEntries(s.reqs, s.cfg.maxXfer) && NonEmpty(s.reqs, s.cfg.maxXfer)
  }

  // ---------------------------------------------------------------- indices and addresses

  /** Masked arithmetic on two 32-bit counters gives the slots and the distance of the true counts. */
  lemma WrappedIndices(h: nat, t: nat, n: nat, k: nat)
    requires n > 0 && k > 0 && n * k == U32
    ensures (h % U32) % n == h % n
    ensures Sub32(h % U32, 1) % n == (h - 1) % n
    ensures Sub32(h % U32, t % U32) % n == (h - t) % n
  {
    ModOfMod(h, n, k);
    ModOfDifference(h, t, U32);
    ModOfMod(h - t, n, k);
    ModOfDifference(h, 1, U32);
    ModOfMod(h - 1, n, k);
  }

  /** The masked 32-bit arithmetic of the driver computes with the true counts. */
  lemma Indices(s: Chan)
    requires s.cfg.Good() && Counters(s)
    ensures RingIndex(s.cfg, s.head) == |s.log| % s.cfg.size
    ensures RingIndex(s.cfg, s.tail) == s.retired % s.cfg.size
    ensures |s.log| > 0 ==> RingIndex(s.cfg, Sub32(s.head, 1)) == (|s.log| - 1) % s.cfg.size
    ensures Active(s) == |s.log| - s.retired
    ensures RingSpace(s) == s.cfg.size - 1 - (|s.log| - s.retired)
    ensures s.head == s.tail <==> |s.log| == s.retired
  {
    var n, k := s.cfg.size, Pow2(32 - s.cfg.order);
    assert n * k == U32 by { Pow2Add(s.cfg.order, 32 - s.cfg.order); Pow2Values(); }
    WrappedIndices(|s.log|, s.retired, n, k);
    WrappedIndices(s.retired, 0, n, k);
    ModSmall(|s.log| - s.retired, n);
    SizeBelow(s.cfg);
    ModDistinct(s.retired, |s.log|, U32);
  }

  lemma SizeBelow(cfg: Config)
    requires cfg.Good()
    ensures 2 <= cfg.size <= U16
  {
    Pow2Monotone(1, cfg.order);
    Pow2Monotone(cfg.order, 16);
    Pow2Values();
  }

  lemma AddrDistinct(cfg: Config, i: nat, j: nat)
    requires i <= j < i + cfg.size
    ensures cfg.Addr(i) == cfg.Addr(j) <==> i == j
  {
    ModDistinct(i, j, cfg.size);
  }

  /** Addresses are those of ring slots, and a slot is read back from its address. */
  lemma AddrInRing(cfg: Config, i: nat)
    requires cfg.Good()
    ensures InRing(cfg, cfg.Addr(i)) && 0 < cfg.Addr(i) && cfg.Addr(i) + DESC_BYTES <= U64
    ensures (cfg.Addr(i) - cfg.base) / DESC_BYTES == i % cfg.size
    ensures cfg.Addr(i) % DESC_BYTES == 0
  {
    hide Pow2;
    SlotAddr(cfg.base, cfg.size, i % cfg.size);
  }

  lemma SlotAddr(base: nat, size: nat, r: nat)
    requires r < size && base % DESC_BYTES == 0 && base + DESC_BYTES * size <= U64
    ensures var a := base + DESC_BYTES * r;
      && base <= a < base + DESC_BYTES * size && a + DESC_BYTES <= U64
      && (a - base) / DESC_BYTES == r && a % DESC_BYTES == 0
  {
    ModIs(DESC_BYTES * r, DESC_BYTES, r, 0);
    ModIs(base + DESC_BYTES * r, DESC_BYTES, base / DESC_BYTES + r, 0);
  }

  lemma AddrOfSlot(cfg: Config, i: nat)
    requires cfg.size > 0
    ensures cfg.Addr(i % cfg.size) == cfg.Addr(i)
    ensures cfg.Addr(i % cfg.size + 1) == cfg.Addr(i + 1)
  {
    ModSmall(i % cfg.size, cfg.size);
    ModNext(i, cfg.size);
    ModNext(i % cfg.size, cfg.size);
  }

  /** The completion mask recovers the address from an address combined with a status. */
  lemma MaskedStatus(a: nat, status: nat)
    requires a % DESC_BYTES == 0 && a + DESC_BYTES <= U64 && status < DESC_BYTES
    ensures CompletedAddr(a + status) == a && a + status < U64
  {
    ModIs(a + status, 64, a / 64, status);
  }

  // ---------------------------------------------------------------- start

  lemma FreshInv(s: Chan)
    requires Fresh(s)
    ensures Inv(s)
  {
    ModSmall(0, U32);
    ModSmall(0, U16);
    SizeBelow(s.cfg);
    assert Ops(s.log[..0]) == [];
    assert s.log[..Started(s)] == [];
    assert s.ring == seq(s.cfg.size, i requires 0 <= i < s.cfg.size => LinkedDesc(s.cfg, i));
  }

  // ---------------------------------------------------------------- writing descriptors

  /** Prep leaves alone every slot but the one at head; in particular the live ones and the reserved one. */
  lemma PrepFrame(s: Chan, op: Op, i: nat)
    requires Core(s) && RingSpace(s) >= 1 && s.retired <= i + 1 && i < |s.log|
    ensures i % s.cfg.size != |s.log| % s.cfg.size
    ensures Prep(s, op).hw[i % s.cfg.size] == s.hw[i % s.cfg.size]
    ensures Prep(s, op).ring[i % s.cfg.size] == s.ring[i % s.cfg.size]
  {
    Indices(s);
    ModDistinct(i, |s.log|, s.cfg.size);
  }

  lemma PrepLive(s: Chan, op: Op)
    requires Core(s) && RingSpace(s) >= 1
    ensures Live(Prep(s, op))
  {
    var r := Prep(s, op);
    Indices(s);
    forall i: nat | r.retired <= i < |r.log| ensures Holds(r, i) {
      if i < |s.log| {
        assert Holds(s, i);
        PrepFrame(s, op, i);
      }
    }
  }

  lemma PrepCounters(s: Chan, op: Op)
    requires Core(s) && RingSpace(s) >= 1
    ensures Counters(Prep(s, op))
  {
    hide Live, Linked, Marked, Engine, Fired, Reported, Polling, Active, RingSpace, RingIndex;
    Indices(s);
    ModNext(|s.log|, U32);
    ModNext(|s.log| % U32, U32);
  }

  lemma PrepLinked(s: Chan, op: Op)
    requires Core(s)
    ensures Linked(Prep(s, op))
  {
  }

  lemma PrepMarked(s: Chan, op: Op)
    requires Core(s) && RingSpace(s) >= 1
    ensures Marked(Prep(s, op))
  {
    if s.completed != s.announced { PrepFrame(s, op, s.announced - 1); }
  }

  lemma PrepEngine(s: Chan, op: Op)
    requires Core(s)
    ensures Engine(Prep(s, op)) && Fired(Prep(s, op))
  {
    hide Live, Linked, Marked, ExecAll, Calls, Counters, Reported, Polling, Config.Addr, Config.Good, HwFor;
    var r := Prep(s, op);
    assert r.log[..r.executed] == s.log[..s.executed];
    assert r.log[..Started(r)] == s.log[..Started(s)];
  }

  lemma PrepRest(s: Chan, op: Op)
    requires Core(s)
    ensures var r := Prep(s, op); Shape(r) && r.cfg == s.cfg && Reported(r) && Polling(r)
  {
    hide Live, Linked, Marked, Engine, Fired, Counters, Config.Addr, Config.Good, CompletedAddr, HwFor;
  }

  lemma PrepCore(s: Chan, op: Op)
    requires Core(s) && RingSpace(s) >= 1
    ensures Core(Prep(s, op))
  {
    hide Live, Linked, Marked, Engine, Fired, Polling, Counters, Reported, Prep, RingSpace;
    PrepLive(s, op);
    PrepCounters(s, op);
    PrepLinked(s, op);
    PrepMarked(s, op);
    PrepEngine(s, op);
    PrepRest(s, op);
  }

  // ---------------------------------------------------------------- building requests

  /** r differs from s only in head, log and ring slots outside the live range and the reserved slot. */
  predicate Extends(s: Chan, r: Chan)
    requires Shape(s)
  {
    && Shape(r) && r == s.(ring := r.ring, hw := r.hw, head := r.head, log := r.log)
    && (forall i: nat :: s.retired <= i + 1 && i < |s.log| ==> Untouched(s, r, i))
  }

  predicate Untouched(s: Chan, r: Chan, i: nat)
    requires Shape(s) && Shape(r) && r.cfg == s.cfg
  {
    r.hw[i % s.cfg.size] == s.hw[i % s.cfg.size] && r.ring[i % s.cfg.size] == s.ring[i % s.cfg.size]
  }

  /** Log entries without callbacks. */
  function Plain(ops: seq<Op>): (r: seq<Entry>)
    ensures |r| == |ops|
  {
    seq(|ops|, i requires 0 <= i < |ops| => Entry(ops[i], 0, 0))
  }

  lemma PrepExtends(s: Chan, op: Op)
    requires Core(s) && RingSpace(s) >= 1
    ensures Extends(s, Prep(s, op)) && |Prep(s, op).log| == |s.log| + 1
  {
    forall i: nat | s.retired <= i + 1 && i < |s.log| ensures Untouched(s, Prep(s, op), i) {
      PrepFrame(s, op, i);
    }
  }

  lemma ExtendsTrans(a: Chan, b: Chan, c: Chan)
    requires Shape(a) && Extends(a, b) && Extends(b, c) && |a.log| <= |b.log|
    ensures Extends(a, c)
  {
    forall i: nat | a.retired <= i + 1 && i < |a.log| ensures Untouched(a, c, i) {
      assert Untouched(a, b, i) && Untouched(b, c, i);
    }
  }

  lemma PrepSpace(s: Chan, op: Op)
    requires Core(s) && RingSpace(s) >= 1
    ensures RingSpace(Prep(s, op)) == RingSpace(s) - 1
  {
    PrepCounters(s, op);
    Indices(s);
    Indices(Prep(s, op));
  }

  /** Whether it succeeds or not, issuing keeps the invariant and writes only free slots. */
  lemma {:induction false} IssueCore(s: Chan, ops: seq<Op>)
    requires Core(s)
    ensures Core(Issue(s, ops).0) && Extends(s, Issue(s, ops).0)
    decreases |ops|
  {
    assert Extends(s, s) && Shape(s);
    if ops != [] && RingSpace(s) >= 1 {
      PrepCore(s, ops[0]);
      PrepExtends(s, ops[0]);
      hide Core, Extends, Prep;
      if |ops| > 1 {
        var s1 := Prep(s, ops[0]);
        IssueCore(s1, ops[1..]);
        ExtendsTrans(s, s1, Issue(s1, ops[1..]).0);
      }
    }
  }

  /** Issuing succeeds exactly when every descriptor fits. */
  lemma {:induction false} IssueSucceedsIff(s: Chan, ops: seq<Op>)
    requires Core(s)
    ensures Issue(s, ops).1.Some? <==> 0 < |ops| <= RingSpace(s)
    decreases |ops|
  {
    assert Shape(s);
    if ops != [] && RingSpace(s) >= 1 {
      PrepCore(s, ops[0]);
      PrepSpace(s, ops[0]);
      hide Core, RingSpace, Prep;
      if |ops| > 1 { IssueSucceedsIff(Prep(s, ops[0]), ops[1..]); }
    }
  }

  lemma PlainCons(log: seq<Entry>, ops: seq<Op>)
    requires ops != []
    ensures log + Plain(ops) == (log + [Entry(ops[0], 0, 0)]) + Plain(ops[1..])
  {
  }

  lemma IssueUnfold(s: Chan, ops: seq<Op>)
    requires Core(s) && 0 < |ops| <= RingSpace(s)
    ensures Shape(s)
    ensures var s1 := Prep(s, ops[0]);
      && Shape(s1) && s1.cfg == s.cfg && s1.log == s.log + [Entry(ops[0], 0, 0)]
      && Issue(s, ops) == if |ops| == 1 then (s1, Some(RingIndex(s.cfg, |s.log|))) else Issue(s1, ops[1..])
    ensures |ops| == 1 ==> Plain(ops) == [Entry(ops[0], 0, 0)]
  {
    Indices(s);
  }

  /** Success logs all operations, and the index it returns is that of the last one. */
  lemma {:induction false} IssueLogs(s: Chan, ops: seq<Op>)
    requires Core(s) && 0 < |ops| <= RingSpace(s)
    ensures Issue(s, ops).0.log == s.log + Plain(ops)
    ensures Issue(s, ops).1 == Some(RingIndex(s.cfg, |s.log| + |ops| - 1))
    decreases |ops|
  {
    hide *;
    IssueUnfold(s, ops);
    var s1 := Prep(s, ops[0]);
    PrepCore(s, ops[0]);
    PrepSpace(s, ops[0]);
    PlainCons(s.log, ops);
    if |ops| > 1 {
      assert |s1.log| + |ops[1..]| - 1 == |s.log| + |ops| - 1;
      IssueLogs(s1, ops[1..]);
    }
  }

  lemma RollbackLive(s: Chan, r: Chan)
    requires Core(s) && Core(r) && Extends(s, r)
    ensures Live(Rollback(r, s)) && Linked(Rollback(r, s)) && Marked(Rollback(r, s))
  {
    hide Engine, Fired, Polling, Reported;
    var b := Rollback(r, s);
    forall i: nat | b.retired <= i < |b.log| ensures Holds(b, i) {
      assert Holds(s, i) && Untouched(s, r, i);
    }
    if s.completed != s.announced { assert Untouched(s, r, s.announced - 1); }
  }

  lemma RollbackCore(s: Chan, r: Chan)
    requires Core(s) && Core(r) && Extends(s, r)
    ensures Core(Rollback(r, s))
  {
    hide Live, Linked, Marked, ExecAll, Calls, Untouched;
    RollbackLive(s, r);
  }

  lemma {:induction false} CallsSkipPlain(log: seq<Entry>, ops: seq<Op>)
    ensures Calls(log + Plain(ops)) == Calls(log)
    decreases |ops|
  {
    if ops == [] {
      assert log + Plain(ops) == log;
    } else {
      var k := |ops| - 1;
      assert (log + Plain(ops))[..|log| + k] == log + Plain(ops[..k]);
      CallsSkipPlain(log, ops[..k]);
    }
  }

  lemma AttachLive(s: Chan, req: Request)
    requires Core(s) && |s.log| > 0 && s.retired < |s.log|
    ensures var r := Attach(s, (|s.log| - 1) % s.cfg.size, req); Live(r) && Linked(r) && Marked(r)
  {
    hide Engine, Fired, Polling, Reported;
    var k := |s.log| - 1;
    var r := Attach(s, k % s.cfg.size, req);
    forall i: nat | r.retired <= i < |r.log| ensures Holds(r, i) {
      assert Holds(s, i);
      ModDistinct(i, k, s.cfg.size);
    }
  }

  lemma AttachCore(s: Chan, req: Request)
    requires Core(s) && s.announced < |s.log|
    ensures Core(Attach(s, (|s.log| - 1) % s.cfg.size, req))
  {
    AttachLive(s, req);
    AttachRest(s, req);
    hide Live, Linked, Marked, Engine, Fired, Reported, Polling, Counters, Attach;
  }

  lemma AttachRest(s: Chan, req: Request)
    requires Core(s) && s.announced < |s.log|
    ensures var r := Attach(s, (|s.log| - 1) % s.cfg.size, req);
      Shape(r) && r.cfg == s.cfg && Counters(r) && Reported(r) && Polling(r) && Engine(r) && Fired(r)
  {
    hide Live, Linked, Marked, ExecAll, Calls;
    var r := Attach(s, (|s.log| - 1) % s.cfg.size, req);
    assert Ops(r.log[..r.executed]) == Ops(s.log[..s.executed]);
    assert r.log[..Started(r)] == s.log[..Started(s)];
  }

  /** The log after a successful build is the old log and the request's own entries. */
  lemma AttachLog(log: seq<Entry>, req: Request, max: nat)
    requires max > 0 && RequestOps(req, max) != []
    ensures var l := log + Plain(RequestOps(req, max)); var k := |l| - 1;
      l[k := Entry(l[k].op, req.fn, req.arg)] == log + Entries(req, max)
  {
  }

  /** The requests a build accepts: as many descriptors as the ring has room for, and not an empty fill. */
  predicate Accepts(s: Chan, req: Request) {
    && (req.FillRequest? ==> s.cfg.fillSupported)
    && 0 < |RequestOps(req, s.cfg.maxXfer)| <= RingSpace(s)
  }

  lemma ExtendsFields(s: Chan, r: Chan)
    requires Core(s) && Shape(s) && Extends(s, r)
    ensures Shape(r) && r.cfg == s.cfg && r.reqs == s.reqs && r.announced == s.announced <= |s.log|
  {
  }

  lemma RingIndexIs(cfg: Config, index: nat)
    ensures RingIndex(cfg, index) == index % cfg.size
  {
  }

  /** What a successful issue leaves behind. */
  lemma IssuedFields(s: Chan, ops: seq<Op>, s1: Chan, i: nat)
    requires Core(s) && Shape(s) && Issue(s, ops) == (s1, Some(i))
    ensures Core(s1) && Shape(s1) && s1.cfg == s.cfg && s1.reqs == s.reqs && s1.log == s.log + Plain(ops) && ops != []
    ensures s1.announced < |s1.log| && i == RingIndex(s1.cfg, |s1.log| - 1) && i < s1.cfg.size
  {
    hide *;
    IssueSucceedsIff(s, ops);
    IssueLogs(s, ops);
    IssueCore(s, ops);
    ExtendsFields(s, s1);
  }

  lemma BuildAccepted(s: Chan, req: Request, s1: Chan, i: nat)
    requires Core(s) && Shape(s) && Issue(s, RequestOps(req, s.cfg.maxXfer)) == (s1, Some(i))
    ensures i < s1.cfg.size && |s1.log| > 0 && Shape(s1)
    ensures Core(Attach(s1, i, req))
    ensures Attach(s1, i, req).log == s.log + Entries(req, s.cfg.maxXfer)
    ensures Attach(s1, i, req).reqs == s.reqs + [req]
  {
    hide *;
    IssuedFields(s, RequestOps(req, s.cfg.maxXfer), s1, i);
    RingIndexIs(s1.cfg, |s1.log| - 1);
    AttachCore(s1, req);
    AttachFields(s1, i, req);
    AttachLog(s.log, req, s.cfg.maxXfer);
  }

  lemma AttachFields(s: Chan, i: nat, req: Request)
    requires Shape(s) && i < s.cfg.size && |s.log| > 0
    ensures var k := |s.log| - 1; Attach(s, i, req).log == s.log[k := Entry(s.log[k].op, req.fn, req.arg)]
    ensures Attach(s, i, req).reqs == s.reqs + [req]
  {
  }

  lemma BuildRejected(s: Chan, req: Request, s1: Chan)
    requires Core(s) && Issue(s, RequestOps(req, s.cfg.maxXfer)) == (s1, None)
    ensures Core(Rollback(s1, s)) && Extends(s, Rollback(s1, s))
  {
    IssueCore(s, RequestOps(req, s.cfg.maxXfer));
    assert Extends(s, Rollback(s1, s)) by {
      forall i: nat | s.retired <= i + 1 && i < |s.log| ensures Untouched(s, Rollback(s1, s), i) {
        assert Untouched(s, s1, i);
      }
    }
    RollbackCore(s, s1);
  }

  /** Building succeeds exactly when the request is acceptable; success appends the request's entries
      to the log, and failure changes nothing but free ring slots. */
  lemma BuildOutcome(s: Chan, req: Request)
    requires Core(s)
    ensures var (r, rc) := Build(s, req);
      && Core(r)
      && (rc == 0 <==> Accepts(s, req))
      && (rc == 0 ==> r.log == s.log + Entries(req, s.cfg.maxXfer) && r.reqs == s.reqs + [req])
      && (rc != 0 ==> Extends(s, r) && r.head == s.head && r.log == s.log)
  {
    assert Shape(s) && Extends(s, s);
    hide Core, Extends, Entries, Plain, Issue, Attach;
    if req.FillRequest? && !s.cfg.fillSupported {
    } else {
      IssueSucceedsIff(s, RequestOps(req, s.cfg.maxXfer));
      match Issue(s, RequestOps(req, s.cfg.maxXfer))
      case (s1, Some(i)) => BuildAccepted(s, req, s1, i);
      case (s1, None) => BuildRejected(s, req, s1);
    }
  }

  lemma BuildInv(s: Chan, req: Request)
    requires Inv(s)
    ensures Inv(Build(s, req).0)
  {
    BuildOutcome(s, req);
    var r := Build(s, req).0;
    if r.reqs != s.reqs { assert r.reqs[..|r.reqs| - 1] == s.reqs; }
  }

  // ---------------------------------------------------------------- flush

  lemma FlushCore(s: Chan)
    requires Core(s)
    ensures Core(Flush(s))
  {
    hide Live, Linked, Marked, Engine, Fired, Reported, Polling, Flush;
    FlushLive(s);
    FlushRest(s);
  }

  lemma FlushRest(s: Chan)
    requires Core(s)
    ensures var r := Flush(s);
      Shape(r) && r.cfg == s.cfg && Counters(r) && Reported(r) && Polling(r) && Engine(r) && Fired(r)
  {
    hide Live, Linked, Marked, ExecAll, Calls;
    SizeDividesDoorbell(s);
  }

  lemma FlushLive(s: Chan)
    requires Core(s)
    ensures Live(Flush(s)) && Linked(Flush(s)) && Marked(Flush(s))
  {
    hide Engine, Fired, Reported, Polling, Active, RingSpace;
    Indices(s);
    var r := Flush(s);
    forall i: nat | r.retired <= i < |r.log| ensures Holds(r, i) {
      assert Holds(s, i);
      ModDistinct(i, |s.log| - 1, s.cfg.size);
    }
  }

  /** The low 16 bits of the 32-bit head are the low 16 bits of the true count. */
  lemma SizeDividesDoorbell(s: Chan)
    requires Counters(s)
    ensures s.head % U16 == |s.log| % U16
  {
    ModOfMod(|s.log|, U16, U16);
  }

  // ---------------------------------------------------------------- the engine

  /** The engine has work exactly when its 16-bit count differs from the doorbell. */
  lemma PendingIff(s: Chan)
    requires s.cfg.Good() && Counters(s)
    ensures s.count != s.dmacount <==> s.executed < s.announced
  {
    SizeBelow(s.cfg);
    ModDistinct(s.executed, s.announced, U16);
  }

  /** The engine's pointer is at the slot of the next submission, which is intact. */
  lemma FetchesNext(s: Chan)
    requires Core(s) && s.executed < s.announced
    ensures Fetch(s, s.cur) == s.hw[s.executed % s.cfg.size]
    ensures OpOf(Fetch(s, s.cur)) == s.log[s.executed].op
    ensures Fetch(s, s.cur).next == s.cfg.Addr(s.executed + 1)
  {
    AddrInRing(s.cfg, s.executed);
    AddrOfSlot(s.cfg, s.executed);
    assert Holds(s, s.executed);
  }

  lemma DeviceEngine(s: Chan, status: nat)
    requires Core(s) && s.executed < s.announced && status < DESC_BYTES
    ensures Engine(Device(s, status)) && Fired(Device(s, status))
  {
    hide Live, Linked, Marked, Reported, Polling, Fetch, OpOf, Calls, ExecAll, Ops, Exec, Config.Addr, Config.Good;
    FetchesNext(s);
    NextOps(s.log, s.executed, s.cfg.mem0);
  }

  lemma NextOps(log: seq<Entry>, k: nat, m: Memory)
    requires k < |log|
    ensures ExecAll(Ops(log[..k + 1]), m) == Exec(log[k].op, ExecAll(Ops(log[..k]), m))
  {
    hide Exec;
    assert Ops(log[..k + 1])[..k] == Ops(log[..k]);
  }

  lemma DeviceReported(s: Chan, status: nat)
    requires Core(s) && s.executed < s.announced && status < DESC_BYTES
    ensures Reported(Device(s, status))
  {
    hide Exec, Live, Linked, Marked, Fetch, CompletedAddr, Polling, Fired, ExecAll, Ops, Config.Addr;
    AddrInRing(s.cfg, s.executed);
    MaskedStatus(s.cfg.Addr(s.executed), status);
  }

  lemma DevicePolling(s: Chan, status: nat)
    requires Core(s) && s.executed < s.announced
    ensures Polling(Device(s, status))
  {
    hide ExecAll, Calls, OpOf, Fired, Exec, Live, Linked, Marked, Fetch, Engine, Reported;
  }

  lemma DeviceMarked(s: Chan, status: nat)
    requires Core(s) && s.executed < s.announced
    ensures Marked(Device(s, status))
  {
    hide ExecAll, Calls, OpOf, Fired, Exec, Live, Linked, Fetch, Polling, Reported, Engine;
    FetchesNext(s);
  }

  lemma DeviceCore(s: Chan, status: nat)
    requires Core(s) && s.count != s.dmacount && status < DESC_BYTES
    ensures Core(Device(s, status))
  {
    hide Live, Linked, Marked, Engine, Fired, Reported, Polling, Counters, Device;
    PendingIff(s);
    DeviceEngine(s, status);
    DeviceReported(s, status);
    DevicePolling(s, status);
    DeviceMarked(s, status);
    DeviceLive(s, status);
    DeviceCounters(s, status);
  }

  lemma DeviceCounters(s: Chan, status: nat)
    requires Core(s) && s.executed < s.announced
    ensures var r := Device(s, status); Shape(r) && r.cfg == s.cfg && Counters(r)
  {
    hide Live, Linked, Marked, Engine, Fired, Reported, Polling;
    ModNext(s.executed, U16);
    ModNext(s.executed % U16, U16);
  }

  lemma DeviceLive(s: Chan, status: nat)
    requires Core(s)
    ensures Live(Device(s, status)) && Linked(Device(s, status))
  {
    var r := Device(s, status);
    forall i: nat | r.retired <= i < |r.log| ensures Holds(r, i) {
      assert Holds(s, i);
    }
  }

  // ---------------------------------------------------------------- process_events

  lemma PollCore(s: Chan)
    requires Core(s) && Enabled(s, PollStep)
    ensures Core(Poll(s))
  {
    hide Live, Linked, Marked, Engine, Fired, Reported, Polling, Counters, Poll, Enabled;
    PollLive(s);
    PollRest(s);
  }

  lemma PollRest(s: Chan)
    requires Core(s) && Enabled(s, PollStep)
    ensures var r := Poll(s);
      Shape(r) && r.cfg == s.cfg && Counters(r) && Reported(r) && Polling(r) && Engine(r) && Fired(r)
  {
    hide Live, Linked, Marked, ExecAll, Calls, Config.Addr, CompletedAddr, Halted, Active, RingSpace, Config.Good;
    if s.completed > 0 { NothingNewIff(s); }
    Indices(s);
  }

  lemma PollLive(s: Chan)
    requires Core(s)
    ensures Live(Poll(s)) && Linked(Poll(s)) && Marked(Poll(s))
  {
    hide Engine, Fired, Polling, Reported;
    var r := Poll(s);
    forall i: nat | r.retired <= i < |r.log| ensures Holds(r, i) {
      assert Holds(s, i);
    }
  }

  /** No ABA: the completed address equals last_seen exactly when nothing new has completed. */
  lemma NothingNewIff(s: Chan)
    requires Core(s) && s.pc.Idle? && s.completed > 0
    ensures CompletedAddr(s.comp) == s.lastSeen <==> s.completed == s.retired
  {
    AddrInRing(s.cfg, s.completed - 1);
    if s.retired > 0 { AddrDistinct(s.cfg, s.retired - 1, s.completed - 1); }
  }

  lemma CallbackFires(s: Chan)
    requires Core(s) && s.pc.Retiring?
    ensures Fired(Callback(s))
  {
    hide Linked, Marked, Engine, Reported, OpOf, Active, RingSpace, Config.Addr;
    var k := s.retired;
    Indices(s);
    assert Holds(s, k);
    assert s.log[..k + 1][..k] == s.log[..k];
  }

  lemma CallbackRest(s: Chan)
    requires Core(s) && s.pc.Retiring?
    ensures var r := Callback(s);
      Shape(r) && r.cfg == s.cfg && Counters(r) && Polling(r) && Engine(r) && Reported(r)
  {
    hide Live, Linked, Marked, ExecAll, Calls;
  }

  lemma CallbackLive(s: Chan)
    requires Core(s) && s.pc.Retiring?
    ensures Live(Callback(s)) && Linked(Callback(s)) && Marked(Callback(s))
  {
    hide Engine, Fired, Reported, Polling;
    var r := Callback(s);
    forall i: nat | r.retired <= i < |r.log| ensures Holds(r, i) {
      assert Holds(s, i);
    }
  }

  lemma CallbackCore(s: Chan)
    requires Core(s) && s.pc.Retiring?
    ensures Core(Callback(s))
  {
    hide Live, Linked, Marked, Engine, Fired, Polling, Counters, Reported, Callback;
    CallbackFires(s);
    CallbackLive(s);
    CallbackRest(s);
  }

  /** The loop ends exactly at the completed descriptor. */
  lemma ReturnPolling(s: Chan)
    requires Core(s) && s.pc.Calling?
    ensures Polling(Return(s))
    ensures Return(s).pc.Idle? <==> s.retired + 1 == s.goal
  {
    hide Live, Marked, Engine, Fired, Reported, Active, RingSpace, Config.Addr, Pow2;
    Indices(s);
    AddrOfSlot(s.cfg, s.retired);
    AddrDistinct(s.cfg, s.retired, s.goal - 1);
  }

  lemma ReturnRest(s: Chan)
    requires Core(s) && s.pc.Calling?
    ensures var r := Return(s); Shape(r) && r.cfg == s.cfg && Engine(r) && Fired(r) && Reported(r)
  {
    hide Live, Linked, Marked, Counters, ExecAll, Calls;
  }

  lemma ReturnCounters(s: Chan)
    requires Core(s) && s.pc.Calling?
    ensures Counters(Return(s))
  {
    hide Live, Linked, Marked, Engine, Fired, Reported;
    ModNext(s.retired, U32);
    ModNext(s.retired % U32, U32);
  }

  lemma ReturnLive(s: Chan)
    requires Core(s) && s.pc.Calling?
    ensures Live(Return(s)) && Linked(Return(s)) && Marked(Return(s))
  {
    hide Engine, Fired, Reported, Polling;
    var r := Return(s);
    forall i: nat | r.retired <= i < |r.log| ensures Holds(r, i) {
      assert Holds(s, i);
    }
  }

  lemma ReturnCore(s: Chan)
    requires Core(s) && s.pc.Calling?
    ensures Core(Return(s))
  {
    hide Live, Linked, Marked, Engine, Fired, Polling, Counters, Reported, Return;
    ReturnPolling(s);
    ReturnRest(s);
    ReturnCounters(s);
    ReturnLive(s);
  }

  // ---------------------------------------------------------------- every step and every run

  lemma NextInv(s: Chan, step: Step)
    requires Inv(s) && Enabled(s, step)
    ensures Inv(Next(s, step))
  {
    hide Core, AllEntries, NonEmpty;
    match step
    case BuildStep(req) => BuildInv(s, req);
    case FlushStep => FlushCore(s);
    case DeviceStep(status) => DeviceCore(s, status);
    case PollStep => PollCore(s);
    case CallbackStep => CallbackCore(s);
    case ReturnStep => ReturnCore(s);
  }

  lemma {:induction false} RunInv(s: Chan, steps: seq<Step>)
    requires Inv(s) && Runs(s, steps)
    ensures Inv(After(s, steps))
    decreases |steps|
  {
    if steps != [] {
      NextInv(s, steps[0]);
      RunInv(Next(s, steps[0]), steps[1..]);
    }
  }

  // ---------------------------------------------------------------- reachable states

  ghost predicate Follows(s: Chan, r: Chan) {
    Shape(s) && exists step: Step :: Enabled(s, step) && r == Next(s, step)
  }

  /** State i of a trace is fresh, or follows from the state before by some step. */
  ghost predicate Arises(t: seq<Chan>, i: nat)
    requires i < |t|
  {
    if i == 0 then Fresh(t[0])
    else Follows(t[i - 1], t[i])
  }

  ghost predicate Trace(t: seq<Chan>) {
    |t| > 0 && forall i: nat :: i < |t| ==> Arises(t, i)
  }

  ghost predicate Reachable(s: Chan) {
    s.cfg.Good() && Shape(s) && exists t: seq<Chan> :: Trace(t) && t[|t| - 1] == s
  }

  lemma {:induction false} TraceInv(t: seq<Chan>, i: nat)
    requires Trace(t) && i < |t|
    ensures Inv(t[i])
  {
    hide Inv, Fresh, Enabled, Next, Shape;
    assert Arises(t, i);
    if i == 0 {
      FreshInv(t[0]);
    } else {
      TraceInv(t, i - 1);
      var step :| Enabled(t[i - 1], step) && t[i] == Next(t[i - 1], step);
      NextInv(t[i - 1], step);
    }
  }

  /** Every reachable state has the invariant. */
  lemma ReachableInv(s: Chan)
    requires Reachable(s)
    ensures Inv(s)
  {
    hide Inv, Fresh, Shape;
    var t :| Trace(t) && t[|t| - 1] == s;
    TraceInv(t, |t| - 1);
  }

  lemma FreshReachable(s: Chan)
    requires Fresh(s)
    ensures Reachable(s)
  {
    assert Trace([s]);
  }

  lemma ReachableStep(s: Chan, step: Step)
    requires Reachable(s) && Enabled(s, step)
    ensures Reachable(Next(s, step))
  {
    hide Fresh, Enabled, Next, Shape;
    var t :| Trace(t) && t[|t| - 1] == s;
    var r := t + [Next(s, step)];
    forall i: nat | i < |r| ensures Arises(r, i) {
      if i < |t| {
        assert Arises(t, i);
        assert r[i] == t[i] && (i > 0 ==> r[i - 1] == t[i - 1]);
      } else {
        assert r[i - 1] == s && r[i] == Next(s, step);
      }
    }
    assert Trace(r) && r[|r| - 1] == Next(s, step);
  }

  /** Runs lead from reachable states to reachable states. */
  lemma {:induction false} ReachableRun(s: Chan, steps: seq<Step>)
    requires Reachable(s) && Runs(s, steps)
    ensures Reachable(After(s, steps))
    decreases |steps|
  {
    hide Next, Enabled;
    if steps != [] {
      ReachableStep(s, steps[0]);
      ReachableRun(Next(s, steps[0]), steps[1..]);
    }
  }
}
