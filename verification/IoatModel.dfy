/** The I/OAT channel as a state machine: the driver's fields and rings, the registers it shares
    with the engine, the engine itself, and the history of a run.  Driver and engine steps
    interleave freely; a callback is a window in which the driver may build and flush again. */
module IoatModel {
  import opened Words
  import opened Dma

  const OP_COPY: nat := 0
  const OP_FILL: nat := 1
  const STATUS_HALTED: nat := 3
  const STATUS_MASK: nat := 7
  const COMPLETED_MASK: nat := 0xFFFF_FFFF_FFFF_FFC0
  const DESC_BYTES: nat := 64
  const ENOMEM: int := 12

  // ---------------------------------------------------------------- data

  /** What the start-up code fixes for the life of a channel. */
  datatype Config = Config(
    order: nat, size: pos, xferOrder: nat, maxXfer: pos, fillSupported: bool, base: nat, mem0: Memory) {
    /** The bus address of the descriptor that submission number i uses. */
    function Addr(i: nat): nat { base + DESC_BYTES * (i % size) }

    /** The ring order fits the 16-bit doorbell, transfers are limited to 4 KiB .. 4 GiB, and the
        descriptors are aligned to 64 bytes inside the 64-bit address space, not at address 0. */
    predicate Good() {
      && 1 <= order <= 16 && size == Pow2(order)
      && 12 <= xferOrder <= 32 && maxXfer == Pow2(xferOrder)
      && 0 < base && base % DESC_BYTES == 0 && base + DESC_BYTES * size <= U64
    }
  }

  datatype Control = Control(op: nat, isNull: bool, completionUpdate: bool)

  /** A hardware descriptor; copy and fill descriptors share this layout. */
  datatype HwDesc = HwDesc(size: nat, control: Control, src: nat, dest: nat, next: nat)

  /** The driver's own descriptor; callback function 0 is the null pointer. */
  datatype Desc = Desc(physAddr: nat, fn: nat, arg: nat)

  datatype Call = Call(fn: nat, arg: nat)

  datatype Request =
    | CopyRequest(dst: nat, src: nat, n: nat, fn: nat, arg: nat)
    | FillRequest(dst: nat, pattern: nat, n: nat, fn: nat, arg: nat)

  /** One submitted descriptor: what it does and the callback that goes with it. */
  datatype Entry = Entry(op: Op, fn: nat, arg: nat)

  /** Where process_events stands: not running, about to retire the descriptor at tail, or inside
      its callback; target is the completed descriptor it read. */
  datatype Pc = Idle | Retiring(target: nat) | Calling(target: nat)

  datatype Chan = Chan(
    cfg: Config,
    head: nat, tail: nat, lastSeen: nat,                            // driver fields
    ring: seq<Desc>, hw: seq<HwDesc>,                               // the two rings
    dmacount: nat, comp: nat,                                       // register and completion word
    pc: Pc,
    cur: nat, count: nat, mem: Memory,                              // engine
    log: seq<Entry>, reqs: seq<Request>, fired: seq<Call>,          // history
    retired: nat, completed: nat, executed: nat, announced: nat,    // true counts
    goal: nat,                                                      // count the running poll retires up to
    asked: set<nat>)                                                // counts at which flushes asked for a completion

  predicate Shape(s: Chan) {
    |s.ring| == |s.hw| == s.cfg.size
  }

  // ---------------------------------------------------------------- driver arithmetic

  function Sub32(a: nat, b: nat): nat {
    (a - b) % U32
  }

  function RingIndex(cfg: Config, index: nat): nat {
    index % cfg.size
  }

  function Active(s: Chan): nat {
    Sub32(s.head, s.tail) % s.cfg.size
  }

  function RingSpace(s: Chan): nat {
    s.cfg.size - Active(s) - 1
  }

  /** The address part of the completion word. */
  function CompletedAddr(comp: nat): nat {
    comp - comp % DESC_BYTES
  }

  predicate Halted(comp: nat) {
    comp % (STATUS_MASK + 1) == STATUS_HALTED
  }

  /** The driver computes these values with bit masks. */
  lemma MasksAreRemainders(cfg: Config, x: nat)
    requires cfg.Good()
    ensures BitAnd(x, cfg.size - 1) == x % cfg.size
    ensures x < U64 ==> BitAnd(x, COMPLETED_MASK) == CompletedAddr(x)
    ensures BitAnd(x, STATUS_MASK) == x % (STATUS_MASK + 1)
  {
    MaskIsMod(x, cfg.order);
    MaskIsMod(x, 3);
    assert Pow2(3) == 8;
    Pow2Values();
    if x < U64 { ClearMaskIsRoundDown(x, 6, 64); }
  }

  // ---------------------------------------------------------------- descriptors

  /** The descriptor the driver writes for an operation; the control word is cleared first. */
  function HwFor(op: Op, next: nat): HwDesc {
    match op
    case Null => HwDesc(8, Control(OP_COPY, true, false), 0, 0, next)
    case Copy(dst, src, len) => HwDesc(len, Control(OP_COPY, false, false), src, dst, next)
    case Fill(dst, pattern, len) => HwDesc(len, Control(OP_FILL, false, false), pattern, dst, next)
  }

  /** What the engine makes of a descriptor: its operation codes are 0 for a copy and 1 for a fill. */
  function OpOf(d: HwDesc): Op {
    if d.control.op == 0x01 then Fill(d.dest, d.src, d.size)
    else if d.control.op == 0x00 && !d.control.isNull then Copy(d.dest, d.src, d.size)
    else Null
  }

  /** The operations a request turns into. */
  function RequestOps(req: Request, max: nat): seq<Op>
    requires max > 0
  {
    match req
    case CopyRequest(dst, src, n, _, _) => if n == 0 then [Null] else CopyOps(dst, src, n, max)
    case FillRequest(dst, pattern, n, _, _) => if n == 0 then [] else FillOps(dst, pattern, n, max)
  }

  // ---------------------------------------------------------------- driver steps

  /** Write one descriptor at head and advance head. */
  function Prep(s: Chan, op: Op): Chan
    requires Shape(s)
  {
    var i := RingIndex(s.cfg, s.head);
    s.(ring := s.ring[i := Desc(s.ring[i].physAddr, 0, 0)],
       hw := s.hw[i := HwFor(op, s.hw[i].next)],
       head := (s.head + 1) % U32,
       log := s.log + [Entry(op, 0, 0)])
  }

  /** Write descriptors until all are written or the ring is full; the index of the last one. */
  function Issue(s: Chan, ops: seq<Op>): (r: (Chan, Option<nat>))
    requires Shape(s)
    ensures Shape(r.0) && r.0.cfg == s.cfg
    ensures r.1.Some? ==> r.1.value < s.cfg.size && |r.0.log| > 0
    decreases |ops|
  {
    if ops == [] || RingSpace(s) < 1 then (s, None)
    else
      var s1 := Prep(s, ops[0]);
      if |ops| == 1 then (s1, Some(RingIndex(s.cfg, s.head))) else Issue(s1, ops[1..])
  }

  /** Take back every descriptor written since the state before. */
  function Rollback(s: Chan, before: Chan): Chan {
    s.(head := before.head, log := before.log)
  }

  /** Put the request's callback on the descriptor at index i, the last one written. */
  function Attach(s: Chan, i: nat, req: Request): Chan
    requires Shape(s) && i < s.cfg.size && |s.log| > 0
  {
    var k := |s.log| - 1;
    s.(ring := s.ring[i := Desc(s.ring[i].physAddr, req.fn, req.arg)],
       log := s.log[k := Entry(s.log[k].op, req.fn, req.arg)],
       reqs := s.reqs + [req])
  }

  /** build_copy and build_fill: the new state and the return code. */
  function Build(s: Chan, req: Request): (r: (Chan, int))
    requires Shape(s)
    ensures Shape(r.0) && r.0.cfg == s.cfg
  {
    if req.FillRequest? && !s.cfg.fillSupported then (s, -1)
    else
      var (s1, last) := Issue(s, RequestOps(req, s.cfg.maxXfer));
      match last
      case Some(i) => (Attach(s1, i, req), 0)
      case None => (Rollback(s1, s), -ENOMEM)
  }

  /** Ask for a completion at the last descriptor and tell the engine the new count. */
  function Flush(s: Chan): Chan
    requires Shape(s)
  {
    var i := RingIndex(s.cfg, Sub32(s.head, 1));
    var d := s.hw[i];
    s.(hw := s.hw[i := d.(control := d.control.(completionUpdate := true))],
       dmacount := s.head % U16,
       announced := |s.log|,
       asked := s.asked + {|s.log|})
  }

  /** The start of process_events: what, if anything, is to be retired. */
  function Poll(s: Chan): Chan {
    if s.head == s.tail then s
    else if Halted(s.comp) then s
    else if CompletedAddr(s.comp) == s.lastSeen then s
    else s.(pc := Retiring(CompletedAddr(s.comp)), goal := s.completed)
  }

  /** Run the callback of the descriptor at tail, if it has one. */
  function Callback(s: Chan): Chan
    requires Shape(s) && s.pc.Retiring?
  {
    var d := s.ring[RingIndex(s.cfg, s.tail)];
    s.(pc := Calling(s.pc.target),
       fired := if d.fn != 0 then s.fired + [Call(d.fn, d.arg)] else s.fired)
  }

  /** After the callback: move tail and decide whether to go round again. */
  function Return(s: Chan): Chan
    requires Shape(s) && s.pc.Calling?
  {
    var a := s.ring[RingIndex(s.cfg, s.tail)].physAddr;
    var s1 := s.(tail := (s.tail + 1) % U32, retired := s.retired + 1);
    if a != s.pc.target then s1.(pc := Retiring(s.pc.target)) else s1.(pc := Idle, lastSeen := a)
  }

  // ---------------------------------------------------------------- engine step

  predicate InRing(cfg: Config, a: nat) {
    cfg.base <= a < cfg.base + DESC_BYTES * cfg.size
  }

  /** The descriptor at a bus address; a null descriptor outside the ring. */
  function Fetch(s: Chan, a: nat): HwDesc
    requires Shape(s)
  {
    if InRing(s.cfg, a) then s.hw[(a - s.cfg.base) / DESC_BYTES] else HwFor(Null, 0)
  }

  /** Execute the current descriptor, follow its next pointer, and report completion if asked to.
      The reported word is the descriptor address with the channel status in its low bits. */
  function Device(s: Chan, status: nat): Chan
    requires Shape(s)
  {
    var d := Fetch(s, s.cur);
    var s1 := s.(mem := Exec(OpOf(d), s.mem), cur := d.next, count := (s.count + 1) % U16, executed := s.executed + 1);
    if d.control.completionUpdate then s1.(comp := s.cur + status, completed := s.executed + 1) else s1
  }

  // ---------------------------------------------------------------- runs

  datatype Step =
    | BuildStep(req: Request)
    | FlushStep
    | DeviceStep(status: nat)
    | PollStep
    | CallbackStep
    | ReturnStep

  /** The completion word can be read: nothing is outstanding, or the engine has written the word, or the word
      holds no address yet. */
  predicate Readable(s: Chan) {
    s.head == s.tail || s.completed > 0 || Halted(s.comp) || CompletedAddr(s.comp) == 0
  }

  /** The driver may build and flush outside process_events and inside a callback; the engine may run whenever its
      count differs from the doorbell; process_events may start whenever the completion word can be read. */
  predicate Enabled(s: Chan, step: Step)
  {
    match step
    case BuildStep(req) => !s.pc.Retiring?
    case FlushStep => !s.pc.Retiring?
    case DeviceStep(status) => s.count != s.dmacount && status < DESC_BYTES
    case PollStep => s.pc.Idle? && Readable(s)
    case CallbackStep => s.pc.Retiring?
    case ReturnStep => s.pc.Calling?
  }

  function Next(s: Chan, step: Step): (r: Chan)
    requires Shape(s) && Enabled(s, step)
    ensures Shape(r) && r.cfg == s.cfg
  {
    match step
    case BuildStep(req) => Build(s, req).0
    case FlushStep => Flush(s)
    case DeviceStep(status) => Device(s, status)
    case PollStep => Poll(s)
    case CallbackStep => Callback(s)
    case ReturnStep => Return(s)
  }

  /** steps can be taken one after the other from s. */
  predicate Runs(s: Chan, steps: seq<Step>)
    requires Shape(s)
    decreases |steps|
  {
    steps == [] || (Enabled(s, steps[0]) && Runs(Next(s, steps[0]), steps[1..]))
  }

  function After(s: Chan, steps: seq<Step>): (r: Chan)
    requires Shape(s) && Runs(s, steps)
    ensures Shape(r) && r.cfg == s.cfg
    decreases |steps|
  {
    if steps == [] then s else After(Next(s, steps[0]), steps[1..])
  }

  lemma {:induction false} RunsConcat(s: Chan, a: seq<Step>, b: seq<Step>)
    requires Shape(s) && Runs(s, a) && Runs(After(s, a), b)
    ensures Runs(s, a + b) && After(s, a + b) == After(After(s, a), b)
    decreases |a|
  {
    hide Next, Enabled;
    if a == [] {
      assert a + b == b;
    } else {
      assert (a + b)[1..] == a[1..] + b;
      RunsConcat(Next(s, a[0]), a[1..], b);
    }
  }

  lemma RunsOne(s: Chan, step: Step)
    requires Shape(s) && Enabled(s, step)
    ensures Runs(s, [step]) && After(s, [step]) == Next(s, step)
  {
    assert [step][1..] == [];
  }

  // ---------------------------------------------------------------- start

  /** Slot i of the linked rings. */
  function LinkedDesc(cfg: Config, i: nat): Desc {
    Desc(cfg.Addr(i), 0, 0)
  }

  /** The channel right after the rings are linked and the chain address is written: zeroed
      descriptors, counters at 0, and an arbitrary completion word. */
  ghost predicate Fresh(s: Chan) {
    && s.cfg.Good() && Shape(s)
    && s.head == s.tail == s.lastSeen == s.dmacount == s.count == 0
    && s.pc == Idle && s.cur == s.cfg.Addr(0) && s.comp < U64 && s.mem == s.cfg.mem0
    && s.log == [] && s.reqs == [] && s.fired == [] && s.asked == {}
    && s.retired == s.completed == s.executed == s.announced == s.goal == 0
    && (forall i: nat :: i < s.cfg.size ==> s.ring[i] == LinkedDesc(s.cfg, i))
    && (forall i: nat :: i < s.cfg.size ==> s.hw[i].next == s.cfg.Addr(i + 1))
  }
}
