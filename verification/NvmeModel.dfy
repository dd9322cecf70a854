/** One NVMe queue pair as a state machine: the driver's queues, request table and PRP list pages, the
    controller, and the history of a run.  A callback is a window in which the driver may submit and poll
    again, to any depth. */
module NvmeModel {
  import opened Words
  import opened Prp

  const OPC_WRITE: nat := 1
  const OPC_READ: nat := 2
  const FUA: nat := 0x4000_0000

  // ---------------------------------------------------------------- data

  /** Queue size (one slot stays empty), page size, block size exponent, namespace, and the bus address of the
      PRP list pages. */
  datatype Config = Config(q: pos, page: pos, blkshift: nat, nsid: nat, listBase: nat) {
    function Slots(): nat { q - 1 }

    /** Entries in one PRP list page. */
    function Room(): nat { page / ENTRY_BYTES }

    predicate Good() {
      && 2 <= q <= 256
      && 2 * ENTRY_BYTES <= page < U32 && page % ENTRY_BYTES == 0
      && listBase % page == 0
    }
  }

  datatype Cmd = Cmd(opcode: nat, cid: nat, nsid: nat, prp1: nat, prp2: nat, cdw10: nat, cdw11: nat, cdw12: nat)

  /** A completion entry; bit 0 of the 16-bit status word is the phase tag. */
  datatype Cqe = Cqe(cid: nat, status: nat)

  datatype Req = Req(cb: nat, arg: nat, cid: nat, isUsed: bool)

  datatype Io = Io(offset: nat, bytes: nat, iov: seq<Segment>, isWrite: bool, fua: bool, cb: nat, arg: nat)

  /** A callback that has run, with the return code it was given. */
  datatype Fired = Fired(cb: nat, arg: nat, rc: int)

  /** A submission as its submitter saw it: the command, the page list, and the callback. */
  datatype Sub = Sub(cmd: Cmd, list: seq<nat>, cb: nat, arg: nat)

  /** A posted completion: which submission it completes, and the status field above the phase tag. */
  datatype Post = Post(sub: nat, code: nat)

  /** A callback in progress: the CID it completes and the number of the completion. */
  datatype Frame = Frame(cid: nat, post: nat)

  datatype Qp = Qp(
    cfg: Config,
    sq: seq<Cmd>, sqTail: nat, sqDoorbell: nat,
    cq: seq<Cqe>, cqHead: nat, cqPhase: nat, cqDoorbell: nat,
    reqs: seq<Req>, reqNext: nat, prp: seq<nat>,
    needKick: nat, inflight: int,
    calling: seq<Frame>,
    devHead: nat, devTail: nat, devPhase: nat, exec: map<nat, Cmd>,        // controller
    subs: seq<Sub>, fetched: nat, posted: seq<Post>, consumed: nat, released: nat,   // history
    fired: seq<Fired>, owner: seq<nat>, postedAt: map<nat, nat>)

  predicate Shape(s: Qp) {
    && |s.sq| == |s.cq| == s.cfg.q
    && |s.reqs| == |s.owner| == s.cfg.Slots()
    && |s.prp| == s.cfg.Slots() * s.cfg.Room()
    && s.sqTail < s.cfg.q && s.cqHead < s.cfg.q && s.devHead < s.cfg.q && s.devTail < s.cfg.q
  }

  // ---------------------------------------------------------------- request slots

  /** The round-robin search of nvme_get_free_req: the slot found, if any, and the new counter. */
  function Scan(reqs: seq<Req>, next: nat, tries: nat): (r: (Option<nat>, nat))
    requires |reqs| > 0
    ensures r.0.Some? ==> r.0.value < |reqs| && !reqs[r.0.value].isUsed
    decreases tries
  {
    if tries == 0 then (None, next)
    else if reqs[next % |reqs|].isUsed then Scan(reqs, next + 1, tries - 1)
    else (Some(next % |reqs|), next + 1)
  }

  // ---------------------------------------------------------------- commands

  /** The low dword holds the block count minus one; 64-bit arithmetic wraps, then 16 bits are kept. */
  function Cdw12(bytes: nat, blkshift: nat, fua: bool): nat {
    (bytes / Pow2(blkshift) - 1) % U64 % U16 + if fua then FUA else 0
  }

  function ListAddr(cfg: Config, slot: nat): nat {
    cfg.listBase + slot * cfg.page
  }

  /** The command nvme_submit_io builds for a request slot and a page list. */
  function MakeCmd(cfg: Config, io: Io, slot: nat, cid: nat, list: seq<nat>): Cmd
    requires |list| > 0
  {
    var (prp1, prp2) := Pointers(list, ListAddr(cfg, slot));
    var lba := io.offset / Pow2(cfg.blkshift);
    Cmd(if io.isWrite then OPC_WRITE else OPC_READ, cid, cfg.nsid, prp1, prp2,
        lba % U32, lba / U32 % U32, Cdw12(io.bytes, cfg.blkshift, io.fua))
  }

  /** What nvme_submit_io asserts about the scatter list: a whole number of pages in total that fits one list
      page, and at least one list entry. */
  predicate IovAccepted(cfg: Config, iov: seq<Segment>) {
    && TotalLen(iov) % cfg.page == 0
    && TotalLen(iov) / cfg.page <= cfg.Room()
    && |PageList(iov, cfg.page)| > 0
  }

  /** Write the page list into the list page of a slot. */
  function WriteList(prp: seq<nat>, at: nat, list: seq<nat>): (r: seq<nat>)
    requires at + |list| <= |prp|
    ensures |r| == |prp|
  {
    prp[..at] + list + prp[at + |list|..]
  }

  // ---------------------------------------------------------------- submission

  /** Put the command at the tail of the submission queue and ring the doorbell. */
  function Enqueue(s: Qp, cmd: Cmd): Qp
    requires Shape(s)
  {
    var tail := (s.sqTail + 1) % s.cfg.q;
    s.(sq := s.sq[s.sqTail := cmd], sqTail := tail, sqDoorbell := tail,
       inflight := s.inflight + s.needKick + 1, needKick := 0)
  }

  /** Mark a slot as used by submission number |subs| and record the submission. */
  function Claim(s: Qp, slot: nat, next: nat, sub: Sub): Qp
    requires Shape(s) && slot < s.cfg.Slots()
  {
    s.(reqs := s.reqs[slot := Req(sub.cb, sub.arg, s.reqs[slot].cid, true)], reqNext := next,
       owner := s.owner[slot := |s.subs|], subs := s.subs + [sub])
  }

  predicate HasFree(s: Qp)
    requires Shape(s)
  {
    s.cfg.Slots() > 0 && Scan(s.reqs, s.reqNext, s.cfg.Slots()).0.Some?
  }

  /** Claim the slot, write the page list, and enqueue the command. */
  function Submit(s: Qp, slot: nat, next: nat, sub: Sub): (r: Qp)
    requires Shape(s) && slot < s.cfg.Slots() && slot * s.cfg.Room() + |sub.list| <= |s.prp|
    ensures Shape(r) && r.cfg == s.cfg
  {
    Enqueue(Claim(s, slot, next, sub).(prp := WriteList(s.prp, slot * s.cfg.Room(), sub.list)), sub.cmd)
  }

  /** The submission nvme_submit_io makes in a slot. */
  function IoSub(cfg: Config, io: Io, slot: nat, cid: nat): Sub
    requires |PageList(io.iov, cfg.page)| > 0
  {
    var list := PageList(io.iov, cfg.page);
    Sub(MakeCmd(cfg, io, slot, cid, list), list, io.cb, io.arg)
  }

  /** nvme_submit_io on a request that passes its assertions. */
  function SubmitIo(s: Qp, io: Io): (r: Qp)
    requires Shape(s) && s.cfg.Good() && HasFree(s) && IovAccepted(s.cfg, io.iov)
    ensures Shape(r) && r.cfg == s.cfg
  {
    var (found, next) := Scan(s.reqs, s.reqNext, s.cfg.Slots());
    var slot := found.value;
    ListInPage(s.cfg, slot, io.iov);
    Submit(s, slot, next, IoSub(s.cfg, io, slot, s.reqs[slot].cid))
  }

  /** The submission half of nvme_admin_cmd_sync: no page list. */
  function SubmitAdmin(s: Qp, cmd: Cmd, cb: nat, arg: nat): (r: Qp)
    requires Shape(s) && HasFree(s)
    ensures Shape(r) && r.cfg == s.cfg
  {
    var (found, next) := Scan(s.reqs, s.reqNext, s.cfg.Slots());
    var slot := found.value;
    TimesMonotone(slot, s.cfg.Slots(), s.cfg.Room());
    Submit(s, slot, next, Sub(cmd.(cid := s.reqs[slot].cid), [], cb, arg))
  }

  /** An accepted list stays inside the list page of its slot. */
  lemma ListInPage(cfg: Config, slot: nat, iov: seq<Segment>)
    requires slot < cfg.Slots() && TotalLen(iov) / cfg.page <= cfg.Room()
    ensures |PageList(iov, cfg.page)| <= cfg.Room()
    ensures slot * cfg.Room() + |PageList(iov, cfg.page)| <= cfg.Slots() * cfg.Room()
  {
    EntriesFit(iov, cfg.page, cfg.Room());
    AddTimes(slot, 1, cfg.Room());
    TimesMonotone(slot + 1, cfg.Slots(), cfg.Room());
  }

  // ---------------------------------------------------------------- completion

  /** nvme_translate_error: only bits 1..8 of the status word, the status code, are looked at. */
  function Translate(status: nat): int {
    match status / 2 % 256
    case 0 => 0
    case 1 => -38
    case 2 => -22
    case _ => -5
  }

  /** Logical negation of a phase. */
  function Flip(phase: nat): nat {
    if phase == 0 then 1 else 0
  }

  /** The first half of nvme_poll_cq: detect a new entry, step over it and run its callback. */
  function Poll(s: Qp): (r: Qp)
    requires Shape(s)
    ensures Shape(r) && r.cfg == s.cfg
  {
    var e := s.cq[s.cqHead];
    if e.status % 2 == s.cqPhase then s
    else
      var head := (s.cqHead + 1) % s.cfg.q;
      var s1 := s.(cqHead := head, cqPhase := if head == 0 then Flip(s.cqPhase) else s.cqPhase,
                   consumed := s.consumed + 1);
      if e.cid == 0 || e.cid >= s.cfg.q then s1
      else
        var req := s.reqs[e.cid - 1];
        s1.(inflight := s.inflight - 1,
            fired := s.fired + [Fired(req.cb, req.arg, Translate(e.status))],
            calling := s.calling + [Frame(e.cid, s.consumed)])
  }

  /** The second half, after the callback of the innermost poll has returned. */
  function Done(s: Qp): (r: Qp)
    requires Shape(s) && s.calling != []
    ensures Shape(r) && r.cfg == s.cfg
  {
    var k := |s.calling| - 1;
    var slot := s.calling[k].cid - 1;
    var s1 := s.(calling := s.calling[..k], cqDoorbell := s.cqHead, released := s.consumed);
    if 0 <= slot < |s.reqs| then s1.(reqs := s.reqs[slot := s.reqs[slot].(isUsed := false)]) else s1
  }

  // ---------------------------------------------------------------- controller

  /** Fetch the next command from the submission queue. */
  function Fetch(s: Qp): Qp
    requires Shape(s)
  {
    s.(exec := s.exec[s.fetched := s.sq[s.devHead]], devHead := (s.devHead + 1) % s.cfg.q, fetched := s.fetched + 1)
  }

  /** Post the completion of an executing command with the current phase, which flips on each wrap. */
  function PostCqe(s: Qp, k: nat, code: nat): Qp
    requires Shape(s) && k in s.exec
  {
    var tail := (s.devTail + 1) % s.cfg.q;
    s.(cq := s.cq[s.devTail := Cqe(s.exec[k].cid, 2 * code + s.devPhase)],
       devTail := tail, devPhase := if tail == 0 then Flip(s.devPhase) else s.devPhase,
       exec := s.exec - {k},
       postedAt := s.postedAt[k := |s.posted|], posted := s.posted + [Post(k, code)])
  }

  // ---------------------------------------------------------------- runs

  datatype Step =
    | SubmitStep(io: Io)
    | AdminStep(cmd: Cmd, cb: nat, arg: nat)
    | FetchStep
    | PostStep(k: nat, code: nat)
    | PollStep
    | DoneStep

  /** The driver may submit at any time a request that passes the assertions, as long as its signed slot counter
      does not overflow; the controller may fetch while the doorbell differs from its head and complete any
      executing command, in any order; a poll may start at any time, also inside a callback. */
  predicate Enabled(s: Qp, step: Step)
    requires Shape(s)
  {
    match step
    case SubmitStep(io) =>
      s.cfg.Good() && HasFree(s) && IovAccepted(s.cfg, io.iov) && s.reqNext + s.cfg.Slots() < Pow2(31)
    case AdminStep(_, _, _) => HasFree(s) && s.reqNext + s.cfg.Slots() < Pow2(31)
    case FetchStep => s.devHead != s.sqDoorbell
    case PostStep(k, code) => k in s.exec && code < 0x8000
    case PollStep => true
    case DoneStep => s.calling != []
  }

  function Next(s: Qp, step: Step): (r: Qp)
    requires Shape(s) && Enabled(s, step)
    ensures Shape(r) && r.cfg == s.cfg
  {
    match step
    case SubmitStep(io) => SubmitIo(s, io)
    case AdminStep(cmd, cb, o) => SubmitAdmin(s, cmd, cb, o)
    case FetchStep => Fetch(s)
    case PostStep(k, code) => PostCqe(s, k, code)
    case PollStep => Poll(s)
    case DoneStep => Done(s)
  }

  predicate Runs(s: Qp, steps: seq<Step>)
    requires Shape(s)
    decreases |steps|
  {
    steps == [] || (Enabled(s, steps[0]) && Runs(Next(s, steps[0]), steps[1..]))
  }

  function After(s: Qp, steps: seq<Step>): (r: Qp)
    requires Shape(s) && Runs(s, steps)
    ensures Shape(r) && r.cfg == s.cfg
    decreases |steps|
  {
    if steps == [] then s else After(Next(s, steps[0]), steps[1..])
  }

  lemma {:induction false} RunsConcat(s: Qp, a: seq<Step>, b: seq<Step>)
    requires Shape(s) && Runs(s, a) && Runs(After(s, a), b)
    ensures Runs(s, a + b) && After(s, a + b) == After(After(s, a), b)
    decreases |a|
  {
    hide Next, Enabled;
    if a == [] {
      assert a + b == b;
    } else {
      assert (a + b)[1..] == a[1..] + b;
      RunsConcat(Next(s, a[0]), a[1..], b);
    }
  }

  lemma RunsOne(s: Qp, step: Step)
    requires Shape(s) && Enabled(s, step)
    ensures Runs(s, [step]) && After(s, [step]) == Next(s, step)
  {
    assert [step][1..] == [];
  }

  // ---------------------------------------------------------------- start

  /** A queue pair as nvme_create_queue_pair leaves it, before the controller has done anything. */
  ghost predicate Fresh(s: Qp) {
    && s.cfg.Good() && Shape(s)
    && s.sqTail == s.sqDoorbell == s.cqHead == s.cqPhase == s.cqDoorbell == s.reqNext == s.needKick == 0
    && s.inflight == 0 && s.calling == []
    && s.devHead == s.devTail == 0 && s.devPhase == 1 && s.exec == map[]
    && s.subs == [] && s.fetched == 0 && s.posted == [] && s.consumed == s.released == 0
    && s.fired == [] && s.postedAt == map[]
    && (forall j: nat :: j < s.cfg.q ==> s.cq[j] == Cqe(0, 0))
    && (forall c: nat :: c < s.cfg.Slots() ==> s.reqs[c] == Req(0, 0, c + 1, false))
  }
}
