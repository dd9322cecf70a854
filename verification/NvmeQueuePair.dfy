/** The NVMe queue pair as the driver implements it: queues, request table and list pages updated in place, with
    the controller and callbacks running in between.  Every method is tied to the state machine of NvmeModel. */
module NvmeQueuePair {
  import opened Words
  import opened Prp
  import opened NvmeModel
  import opened NvmeInvariant
  import opened NvmeTheorems
  import opened NvmeDraining

  /** A run extended by one step. */
  lemma Extend(s0: Qp, steps: seq<Step>, step: Step) returns (longer: seq<Step>)
    requires Shape(s0) && Runs(s0, steps) && Enabled(After(s0, steps), step)
    ensures longer == steps + [step] && Runs(s0, longer)
    ensures After(s0, longer) == Next(After(s0, steps), step)
    ensures Inv(After(s0, steps)) ==> Inv(After(s0, longer))
    ensures !step.PollStep? && !step.DoneStep? ==> SamePoll(After(s0, steps), After(s0, longer))
    ensures !step.PollStep? && !step.DoneStep? && steps == [] ==> Deep(s0, longer, |s0.calling|)
  {
    hide *;
    if !step.PollStep? && !step.DoneStep? { QuietStep(After(s0, steps), step); }
    longer := steps + [step];
    RunsOne(After(s0, steps), step);
    RunsConcat(s0, steps, [step]);
    if !step.PollStep? && !step.DoneStep? && steps == [] {
      NoRun(s0);
      QuietIsDeep(s0, step);
      assert [] + [step] == [step];
    }
    if Inv(After(s0, steps)) { NextInv(After(s0, steps), step); }
  }

  /** The same callbacks are running and the same completions have been consumed. */
  predicate SamePoll(s: Qp, r: Qp) {
    r.calling == s.calling && r.consumed == s.consumed
  }

  lemma QuietStep(s: Qp, step: Step)
    requires Shape(s) && Enabled(s, step) && !step.PollStep? && !step.DoneStep?
    ensures SamePoll(s, Next(s, step))
  {
    hide Scan, WriteList, IoSub, Pow2;
  }

  lemma QuietIsDeep(s: Qp, step: Step)
    requires Shape(s) && Enabled(s, step) && !step.PollStep? && !step.DoneStep?
    ensures Runs(s, [step]) && Deep(s, [step], |s.calling|)
  {
    hide *;
    QuietStep(s, step);
    SamePollCalling(s, Next(s, step));
    DeepNothing(Next(s, step), |s.calling|);
    DeepFirst(s, step, [], |s.calling|);
    assert [step] + [] == [step];
  }

  lemma SamePollCalling(s: Qp, r: Qp)
    requires SamePoll(s, r)
    ensures r.calling == s.calling
  {
  }

  lemma NoRun(s: Qp)
    requires Shape(s)
    ensures Runs(s, []) && After(s, []) == s
  {
  }

  lemma {:induction false} ListPrefix(iov: seq<Segment>, page: pos, i: nat)
    requires i <= |iov|
    ensures |PageList(iov[..i], page)| <= |PageList(iov, page)|
    decreases |iov|
  {
    if i < |iov| {
      assert iov[..|iov| - 1][..i] == iov[..i];
      ListPrefix(iov[..|iov| - 1], page, i);
    } else {
      assert iov[..i] == iov;
    }
  }

  lemma PrefixStep(iov: seq<Segment>, page: pos, i: nat)
    requires i < |iov|
    ensures PageList(iov[..i + 1], page)
         == PageList(iov[..i], page) + SegmentPages(iov[i].base, iov[i].len / page, page)
    ensures TotalLen(iov[..i + 1]) == TotalLen(iov[..i]) + iov[i].len
  {
    assert iov[..i + 1][..i] == iov[..i];
  }

  /** Writing one more entry after a list that has been written. */
  lemma AppendEntry(before: seq<nat>, at: nat, list: seq<nat>, x: nat)
    requires at + |list| < |before|
    ensures WriteList(before, at, list)[at + |list| := x] == WriteList(before, at, list + [x])
  {
  }

  /** A slot has been claimed and its page list written to its list page, which starts at entry at. */
  ghost function Claimed(s: Qp, slot: nat, next: nat, at: nat, list: seq<nat>): (r: Qp)
    requires Shape(s) && slot < s.cfg.Slots() && at + |list| <= |s.prp|
    ensures Shape(r) && r.cfg == s.cfg
  {
    s.(reqs := s.reqs[slot := s.reqs[slot].(isUsed := true)], reqNext := next, prp := WriteList(s.prp, at, list))
  }

  /** A state after the search for a free request, which is claimed if there is one. */
  ghost function Searched(s: Qp): Qp
    requires Shape(s)
  {
    if s.cfg.Slots() == 0 then s
    else
      var (found, next) := Scan(s.reqs, s.reqNext, s.cfg.Slots());
      if found.None? then s.(reqNext := next)
      else s.(reqNext := next, reqs := s.reqs[found.value := s.reqs[found.value].(isUsed := true)])
  }

  /** One round of the search. */
  lemma ScanOnce(reqs: seq<Req>, next: nat, tries: nat)
    requires |reqs| > 0
    ensures Scan(reqs, next, tries) ==
      if tries == 0 then (None, next)
      else if reqs[next % |reqs|].isUsed then Scan(reqs, next + 1, tries - 1)
      else (Some(next % |reqs|), next + 1)
  {
  }

  lemma SearchedIsClaimed(s: Qp, slot: nat, next: nat, at: nat)
    requires Shape(s) && s.cfg.Slots() > 0 && at <= |s.prp|
    requires Scan(s.reqs, s.reqNext, s.cfg.Slots()) == (Some(slot), next)
    ensures slot < s.cfg.Slots() && Searched(s) == Claimed(s, slot, next, at, [])
  {
    hide WriteList, Scan, Config.Room, Config.Good;
    WrittenSlice(s.prp, at, []);
  }

  lemma WrittenSlice(prp: seq<nat>, at: nat, list: seq<nat>)
    requires at + |list| <= |prp|
    ensures WriteList(prp, at, list)[at..at + |list|] == list
    ensures WriteList(prp, at, []) == prp
  {
  }

  /** The pages of a segment, one more at a time. */
  lemma SegmentStep(list: seq<nat>, base: nat, j: nat, page: pos)
    ensures list + SegmentPages(base, j + 1, page) == (list + SegmentPages(base, j, page)) + [(base + j * page) % U64]
  {
  }

  lemma AdminIs(s: Qp, cmd: Cmd, cb: nat, arg: nat, slot: nat, next: nat) returns (at: nat)
    requires Shape(s) && HasFree(s) && Scan(s.reqs, s.reqNext, s.cfg.Slots()) == (Some(slot), next)
    ensures slot < s.cfg.Slots() && at == slot * s.cfg.Room() <= |s.prp| && WriteList(s.prp, at, []) == s.prp
    ensures NvmeModel.SubmitAdmin(s, cmd, cb, arg)
         == Submit(s, slot, next, Sub(cmd.(cid := s.reqs[slot].cid), [], cb, arg))
  {
    hide Submit, WriteList, Scan;
    at := slot * s.cfg.Room();
    TimesMonotone(slot, s.cfg.Slots(), s.cfg.Room());
    WrittenSlice(s.prp, slot * s.cfg.Room(), []);
  }

  lemma FoundIff(s: Qp)
    requires Shape(s) && s.cfg.Slots() > 0
    ensures HasFree(s) <==> Scan(s.reqs, s.reqNext, s.cfg.Slots()).0.Some?
    ensures !HasFree(s) ==> Searched(s) == s.(reqNext := Scan(s.reqs, s.reqNext, s.cfg.Slots()).1)
  {
    hide Scan;
  }

  /** Where the list page of a slot starts, and that a list of the right size fits it. */
  lemma SlotRoom(s: Qp, slot: nat, iov: seq<Segment>) returns (at: nat)
    requires Shape(s) && slot < s.cfg.Slots() && TotalLen(iov) / s.cfg.page <= s.cfg.Room()
    ensures at == slot * s.cfg.Room() && |PageList(iov, s.cfg.page)| <= s.cfg.Room()
    ensures at + |PageList(iov, s.cfg.page)| <= |s.prp|
  {
    hide PageList, TotalLen;
    at := slot * s.cfg.Room();
    ListInPage(s.cfg, slot, iov);
  }

  lemma SubmitIoIs(s: Qp, io: Io, slot: nat, next: nat)
    requires Shape(s) && s.cfg.Good() && HasFree(s) && IovAccepted(s.cfg, io.iov)
    requires Scan(s.reqs, s.reqNext, s.cfg.Slots()) == (Some(slot), next)
    ensures slot < s.cfg.Slots() && slot * s.cfg.Room() + |PageList(io.iov, s.cfg.page)| <= |s.prp|
    ensures NvmeModel.SubmitIo(s, io) == Submit(s, slot, next, IoSub(s.cfg, io, slot, s.reqs[slot].cid))
  {
    hide Submit, MakeCmd, Scan, PageList, TotalLen;
    ListInPage(s.cfg, slot, io.iov);
  }

  /** The entry at the head is new and names a request. */
  predicate Takes(s: Qp)
    requires Shape(s)
  {
    var e := s.cq[s.cqHead];
    e.status % 2 != s.cqPhase && 0 < e.cid < s.cfg.q
  }

  /** A poll takes an entry exactly when one is unconsumed, and then has a callback to run. */
  lemma PollDecision(s: Qp)
    requires Inv(s)
    ensures s.consumed <= |s.posted|
    ensures s.consumed == |s.posted| ==> Poll(s) == s && !Takes(s)
    ensures s.consumed < |s.posted| ==>
      && Takes(s) && 0 < s.cq[s.cqHead].cid < s.cfg.q
      && Poll(s).calling == s.calling + [Frame(s.cq[s.cqHead].cid, s.consumed)] && Poll(s).consumed == s.consumed + 1
  {
    RoomAlways(s);
    PhaseIff(s);
    PollFinds(s);
    if s.consumed < |s.posted| { PollFields(s); }
  }

  lemma PollNext(s: Qp)
    requires Shape(s)
    ensures Enabled(s, PollStep) && Next(s, PollStep) == Poll(s)
  {
    hide Poll;
  }

  lemma DoneNext(s: Qp)
    requires Shape(s) && s.calling != []
    ensures Enabled(s, DoneStep) && Next(s, DoneStep) == Done(s)
    ensures Done(s).calling == s.calling[..|s.calling| - 1] && Done(s).consumed == s.consumed
  {
  }

  /** A poll, what happens during its callback, and its end make a run. */
  lemma Around(s0: Qp, s1: Qp, more: seq<Step>) returns (steps: seq<Step>)
    requires Inv(s0) && Shape(s0) && s1 == Poll(s0) && Shape(s1) && s1.calling != []
    requires s1.calling[..|s1.calling| - 1] == s0.calling
    requires Runs(s1, more) && After(s1, more).calling == s1.calling && Inv(After(s1, more))
    requires Deep(s1, more, |s0.calling| + 1)
    ensures var s2 := After(s1, more);
      Shape(s2) && Runs(s0, steps) && After(s0, steps) == Done(s2) && Inv(Done(s2))
      && Done(s2).calling == s0.calling && Done(s2).consumed == s2.consumed
    ensures PolledBy(s0, steps, more) && Deep(s0, steps, |s0.calling|)
  {
    hide *;
    var d := |s0.calling|;
    PollNext(s0);
    DoneNext(After(s1, more));
    NoRun(s0);
    steps := Extend(s0, [], PollStep);
    assert [] + [PollStep] == [PollStep];
    RunsConcat(s0, steps, more);
    DeepLess(s1, more, d + 1, d);
    DeepFirst(s0, PollStep, more, d);
    var polled := steps + more;
    steps := Extend(s0, polled, DoneStep);
    DeepLast(s0, polled, DoneStep, d);
    OnePolled(s0, s1, more);
  }

  /** A poll that found a completion: it starts with taking it, ends with giving the queue entry back, and everything in
      between happens inside the callback. */
  ghost predicate PolledBy(s: Qp, steps: seq<Step>, more: seq<Step>) {
    && steps == ([PollStep] + more) + [DoneStep]
    && Shape(s) && Runs(Poll(s), more) && Deep(Poll(s), more, |s.calling| + 1)
  }

  lemma OnePolled(s: Qp, s1: Qp, more: seq<Step>)
    requires Shape(s) && s1 == Poll(s) && Runs(s1, more) && Deep(s1, more, |s.calling| + 1)
    ensures PolledBy(s, ([PollStep] + more) + [DoneStep], more)
  {
    hide Poll, Runs, Deep;
  }

  // ---------------------------------------------------------------- inside a callback

  /** At least d callbacks are in progress throughout a run. */
  predicate Deep(s: Qp, steps: seq<Step>, d: nat)
    requires Shape(s) && Runs(s, steps)
    decreases |steps|
  {
    |s.calling| >= d && (steps == [] || Deep(Next(s, steps[0]), steps[1..], d))
  }

  lemma {:induction false} DeepLess(s: Qp, steps: seq<Step>, d: nat, e: nat)
    requires Shape(s) && Runs(s, steps) && Deep(s, steps, d) && e <= d
    ensures Deep(s, steps, e)
    decreases |steps|
  {
    hide Next, Enabled;
    if steps != [] { DeepLess(Next(s, steps[0]), steps[1..], d, e); }
  }

  lemma DeepFirst(s: Qp, step: Step, rest: seq<Step>, d: nat)
    requires Shape(s) && Enabled(s, step) && |s.calling| >= d
    requires Runs(Next(s, step), rest) && Deep(Next(s, step), rest, d)
    ensures Runs(s, [step] + rest) && Deep(s, [step] + rest, d)
  {
    hide Next, Enabled;
    assert ([step] + rest)[1..] == rest;
  }

  lemma {:induction false} DeepConcat(s: Qp, a: seq<Step>, b: seq<Step>, d: nat)
    requires Shape(s) && Runs(s, a) && Deep(s, a, d) && Runs(After(s, a), b) && Deep(After(s, a), b, d)
    ensures Runs(s, a + b) && Deep(s, a + b, d)
    decreases |a|
  {
    hide Next, Enabled;
    if a == [] {
      assert a + b == b;
    } else {
      DeepConcat(Next(s, a[0]), a[1..], b, d);
      assert a + b == [a[0]] + (a[1..] + b);
      DeepFirst(s, a[0], a[1..] + b, d);
    }
  }

  lemma DeepNothing(s: Qp, d: nat)
    requires Shape(s) && |s.calling| >= d
    ensures Runs(s, []) && Deep(s, [], d)
  {
  }

  lemma DeepLast(s: Qp, steps: seq<Step>, step: Step, d: nat)
    requires Shape(s) && Runs(s, steps) && Deep(s, steps, d) && Enabled(After(s, steps), step)
    requires |Next(After(s, steps), step).calling| >= d && |After(s, steps).calling| >= d
    ensures Runs(s, steps + [step]) && Deep(s, steps + [step], d)
  {
    hide *;
    var e := After(s, steps);
    DeepNothing(Next(e, step), d);
    DeepFirst(e, step, [], d);
    assert [step] + [] == [step];
    DeepConcat(s, steps, [step], d);
  }

  /** The tail index of a queue of at most 256 entries has no high byte. */
  lemma NoHighByte(x: nat)
    requires x < 256
    ensures BitAnd(x, 0xFF00) == 0
  {
    Pow2Values();
    assert Pow2(8) == 256;
    hide BitAnd, Pow2;
    ClearMaskIsRoundDown(x, 8, 16);
    ModSmall(x, 256);
  }

  /** The controller's side of the queue pair. */
  datatype Controller = Controller(head: nat, tail: nat, phase: nat, exec: map<nat, Cmd>, fetched: nat)

  /** The history of the run and the callbacks in progress. */
  datatype History = History(calling: seq<Frame>, subs: seq<Sub>, posted: seq<Post>, consumed: nat, released: nat,
                             fired: seq<Fired>, owner: seq<nat>, postedAt: map<nat, nat>)

  class QueuePair {
    const cfg: Config

    // The driver's fields, queues, request table and list pages.
    const sq: array<Cmd>
    var sqTail: nat
    var sqDoorbell: nat
    const cq: array<Cqe>
    var cqHead: nat
    var cqPhase: nat
    var cqDoorbell: nat
    const reqs: array<Req>
    var reqNext: nat
    const prp: array<nat>
    var needKick: nat
    var inflight: int

    var dev: Controller
    ghost var hist: History

    ghost function View(): Qp
      reads this, sq, cq, reqs, prp
    {
      Qp(cfg, sq[..], sqTail, sqDoorbell, cq[..], cqHead, cqPhase, cqDoorbell, reqs[..], reqNext, prp[..],
         needKick, inflight,
         hist.calling, dev.head, dev.tail, dev.phase, dev.exec, hist.subs, dev.fetched, hist.posted, hist.consumed,
         hist.released, hist.fired, hist.owner, hist.postedAt)
    }

    ghost predicate Ready()
      reads this, sq, cq, reqs, prp
    {
      cfg.Good() && Shape(View())
    }

    ghost predicate Valid()
      reads this, sq, cq, reqs, prp
      ensures Valid() ==> Ready()
    {
      Inv(View())
    }

    // -------------------------------------------------------------- set-up

    /** Zeroed queues and list pages, and a request table with CIDs from 1 on. */
    constructor (cfg: Config)
      requires cfg.Good()
      ensures this.cfg == cfg && fresh(sq) && fresh(cq) && fresh(reqs) && fresh(prp)
      ensures Fresh(View()) && Valid()
    {
      hide Inv, Pow2, Config.Room;
      this.cfg := cfg;
      sq := new Cmd[cfg.q](_ => Cmd(0, 0, 0, 0, 0, 0, 0, 0));
      cq := new Cqe[cfg.q](_ => Cqe(0, 0));
      reqs := new Req[cfg.q - 1](_ => Req(0, 0, 0, false));
      TimesMonotone(0, cfg.q - 1, cfg.Room());
      prp := new nat[(cfg.q - 1) * cfg.Room()](_ => 0);
      sqTail, sqDoorbell, cqHead, cqPhase, cqDoorbell, reqNext, needKick, inflight := 0, 0, 0, 0, 0, 0, 0, 0;
      dev := Controller(0, 0, 1, map[], 0);
      hist := History([], [], [], 0, 0, [], seq(cfg.q - 1, _ => 0), map[]);
      new;
      NumberRequests();
      FreshInv(View());
    }

    /** The loop that gives every request its CID. */
    method NumberRequests()
      requires reqs.Length == cfg.Slots() && forall c: nat :: c < reqs.Length ==> reqs[c] == Req(0, 0, 0, false)
      modifies reqs
      ensures forall c: nat :: c < reqs.Length ==> reqs[c] == Req(0, 0, c + 1, false)
    {
      var i := 0;
      while i < cfg.q - 1
        invariant i <= cfg.q - 1
        invariant forall c: nat :: c < i ==> reqs[c] == Req(0, 0, c + 1, false)
        invariant forall c: nat :: i <= c < cfg.q - 1 ==> reqs[c] == Req(0, 0, 0, false)
      {
        reqs[i] := reqs[i].(cid := i + 1);
        i := i + 1;
      }
    }

    // -------------------------------------------------------------- submission

    /** Find and claim a free request, round robin. */
    method GetFreeReq() returns (slot: Option<nat>)
      requires Ready() && reqNext + cfg.Slots() < Pow2(31)
      modifies this`reqNext, reqs
      ensures Ready() && View() == Searched(old(View()))
      ensures (slot, reqNext) == Scan(old(View()).reqs, old(View()).reqNext, cfg.Slots())
      ensures slot.Some? ==>
        && slot.value < cfg.Slots() == reqs.Length == |old(View()).reqs|
        && reqs[slot.value].cid == old(View()).reqs[slot.value].cid
      ensures reqNext <= old(reqNext) + cfg.Slots()
    {
      hide Scan, Pow2, Config.Room;
      ghost var table := reqs[..];
      ghost var want := Scan(table, reqNext, cfg.Slots());
      var i := 0;
      while i < cfg.q - 1
        invariant i <= cfg.q - 1 && reqs[..] == table && reqNext == old(reqNext) + i
        invariant Scan(table, reqNext, cfg.Slots() - i) == want
      {
        ScanOnce(table, reqNext, cfg.Slots() - i);
        var c := reqNext % (cfg.q - 1);
        reqNext := reqNext + 1;
        if !reqs[c].isUsed {
          reqs[c] := reqs[c].(isUsed := true);
          return Some(c);
        }
        i := i + 1;
      }
      ScanOnce(table, reqNext, 0);
      return None;
    }

    /** Ring the submission doorbell if anything waits for it. */
    method Kick()
      requires Ready()
      modifies this`sqDoorbell, this`inflight, this`needKick
      ensures needKick == 0 && inflight == old(inflight) + old(needKick)
      ensures sqDoorbell == if old(needKick) == 0 then old(sqDoorbell) else sqTail
    {
      if needKick == 0 { return; }
      NoHighByte(sqTail);
      assert BitAnd(sqTail, 0xFF00) == 0;
      sqDoorbell := sqTail;
      inflight := inflight + needKick;
      needKick := 0;
    }

    method SubmitCommand(cmd: Cmd)
      requires Ready()
      modifies this`sqTail, this`sqDoorbell, this`inflight, this`needKick, sq
      ensures View() == Enqueue(old(View()), cmd)
    {
      sq[sqTail] := cmd;
      sqTail := (sqTail + 1) % cfg.q;
      needKick := needKick + 1;
      Kick();
    }

    method GetIovecSize(iov: seq<Segment>) returns (size: nat)
      ensures size == TotalLen(iov)
    {
      size := 0;
      var i := 0;
      while i < |iov|
        invariant i <= |iov| && size == TotalLen(iov[..i])
      {
        PrefixStep(iov, 1, i);
        size := size + iov[i].len;
        i := i + 1;
      }
      assert iov[..i] == iov;
    }

    /** Write the page list of a scatter list to a position of the list memory. */
    method WritePageList(at: nat, iov: seq<Segment>) returns (entries: nat)
      requires at + |PageList(iov, cfg.page)| <= prp.Length
      modifies prp
      ensures entries == |PageList(iov, cfg.page)|
      ensures prp[..] == WriteList(old(prp[..]), at, PageList(iov, cfg.page))
    {
      ghost var before := prp[..];
      assert iov[..0] == [] && PageList([], cfg.page) == [];
      hide PageList, TotalLen, WriteList, SegmentPages;
      WrittenSlice(before, at, []);
      entries := 0;
      var i := 0;
      while i < |iov|
        invariant i <= |iov| && entries == |PageList(iov[..i], cfg.page)|
        invariant at + entries <= |before|
        invariant prp[..] == WriteList(before, at, PageList(iov[..i], cfg.page))
      {
        PrefixStep(iov, cfg.page, i);
        ListPrefix(iov, cfg.page, i + 1);
        entries := WriteSegment(at, before, entries, PageList(iov[..i], cfg.page), iov[i]);
        i := i + 1;
      }
      assert iov[..i] == iov;
    }

    /** The inner loop: append the pages of one segment. */
    method WriteSegment(at: nat, ghost before: seq<nat>, start: nat, ghost list: seq<nat>, s: Segment)
      returns (entries: nat)
      requires start == |list| && |before| == prp.Length && at + start + s.len / cfg.page <= prp.Length
      requires prp[..] == WriteList(before, at, list)
      modifies prp
      ensures entries == start + s.len / cfg.page
      ensures prp[..] == WriteList(before, at, list + SegmentPages(s.base, s.len / cfg.page, cfg.page))
    {
      hide WriteList, SegmentPages;
      var n := s.len / cfg.page;
      entries := start;
      var j := 0;
      assert list + SegmentPages(s.base, 0, cfg.page) == list;
      while j < n
        invariant j <= n && entries == start + j
        invariant prp[..] == WriteList(before, at, list + SegmentPages(s.base, j, cfg.page))
      {
        ghost var now, written := prp[..], list + SegmentPages(s.base, j, cfg.page);
        var iova := (s.base + j * cfg.page) % U64;
        AppendEntry(before, at, written, iova);
        SegmentStep(list, s.base, j, cfg.page);
        prp[at + entries] := iova;
        assert prp[..] == now[at + |written| := iova];
        entries := entries + 1;
        j := j + 1;
      }
    }

    /** What both ways of submitting do in the end: note the callback in the claimed request and enqueue the command. */
    method Enter(ghost before: Qp, slot: nat, ghost at: nat, cmd: Cmd, ghost list: seq<nat>, cb: nat, arg: nat)
      requires Ready() && Shape(before) && before.cfg == cfg && |before.prp| == prp.Length
      requires slot < cfg.Slots() && at == slot * cfg.Room() && at + |list| <= prp.Length
      requires View() == Claimed(before, slot, reqNext, at, list)
      modifies this`sqTail, this`sqDoorbell, this`inflight, this`needKick, this`hist, sq, reqs
      ensures View() == Submit(before, slot, reqNext, Sub(cmd, list, cb, arg))
    {
      hide WriteList;
      reqs[slot] := reqs[slot].(cb := cb, arg := arg);
      hist := hist.(owner := hist.owner[slot := |hist.subs|], subs := hist.subs + [Sub(cmd, list, cb, arg)]);
      assert View() == Claim(before, slot, reqNext, Sub(cmd, list, cb, arg)).(prp := WriteList(before.prp, at, list));
      SubmitCommand(cmd);
    }

    /** Write the page list into the list page of a claimed slot. */
    method WriteClaimed(ghost before: Qp, ghost slot: nat, at: nat, iov: seq<Segment>) returns (entries: nat)
      requires Ready() && Shape(before) && before.cfg == cfg && before.prp == prp[..] && slot < cfg.Slots()
      requires at + |PageList(iov, cfg.page)| <= prp.Length
      requires View() == Claimed(before, slot, reqNext, at, [])
      modifies prp
      ensures Ready() && entries == |PageList(iov, cfg.page)|
      ensures View() == Claimed(before, slot, reqNext, at, PageList(iov, cfg.page))
      ensures prp[at..at + entries] == PageList(iov, cfg.page)
    {
      hide PageList, TotalLen, WriteList, Shape, Pow2;
      entries := WritePageList(at, iov);
      WrittenSlice(before.prp, at, PageList(iov, cfg.page));
      assert View() == Claimed(before, slot, reqNext, at, PageList(iov, cfg.page));
      assert prp[at..at + entries] == prp[..][at..at + entries];
    }

    /** The second part of nvme_submit_io: write the page list, build the command and enqueue it. */
    method WriteAndEnter(ghost before: Qp, slot: nat, at: nat, io: Io) returns (ok: bool)
      requires Ready() && Shape(before) && before.cfg == cfg && before.prp == prp[..] && slot < cfg.Slots()
      requires |PageList(io.iov, cfg.page)| <= cfg.Room() && at == slot * cfg.Room()
      requires at + |PageList(io.iov, cfg.page)| <= prp.Length
      requires View() == Claimed(before, slot, reqNext, at, [])
      modifies this`sqTail, this`sqDoorbell, this`inflight, this`needKick, this`hist, sq, reqs, prp
      ensures ok <==> |PageList(io.iov, cfg.page)| > 0
      ensures ok ==> View() == Submit(before, slot, reqNext, IoSub(cfg, io, slot, before.reqs[slot].cid))
      ensures !ok ==> View() == old(View())
    {
      assert View().reqs[slot].cid == before.reqs[slot].cid && reqs.Length == cfg.Slots();
      hide PageList, TotalLen, WriteList, MakeCmd, Cdw12, Submit, Shape, Pow2;
      ghost var list := PageList(io.iov, cfg.page);
      var entries := WriteClaimed(before, slot, at, io.iov);
      if entries == 0 {
        assert list == [];
        return false;
      }
      var cmd := BuildCommand(io, slot, at, entries);
      Enter(before, slot, at, cmd, list, io.cb, io.arg);
      ok := true;
    }

    /** nvme_submit_io from the choice of the request on; ok is false where the source aborts. */
    method SubmitIo(io: Io) returns (ok: bool)
      requires Ready() && cfg.Slots() > 0 && reqNext + cfg.Slots() < Pow2(31)
      modifies this`reqNext, this`sqTail, this`sqDoorbell, this`inflight, this`needKick, this`hist, sq, reqs, prp
      ensures ok <==>
        && old(SomeFree(View())) && HasPage(io.iov, cfg.page)
        && TotalLen(io.iov) % cfg.page == 0 && TotalLen(io.iov) <= cfg.page / 8 * cfg.page
      ensures ok ==> old(HasFree(View())) && IovAccepted(cfg, io.iov)
      ensures View() == if ok then NvmeModel.SubmitIo(old(View()), io) else Searched(old(View()))
    {
      hide PageList, TotalLen, WriteList, MakeCmd, Cdw12, Submit, Pow2, Scan, Searched, Claimed, Shape, View;
      hide Config.Room, HasFree, SomeFree, HasPage;
      ghost var before := View();
      ViewFacts();
      var found := GetFreeReq();
      FoundIff(before);
      HasFreeIff(before);
      AcceptedIff(cfg, io.iov);
      if found.None? { return false; }
      var slot := found.value;
      var fits := SizeFits(io.iov);
      if !fits { return false; }
      var at := slot * cfg.Room();
      ghost var same := SlotRoom(before, slot, io.iov);
      ViewFacts();
      SearchedIsClaimed(before, slot, reqNext, at);
      ok := WriteAndEnter(before, slot, at, io);
      if ok { SubmitIoIs(before, io, slot, reqNext); }
    }

    lemma ViewFacts()
      requires Ready()
      ensures Shape(View()) && View().cfg == cfg && View().prp == prp[..] && View().reqNext == reqNext
      ensures |View().prp| == prp.Length
    {
    }

    /** The first two assertions of nvme_submit_io. */
    method SizeFits(iov: seq<Segment>) returns (fits: bool)
      ensures fits <==> TotalLen(iov) % cfg.page == 0 && TotalLen(iov) / cfg.page <= cfg.Room()
    {
      var size := GetIovecSize(iov);
      fits := size % cfg.page == 0 && size / cfg.page <= cfg.page / ENTRY_BYTES;
    }

    /** Fill in the command for a page list that has just been written. */
    method BuildCommand(io: Io, slot: nat, at: nat, entries: nat) returns (cmd: Cmd)
      requires Ready() && slot < cfg.Slots() && 0 < entries == |PageList(io.iov, cfg.page)|
      requires at + entries <= prp.Length && prp[at..at + entries] == PageList(io.iov, cfg.page)
      ensures cmd == MakeCmd(cfg, io, slot, reqs[slot].cid, PageList(io.iov, cfg.page))
    {
      var cid := reqs[slot].cid;
      hide PageList, TotalLen, Cdw12, Pow2, Shape;
      ghost var list := PageList(io.iov, cfg.page);
      assert prp[at..at + entries][0] == prp[at];
      var prp1, prp2 := prp[at], 0;
      if entries == 2 {
        assert prp[at..at + entries][1] == prp[at + 1];
        prp2 := prp[at + 1];
      } else if entries > 2 {
        prp2 := ListAddr(cfg, slot) + ENTRY_BYTES;
      }
      var lba := io.offset / Pow2(cfg.blkshift);
      cmd := Cmd(if io.isWrite then OPC_WRITE else OPC_READ, cid, cfg.nsid, prp1, prp2,
                 lba % U32, lba / U32 % U32, Cdw12(io.bytes, cfg.blkshift, io.fua));
    }

    /** The submission half of nvme_admin_cmd_sync; rc is -EBUSY if no request is free. */
    method SubmitAdmin(cmd: Cmd, cb: nat, arg: nat) returns (rc: int)
      requires Ready() && cfg.Slots() > 0 && reqNext + cfg.Slots() < Pow2(31)
      modifies this`reqNext, this`sqTail, this`sqDoorbell, this`inflight, this`needKick, this`hist, sq, reqs
      ensures rc == if old(SomeFree(View())) then 0 else -16
      ensures rc == 0 ==> old(HasFree(View()))
      ensures rc == 0 ==> View() == NvmeModel.SubmitAdmin(old(View()), cmd, cb, arg)
      ensures rc != 0 ==> View() == Searched(old(View())) == old(View()).(reqNext := reqNext)
    {
      hide WriteList, Submit, Pow2, Scan, NvmeModel.SubmitAdmin, Searched, Claimed, Shape, View;
      hide Config.Room, HasFree, SomeFree;
      ghost var before := View();
      ViewFacts();
      var found := GetFreeReq();
      FoundIff(before);
      HasFreeIff(before);
      if found.None? { return -16; }
      var slot := found.value;
      ghost var at := AdminIs(before, cmd, cb, arg, slot, reqNext);
      ViewFacts();
      SearchedIsClaimed(before, slot, reqNext, at);
      Enter(before, slot, at, cmd.(cid := reqs[slot].cid), [], cb, arg);
      rc := 0;
    }

    // -------------------------------------------------------------- the environment

    /** The controller fetches a command. */
    method ControllerFetch()
      requires Ready() && dev.head != sqDoorbell
      modifies this`dev
      ensures View() == Fetch(old(View()))
    {
      dev := dev.(exec := dev.exec[dev.fetched := sq[dev.head]], head := (dev.head + 1) % cfg.q,
                  fetched := dev.fetched + 1);
    }

    /** The controller completes an executing command. */
    method ControllerPost(k: nat, code: nat)
      requires Ready() && k in dev.exec && code < 0x8000
      modifies this`dev, this`hist, cq
      ensures View() == PostCqe(old(View()), k, code)
    {
      hide Flip;
      cq[dev.tail] := Cqe(dev.exec[k].cid, 2 * code + dev.phase);
      var tail := (dev.tail + 1) % cfg.q;
      dev := dev.(tail := tail, phase := if tail == 0 then Flip(dev.phase) else dev.phase, exec := dev.exec - {k});
      hist := hist.(postedAt := hist.postedAt[k := |hist.posted|], posted := hist.posted + [Post(k, code)]);
    }

    // -------------------------------------------------------------- completion

    /** The first half of nvme_poll_cq, up to the start of the callback: the CID completed, if there is one. */
    method TakeCompletion() returns (done: Option<nat>)
      requires Ready()
      modifies this`cqHead, this`cqPhase, this`inflight, this`hist
      ensures View() == Poll(old(View()))
      ensures done.Some? <==> Takes(old(View()))
      ensures done.Some? ==> done.value == old(View()).cq[old(View()).cqHead].cid && 0 < done.value < cfg.q
    {
      hide Translate, Flip;
      var e := cq[cqHead];
      if e.status % 2 == cqPhase { return None; }
      ghost var taken := hist.consumed;
      cqHead := (cqHead + 1) % cfg.q;
      if cqHead == 0 { cqPhase := Flip(cqPhase); }
      if e.cid == 0 || e.cid >= cfg.q {
        hist := hist.(consumed := taken + 1);
        return None;
      }
      var req := reqs[e.cid - 1];
      inflight := inflight - 1;
      hist := hist.(consumed := taken + 1, fired := hist.fired + [Fired(req.cb, req.arg, Translate(e.status))],
                    calling := hist.calling + [Frame(e.cid, taken)]);
      done := Some(e.cid);
    }

    /** The second half: the request becomes free and the queue entry goes back to the controller. */
    method FinishCompletion(cid: nat)
      requires Ready() && View().calling != [] && View().calling[|View().calling| - 1].cid == cid && 0 < cid < cfg.q
      modifies this`cqDoorbell, this`hist, reqs
      ensures View() == Done(old(View()))
    {
      reqs[cid - 1] := reqs[cid - 1].(isUsed := false);
      cqDoorbell := cqHead;
      hist := hist.(calling := hist.calling[..|hist.calling| - 1], released := hist.consumed);
    }

    /** nvme_poll_cq: takes a completion exactly if one is unconsumed, and runs its callback, which may itself submit
        and poll, with callbacks nested to any depth. */
    method PollCq() returns (rc: int, ghost steps: seq<Step>, ghost inside: seq<Step>)
      requires Valid()
      modifies this, sq, cq, reqs, prp
      ensures Runs(old(View()), steps) && View() == After(old(View()), steps)
      ensures Valid() && View().calling == old(View()).calling && View().consumed >= old(View()).consumed + rc
      ensures rc == if old(View()).consumed < |old(View()).posted| then 1 else 0
      ensures rc == 0 ==> View() == old(View()) && steps == []
      ensures rc == 1 ==> PolledBy(old(View()), steps, inside)
      ensures Deep(old(View()), steps, |old(View()).calling|)
    {
      hide *;
      var nesting: nat :| true;
      rc, steps, inside := PollNested(nesting);
    }

    /** A poll whose callbacks nest as deep as the given number; every run that ends is of some depth. */
    method PollNested(nesting: nat) returns (rc: int, ghost steps: seq<Step>, ghost inside: seq<Step>)
      requires Valid()
      modifies this, sq, cq, reqs, prp
      ensures Runs(old(View()), steps) && View() == After(old(View()), steps)
      ensures Valid() && View().calling == old(View()).calling && View().consumed >= old(View()).consumed + rc
      ensures rc == if old(View()).consumed < |old(View()).posted| then 1 else 0
      ensures rc == 0 ==> View() == old(View()) && steps == []
      ensures rc == 1 ==> PolledBy(old(View()), steps, inside)
      ensures Deep(old(View()), steps, |old(View()).calling|)
      decreases nesting, 2
    {
      hide Inv, Runs, After, Next, Poll, Done, Shape, Scan, HasFree, IovAccepted, Pow2, View, Takes, Deep;
      ghost var s0 := View();
      PollDecision(s0);
      PollInv(s0);
      var done := TakeCompletion();
      if done.None? {
        NoRun(s0);
        DeepNothing(s0, |s0.calling|);
        return 0, [], [];
      }
      ghost var s1 := View();
      inside := RunCallback(nesting);
      steps := Around(s0, s1, inside);
      FinishCompletion(done.value);
      rc := 1;
    }

    /** Whatever happens while a callback runs: submissions, controller steps and, up to the given nesting depth,
        further polls with their own callbacks. */
    method RunCallback(nesting: nat) returns (ghost steps: seq<Step>)
      requires Valid()
      modifies this, sq, cq, reqs, prp
      ensures Runs(old(View()), steps) && View() == After(old(View()), steps)
      ensures Valid() && View().calling == old(View()).calling && View().consumed >= old(View()).consumed
      ensures Deep(old(View()), steps, |old(View()).calling|)
      decreases nesting, 1
    {
      hide Inv, Runs, After, View, Shape, Deep;
      ghost var s0 := View();
      NoRun(s0);
      DeepNothing(s0, |s0.calling|);
      steps := [];
      var n: nat :| true;
      while n > 0
        invariant Runs(s0, steps) && View() == After(s0, steps) && Valid()
        invariant View().calling == s0.calling && View().consumed >= s0.consumed
        invariant Deep(s0, steps, |s0.calling|)
      {
        n := n - 1;
        ghost var more := Anything(nesting);
        DeepConcat(s0, steps, more, |s0.calling|);
        RunsConcat(s0, steps, more);
        steps := steps + more;
      }
    }

    /** One thing that can happen while a callback runs. */
    method Anything(nesting: nat) returns (ghost steps: seq<Step>)
      requires Valid()
      modifies this, sq, cq, reqs, prp
      ensures Runs(old(View()), steps) && View() == After(old(View()), steps)
      ensures Valid() && View().calling == old(View()).calling && View().consumed >= old(View()).consumed
      ensures Deep(old(View()), steps, |old(View()).calling|)
      decreases nesting, 0
    {
      hide Inv, Runs, After, NvmeModel.SubmitIo, NvmeModel.SubmitAdmin, Scan, IovAccepted, Pow2, Shape;
      hide Fetch, PostCqe, Config.Good, Deep, SomeFree, HasPage, PageList, TotalLen;
      ghost var s0 := View();
      NoRun(s0);
      DeepNothing(s0, |s0.calling|);
      var choice: nat, k: nat, code: nat, io: Io, cmd: Cmd, cb: nat, arg: nat :| true;
      AcceptedIff(cfg, io.iov);
      if CanSubmit() { HasFreeIff(s0); }
      if choice == 0 && CanSubmit() && IovAccepted(cfg, io.iov) {
        steps := Extend(s0, [], SubmitStep(io));
        var ok := SubmitIo(io);
      } else if choice == 1 && CanSubmit() {
        steps := Extend(s0, [], AdminStep(cmd, cb, arg));
        var rc := SubmitAdmin(cmd, cb, arg);
      } else if choice == 2 && dev.head != sqDoorbell {
        steps := Extend(s0, [], FetchStep);
        ControllerFetch();
      } else if choice == 3 && k in dev.exec && code < 0x8000 {
        steps := Extend(s0, [], PostStep(k, code));
        ControllerPost(k, code);
      } else if nesting > 0 {
        var rc;
        ghost var inside;
        rc, steps, inside := PollNested(nesting - 1);
      } else {
        steps := [];
      }
    }

    predicate CanSubmit()
      reads this, reqs
    {
      && cfg.Slots() > 0 && |reqs[..]| == cfg.Slots() && Scan(reqs[..], reqNext, cfg.Slots()).0.Some?
      && reqNext + cfg.Slots() < Pow2(31)
    }
  }
}
