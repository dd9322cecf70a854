/** From a submission to its callback: which requests are accepted and how, that the controller can finish every
    command in any order, and what each callback is told.  Status codes and return codes are written as the hardware
    and the callers know them. */
module NvmeDraining {
  import opened Words
  import opened Prp
  import opened NvmeModel
  import opened NvmeInvariant
  import opened NvmeTheorems

  // ---------------------------------------------------------------- acceptance

  /** The configurations of the source: queues of 128 entries, pages of 4 KiB, any block size and namespace, and list
      pages anywhere that is page aligned. */
  lemma SourceConfigs(blkshift: nat, nsid: nat, listBase: nat)
    requires listBase % 4096 == 0
    ensures var cfg := Config(128, 4096, blkshift, nsid, listBase);
      cfg.Good() && cfg.Slots() == 127 && cfg.Room() == 512
  {
  }

  /** Some segment is at least a page long. */
  predicate HasPage(iov: seq<Segment>, page: pos) {
    exists i: nat :: i < |iov| && iov[i].len >= page
  }

  lemma {:induction false} ListEmptyIff(iov: seq<Segment>, page: pos)
    ensures |PageList(iov, page)| > 0 <==> HasPage(iov, page)
    decreases |iov|
  {
    if iov != [] {
      var k := |iov| - 1;
      ListEmptyIff(iov[..k], page);
      if iov[k].len >= page { QuotientPositive(iov[k].len, page); } else { ModSmall(iov[k].len, page); }
      DivModIs(iov[k].len, page);
      HasPageByPrefix(iov, page);
    }
  }

  lemma HasPageByPrefix(iov: seq<Segment>, page: pos)
    requires iov != []
    ensures var k := |iov| - 1; HasPage(iov, page) <==> HasPage(iov[..k], page) || iov[k].len >= page
  {
    var k := |iov| - 1;
    if HasPage(iov[..k], page) {
      var i: nat :| i < k && iov[..k][i].len >= page;
      assert iov[i].len >= page;
    }
    if HasPage(iov, page) && iov[k].len < page {
      var i: nat :| i < |iov| && iov[i].len >= page;
      assert iov[..k][i].len >= page;
    }
  }

  /** nvme_submit_io accepts a scatter list if and only if its total is a multiple of the page size, as many pages as
      there are eight-byte entries in a page at most, and some segment is at least a page long. */
  lemma AcceptedIff(cfg: Config, iov: seq<Segment>)
    ensures IovAccepted(cfg, iov) <==>
      TotalLen(iov) % cfg.page == 0 && TotalLen(iov) <= cfg.page / 8 * cfg.page && HasPage(iov, cfg.page)
  {
    hide PageList, TotalLen, HasPage;
    ListEmptyIff(iov, cfg.page);
    PagesFitIff(TotalLen(iov), cfg.page / 8, cfg.page);
  }

  lemma PagesFitIff(x: nat, n: nat, m: pos)
    ensures x % m == 0 ==> (x / m <= n <==> x <= n * m)
  {
    DivModIs(x, m);
    if x / m <= n { TimesMonotone(x / m, n, m); }
    if x <= n * m { QuotientAtMost(x, n, m); }
  }

  lemma QuotientAtMost(x: nat, n: nat, m: pos)
    requires x <= n * m
    ensures x / m <= n
  {
    DivModIs(x, m);
    if x / m >= n + 1 {
      TimesMonotone(n + 1, x / m, m);
      AddTimes(n, 1, m);
    }
  }

  /** Some request is free. */
  predicate SomeFree(s: Qp) {
    exists c: nat :: c < |s.reqs| && !s.reqs[c].isUsed
  }

  lemma HasFreeIff(s: Qp)
    requires Shape(s) && s.cfg.Slots() > 0
    ensures HasFree(s) <==> SomeFree(s)
  {
    hide Scan;
    RoundRobinIsComplete(s.reqs, s.reqNext);
  }

  lemma {:induction false} LongEnough(iov: seq<Segment>, page: pos)
    requires WholePages(iov, page) && TotalLen(iov) > 0
    ensures HasPage(iov, page)
    decreases |iov|
  {
    var k := |iov| - 1;
    HasPageByPrefix(iov, page);
    if iov[k].len < page {
      ModSmall(iov[k].len, page);
      assert iov[k].len % page == 0;
      assert WholePages(iov[..k], page);
      LongEnough(iov[..k], page);
    }
  }

  lemma WellFormedIsAccepted(cfg: Config, io: Io)
    requires WellFormed(cfg, io) && io.bytes <= cfg.page / 8 * cfg.page
    ensures IovAccepted(cfg, io.iov)
  {
    hide PageList, TotalLen, HasPage, Aligned, InAddressSpace, WholePages, Pow2, IovAccepted;
    AcceptedIff(cfg, io.iov);
    EntriesCoverIff(io.iov, cfg.page);
    PositiveBytes(cfg, io);
    LongEnough(io.iov, cfg.page);
    ModIs(io.bytes, cfg.page, |PageList(io.iov, cfg.page)|, 0);
  }

  /** Every well-formed request of at most page/8 pages is submitted whenever a request is free, one page included. */
  lemma WellFormedIsSubmitted(s: Qp, io: Io)
    requires Reachable(s) && SomeFree(s) && s.reqNext + s.cfg.Slots() < 0x8000_0000
    requires WellFormed(s.cfg, io) && io.bytes <= s.cfg.page / 8 * s.cfg.page
    ensures Enabled(s, SubmitStep(io))
  {
    hide SomeFree, HasFree, IovAccepted, WellFormed, Pow2, Trace, Config.Room;
    HasFreeIff(s);
    WellFormedIsAccepted(s.cfg, io);
    SignedLimit();
  }

  lemma PositiveBytes(cfg: Config, io: Io)
    requires WellFormed(cfg, io)
    ensures io.bytes > 0
  {
    hide Pow2, TotalLen;
  }

  lemma SignedLimit()
    ensures Pow2(31) == 0x8000_0000
  {
    Pow2Values();
    assert Pow2(32) == 2 * Pow2(31);
  }

  /** When each party may act: the driver submits whenever a request is free, the scatter list is accepted and the
      signed counter does not overflow, inside callbacks too; the controller fetches while the doorbell differs from
      its head, and completes any command it executes; and polls may start anywhere. */
  lemma AllowedIff(s: Qp, io: Io, cmd: Cmd, cb: nat, arg: nat, k: nat, code: nat)
    requires Shape(s) && s.cfg.Good()
    ensures Enabled(s, SubmitStep(io)) <==>
      SomeFree(s) && s.reqNext + s.cfg.Slots() < 0x8000_0000 && HasPage(io.iov, s.cfg.page)
      && TotalLen(io.iov) % s.cfg.page == 0 && TotalLen(io.iov) <= s.cfg.page / 8 * s.cfg.page
    ensures Enabled(s, AdminStep(cmd, cb, arg)) <==> SomeFree(s) && s.reqNext + s.cfg.Slots() < 0x8000_0000
    ensures Enabled(s, FetchStep) <==> s.devHead != s.sqDoorbell
    ensures Enabled(s, PostStep(k, code)) <==> k in s.exec && code < 0x8000
    ensures Enabled(s, PollStep) && (Enabled(s, DoneStep) <==> s.calling != [])
  {
    hide Pow2, IovAccepted, HasFree, SomeFree, HasPage, TotalLen, Shape, Config.Room;
    HasFreeIff(s);
    AcceptedIff(s.cfg, io.iov);
    SignedLimit();
  }

  // ---------------------------------------------------------------- what a submission does

  /** The d-th slot from the counter on is the first free one. */
  predicate FirstFree(s: Qp, d: nat) {
    && d < |s.reqs| && !s.reqs[SlotAt(s.reqNext, d, |s.reqs|)].isUsed
    && forall e: nat :: e < d ==> s.reqs[SlotAt(s.reqNext, e, |s.reqs|)].isUsed
  }

  /** r is s with a command queued and announced in the d-th slot from the counter on; the counter moves just past it,
      and every other request keeps its state. */
  predicate Queued(s: Qp, r: Qp, d: nat, cmd: Cmd, cb: nat, arg: nat)
    requires Shape(s) && |s.reqs| > 0
  {
    var c := SlotAt(s.reqNext, d, |s.reqs|);
    && FirstFree(s, d) && cmd.cid == s.reqs[c].cid
    && r.reqNext == s.reqNext + d + 1 && r.reqs == s.reqs[c := Req(cb, arg, s.reqs[c].cid, true)]
    && r.sq == s.sq[s.sqTail := cmd] && r.sqTail == r.sqDoorbell == (s.sqTail + 1) % s.cfg.q
    && r.cq == s.cq && r.cqHead == s.cqHead && r.cqDoorbell == s.cqDoorbell && r.calling == s.calling
    && |r.subs| == |s.subs| + 1 && r.subs[|s.subs|].cmd == cmd && r.subs[..|s.subs|] == s.subs
  }

  lemma FindsFirstFree(s: Qp) returns (d: nat)
    requires Shape(s) && HasFree(s)
    ensures |s.reqs| > 0 && FirstFree(s, d)
    ensures Scan(s.reqs, s.reqNext, s.cfg.Slots()) == (Some(SlotAt(s.reqNext, d, |s.reqs|)), s.reqNext + d + 1)
  {
    d := ScanSkipsUsed(s.reqs, s.reqNext, |s.reqs|);
    hide Scan;
    assert !s.reqs[SlotAt(s.reqNext, d, |s.reqs|)].isUsed by { ScanFindsFree(s.reqs, s.reqNext, |s.reqs|); }
  }

  lemma ScanFindsFree(reqs: seq<Req>, next: nat, tries: nat)
    requires |reqs| > 0
    ensures var f := Scan(reqs, next, tries).0; f.Some? ==> f.value < |reqs| && !reqs[f.value].isUsed
  {
  }

  lemma SubmitQueues(s: Qp, d: nat, sub: Sub)
    requires Shape(s) && |s.reqs| > 0 && FirstFree(s, d)
    requires var c := SlotAt(s.reqNext, d, |s.reqs|);
      sub.cmd.cid == s.reqs[c].cid && c * s.cfg.Room() + |sub.list| <= |s.prp|
    ensures var c := SlotAt(s.reqNext, d, |s.reqs|);
      Queued(s, Submit(s, c, s.reqNext + d + 1, sub), d, sub.cmd, sub.cb, sub.arg)
  {
    hide WriteList, Config.Room, Config.Good, FirstFree;
  }

  /** nvme_submit_io takes the first free request in cyclic order, moves the counter just past it, touches no other
      request, and queues and announces one command that asks for what the request wants if it starts at a block. */
  lemma SubmitTakesFirstFree(s: Qp, io: Io) returns (d: nat)
    requires Reachable(s) && Enabled(s, SubmitStep(io)) && io.offset < U64
    ensures Shape(s) && |s.reqs| > 0
    ensures var cmd := SubmitIo(s, io).subs[|s.subs|].cmd;
      && Queued(s, SubmitIo(s, io), d, cmd, io.cb, io.arg)
      && (Asks(s.cfg, cmd, io) <==> io.offset % Pow2(s.cfg.blkshift) == 0)
  {
    hide Trace, Scan, Submit, Queued, FirstFree, MakeCmd, PageList, TotalLen, Asks, Pow2, HasFree, IovAccepted;
    d := FindsFirstFree(s);
    var c := SlotAt(s.reqNext, d, |s.reqs|);
    IoSubmitted(s, io, c, s.reqNext + d + 1);
    SubmitQueues(s, d, IoSub(s.cfg, io, c, s.reqs[c].cid));
    QueuedCommand(s, SubmitIo(s, io), d, IoSub(s.cfg, io, c, s.reqs[c].cid));
    AsksIff(s.cfg, io, c, s.reqs[c].cid, PageList(io.iov, s.cfg.page));
  }

  lemma QueuedCommand(s: Qp, r: Qp, d: nat, sub: Sub)
    requires Shape(s) && |s.reqs| > 0 && Queued(s, r, d, sub.cmd, sub.cb, sub.arg)
    ensures |r.subs| == |s.subs| + 1 && r.subs[|s.subs|].cmd == sub.cmd
  {
  }

  lemma IoSubmitted(s: Qp, io: Io, slot: nat, next: nat)
    requires Shape(s) && s.cfg.Good() && HasFree(s) && IovAccepted(s.cfg, io.iov)
    requires Scan(s.reqs, s.reqNext, s.cfg.Slots()) == (Some(slot), next)
    ensures slot < s.cfg.Slots() && |PageList(io.iov, s.cfg.page)| > 0
    ensures var sub := IoSub(s.cfg, io, slot, s.reqs[slot].cid);
      && sub.cmd.cid == s.reqs[slot].cid && sub.cb == io.cb && sub.arg == io.arg
      && sub.cmd == MakeCmd(s.cfg, io, slot, s.reqs[slot].cid, PageList(io.iov, s.cfg.page))
      && slot * s.cfg.Room() + |sub.list| <= |s.prp| && SubmitIo(s, io) == Submit(s, slot, next, sub)
  {
    hide Submit, Scan, PageList, TotalLen, Cdw12;
    ListInPage(s.cfg, slot, io.iov);
  }

  /** nvme_admin_cmd_sync likewise queues exactly the command it was given, with the CID of the request it took. */
  lemma AdminTakesFirstFree(s: Qp, cmd: Cmd, cb: nat, arg: nat) returns (d: nat)
    requires Shape(s) && HasFree(s)
    ensures |s.reqs| > 0 && d < |s.reqs|
    ensures Queued(s, SubmitAdmin(s, cmd, cb, arg), d, cmd.(cid := s.reqs[SlotAt(s.reqNext, d, |s.reqs|)].cid), cb, arg)
    ensures SubmitAdmin(s, cmd, cb, arg).prp == s.prp
  {
    hide Scan, Submit, Queued, WriteList, HasFree;
    d := FindsFirstFree(s);
    FirstFreeInRange(s, d);
    var c := SlotAt(s.reqNext, d, |s.reqs|);
    TimesMonotone(c, s.cfg.Slots(), s.cfg.Room());
    AdminSubmitted(s, cmd, cb, arg, c, s.reqNext + d + 1);
    SubmitQueues(s, d, Sub(cmd.(cid := s.reqs[c].cid), [], cb, arg));
  }

  lemma FirstFreeInRange(s: Qp, d: nat)
    requires |s.reqs| > 0 && FirstFree(s, d)
    ensures d < |s.reqs|
  {
  }

  lemma AdminSubmitted(s: Qp, cmd: Cmd, cb: nat, arg: nat, slot: nat, next: nat)
    requires Shape(s) && HasFree(s) && Scan(s.reqs, s.reqNext, s.cfg.Slots()) == (Some(slot), next)
    ensures slot < s.cfg.Slots() && slot * s.cfg.Room() <= |s.prp|
    ensures SubmitAdmin(s, cmd, cb, arg) == Submit(s, slot, next, Sub(cmd.(cid := s.reqs[slot].cid), [], cb, arg))
    ensures SubmitAdmin(s, cmd, cb, arg).prp == s.prp
  {
    hide Scan;
    TimesMonotone(slot, s.cfg.Slots(), s.cfg.Room());
  }

  // ---------------------------------------------------------------- what a callback is told

  /** The callback of completion i gets 0, -38, -22 or -5 exactly for status code 0, 1, 2 or any other. */
  lemma CallbackStatus(s: Qp, i: nat)
    requires Reachable(s) && i < s.consumed
    ensures i < |s.posted| && i < |s.fired| && s.posted[i].sub < |s.subs|
    ensures var code, rc := s.posted[i].code % 256, s.fired[i].rc;
      && (rc == 0 <==> code == 0) && (rc == -38 <==> code == 1) && (rc == -22 <==> code == 2)
      && (rc == -5 <==> code > 2)
    ensures s.fired[i].cb == s.subs[s.posted[i].sub].cb && s.fired[i].arg == s.subs[s.posted[i].sub].arg
  {
    hide Reachable, Translate;
    CallbacksMatchCompletions(s);
    assert MatchesCompletion(s, i);
    TranslateIs(s.posted[i].code);
  }

  lemma TranslateIs(code: nat)
    ensures Translate(2 * code) ==
      if code % 256 == 0 then 0 else if code % 256 == 1 then -38 else if code % 256 == 2 then -22 else -5
  {
    assert (2 * code) / 2 == code;
  }

  /** When a callback has returned, its request becomes free and keeps its CID, no other request is touched, and the
      controller is told of every entry taken so far. */
  lemma DoneFreesOne(s: Qp)
    requires Reachable(s) && s.calling != []
    ensures var r := Done(s); var c := s.calling[|s.calling| - 1].cid - 1;
      && 0 <= c < |s.reqs| && s.reqs[c].isUsed && s.reqs[c].cid == c + 1
      && r.reqs == s.reqs[c := s.reqs[c].(isUsed := false)]
      && r.cqDoorbell == s.cqHead == r.cqHead && r.calling == s.calling[..|s.calling| - 1]
      && r.inflight == s.inflight && r.fired == s.fired && r.sq == s.sq && r.sqDoorbell == s.sqDoorbell
  {
    hide Trace, SqHolds, CqHolds, Lists, Fires, Census, CountUsed, Counters;
    ReachableInv(s);
    TopFrame(s);
    assert SlotOk(s, s.calling[|s.calling| - 1].cid - 1);
  }

  /** An entry with a CID of 0 or beyond the queue is stepped over: no callback, no request, no doorbell. */
  lemma BadCidIsSkipped(s: Qp)
    requires Shape(s) && s.cq[s.cqHead].status % 2 != s.cqPhase
    requires s.cq[s.cqHead].cid == 0 || s.cq[s.cqHead].cid >= s.cfg.q
    ensures var r := Poll(s);
      && r.cqHead == (s.cqHead + 1) % s.cfg.q && r.calling == s.calling && r.fired == s.fired && r.reqs == s.reqs
      && r.inflight == s.inflight && r.cqDoorbell == s.cqDoorbell
  {
  }

  // ---------------------------------------------------------------- the controller can finish

  lemma RunsCons(s: Qp, step: Step, rest: seq<Step>)
    requires Shape(s) && Enabled(s, step) && Runs(Next(s, step), rest)
    ensures Runs(s, [step] + rest) && After(s, [step] + rest) == After(Next(s, step), rest)
  {
    hide Enabled, Next;
    assert ([step] + rest)[1..] == rest;
  }

  lemma EmptyRun(s: Qp)
    requires Shape(s)
    ensures Runs(s, []) && After(s, []) == s
  {
  }

  function Fetches(n: nat): seq<Step> {
    if n == 0 then [] else [FetchStep] + Fetches(n - 1)
  }

  /** The controller sees work in the queue exactly when some command is unfetched. */
  lemma FetchPendingIff(s: Qp)
    requires Reachable(s)
    ensures Enabled(s, FetchStep) <==> s.fetched < |s.subs|
  {
    hide Trace, SqHolds, CqHolds, Lists, Fires, Posts, Calls, Owned, CidsValid, CountUsed;
    ReachableInv(s);
    RoomAlways(s);
    ModDistinct(s.fetched, |s.subs|, s.cfg.q);
  }

  /** What fetching changes. */
  lemma FetchOne(s: Qp)
    requires Reachable(s) && s.fetched < |s.subs|
    ensures Shape(s) && Enabled(s, FetchStep) && Reachable(Fetch(s)) && Next(s, FetchStep) == Fetch(s)
    ensures var r := Fetch(s);
      && r.fetched == s.fetched + 1 && r.exec.Keys == s.exec.Keys + {s.fetched} && SameQueue(s, r)
      && r.posted == s.posted && r.cfg == s.cfg
  {
    hide Trace, Enabled;
    FetchPendingIff(s);
    ReachableStep(s, FetchStep);
  }

  /** The same submissions, and the same completions consumed. */
  predicate SameQueue(s: Qp, r: Qp) {
    r.subs == s.subs && r.consumed == s.consumed && r.calling == s.calling && r.fired == s.fired
  }

  /** The submissions still in the queue. */
  function Unfetched(s: Qp): set<nat> {
    set k: nat | s.fetched <= k < |s.subs| && InSq(s, k)
  }

  ghost predicate AllFetched(s: Qp, r: Qp) {
    && Reachable(r) && SameQueue(s, r) && r.posted == s.posted && r.fetched == |r.subs| && r.cfg == s.cfg
    && r.exec.Keys == s.exec.Keys + Unfetched(s)
  }

  /** The controller can fetch every command that has been submitted. */
  lemma {:induction false} FetchesAll(s: Qp, n: nat)
    requires Reachable(s) && s.fetched <= |s.subs| && n == |s.subs| - s.fetched
    ensures Shape(s) && Runs(s, Fetches(n)) && AllFetched(s, After(s, Fetches(n)))
    decreases n
  {
    hide Reachable, Fetch, Runs, After, Enabled, Next, Shape, AllFetched;
    if n == 0 {
      NothingToFetch(s);
      EmptyRun(s);
    } else {
      FetchOne(s);
      FetchesAll(Fetch(s), n - 1);
      RunsCons(s, FetchStep, Fetches(n - 1));
      FetchedFrom(s, Fetch(s), After(s, Fetches(n)));
    }
  }

  lemma NothingToFetch(s: Qp)
    requires Reachable(s) && s.fetched == |s.subs|
    ensures Shape(s) && AllFetched(s, s)
  {
    hide Trace;
    assert Unfetched(s) == {};
  }

  lemma FetchedFrom(s: Qp, s1: Qp, r: Qp)
    requires AllFetched(s1, r) && SameQueue(s, s1) && s1.posted == s.posted && s1.cfg == s.cfg
    requires s.fetched < |s.subs| && s1.fetched == s.fetched + 1 && s1.exec.Keys == s.exec.Keys + {s.fetched}
    ensures AllFetched(s, r)
  {
    hide Reachable;
    forall k: nat | k in Unfetched(s) ensures k == s.fetched || k in Unfetched(s1) {
      assert k == s.fetched || InSq(s1, k);
    }
    forall k: nat | k in Unfetched(s1) ensures k in Unfetched(s) {
      assert InSq(s, k);
    }
    assert InSq(s, s.fetched);
    assert Unfetched(s) == {s.fetched} + Unfetched(s1);
  }

  /** Completions of these commands with these status fields, one after the other. */
  function PostSteps(posts: seq<Post>): seq<Step> {
    if posts == [] then [] else [PostStep(posts[0].sub, posts[0].code)] + PostSteps(posts[1..])
  }

  predicate Codes(posts: seq<Post>) {
    forall i: nat :: i < |posts| ==> posts[i].code < 0x8000
  }

  /** The commands completed, and that none is completed twice. */
  function Completed(posts: seq<Post>): set<nat> {
    set i: nat | i < |posts| :: posts[i].sub
  }

  predicate Once(posts: seq<Post>) {
    forall i: nat, j: nat :: i < j < |posts| ==> posts[i].sub != posts[j].sub
  }

  ghost predicate AllPosted(s: Qp, r: Qp, posts: seq<Post>) {
    && Reachable(r) && SameQueue(s, r) && r.posted == s.posted + posts && r.exec == map[] && r.fetched == s.fetched
    && r.cfg == s.cfg
  }

  lemma FirstPost(posts: seq<Post>)
    requires posts != [] && Once(posts) && Codes(posts)
    ensures posts[0].sub in Completed(posts) && Completed(posts[1..]) == Completed(posts) - {posts[0].sub}
    ensures Once(posts[1..]) && Codes(posts[1..]) && posts[0].code < 0x8000
  {
    var rest := posts[1..];
    forall x: nat | x in Completed(posts) && x != posts[0].sub ensures x in Completed(rest) {
      var i: nat :| i < |posts| && posts[i].sub == x;
      assert rest[i - 1].sub == x;
    }
    forall x: nat | x in Completed(rest) ensures x in Completed(posts) && x != posts[0].sub {
      var i: nat :| i < |rest| && rest[i].sub == x;
      assert posts[i + 1].sub == x;
    }
  }

  lemma PostOne(s: Qp, k: nat, code: nat)
    requires Reachable(s) && k in s.exec && code < 0x8000
    ensures Shape(s) && Enabled(s, PostStep(k, code)) && Next(s, PostStep(k, code)) == PostCqe(s, k, code)
    ensures Reachable(PostCqe(s, k, code))
    ensures var r := PostCqe(s, k, code);
      && r.exec.Keys == s.exec.Keys - {k} && r.posted == s.posted + [Post(k, code)] && SameQueue(s, r)
      && r.fetched == s.fetched && r.cfg == s.cfg
  {
    hide Trace, Flip;
    ReachableStep(s, PostStep(k, code));
  }

  /** The controller can complete the commands it executes in any order. */
  lemma {:induction false} AnyOrder(s: Qp, posts: seq<Post>)
    requires Reachable(s) && Once(posts) && Codes(posts) && Completed(posts) == s.exec.Keys
    ensures Shape(s) && Runs(s, PostSteps(posts)) && AllPosted(s, After(s, PostSteps(posts)), posts)
    decreases |posts|
  {
    hide Reachable, PostCqe, Runs, After, Enabled, Next, Shape, AllPosted, Completed, Once, Codes;
    if posts == [] {
      NothingToPost(s, posts);
      EmptyRun(s);
    } else {
      var k, code := posts[0].sub, posts[0].code;
      FirstPost(posts);
      PostOne(s, k, code);
      AnyOrder(PostCqe(s, k, code), posts[1..]);
      RunsCons(s, PostStep(k, code), PostSteps(posts[1..]));
      PostedFrom(s, PostCqe(s, k, code), After(s, PostSteps(posts)), posts);
    }
  }

  lemma NothingToPost(s: Qp, posts: seq<Post>)
    requires Reachable(s) && posts == [] && Completed(posts) == s.exec.Keys
    ensures Shape(s) && AllPosted(s, s, posts)
  {
    hide Trace;
    assert Completed(posts) == {};
    assert s.exec.Keys == {} && s.exec == map[];
  }

  lemma PostedFrom(s: Qp, s1: Qp, r: Qp, posts: seq<Post>)
    requires posts != [] && AllPosted(s1, r, posts[1..]) && SameQueue(s, s1)
    requires s1.fetched == s.fetched && s1.cfg == s.cfg
    requires s1.posted == s.posted + [posts[0]]
    ensures AllPosted(s, r, posts)
  {
    hide Reachable;
    assert [posts[0]] + posts[1..] == posts;
  }

  /** The submissions that have no completion yet. */
  function Unanswered(s: Qp): set<nat> {
    s.exec.Keys + Unfetched(s)
  }

  /** Fetching everything leads from s to s1, posting these completions to s2, and polling for all of them to r. */
  ghost predicate AnsweredBy(s: Qp, posts: seq<Post>, s1: Qp, s2: Qp, r: Qp) {
    && Shape(s) && s.fetched <= |s.subs| && Runs(s, Fetches(|s.subs| - s.fetched))
    && s1 == After(s, Fetches(|s.subs| - s.fetched)) && Runs(s1, PostSteps(posts)) && s2 == After(s1, PostSteps(posts))
    && s2.posted == s.posted + posts && s.consumed <= |s2.posted| && Runs(s2, Polls(|s2.posted| - s.consumed))
    && r == After(s2, Polls(|s2.posted| - s.consumed))
  }

  /** Nothing is left to do: every callback has run, every request is free, and both queues are empty. */
  predicate AllDone(s: Qp) {
    && |s.fired| == s.consumed == |s.posted| == |s.subs| && s.inflight == 0 && !SomeUsed(s)
    && s.cqHead == s.cqDoorbell && s.sqTail == s.sqDoorbell == s.devHead
  }

  predicate SomeUsed(s: Qp) {
    exists c: nat :: c < |s.reqs| && s.reqs[c].isUsed
  }

  /** Every command is answered: from every reachable state outside callbacks, the controller can fetch all commands and
      complete all of them in any order and with any status, and as many polls as there are then completions run every
      callback, free every request and give both queues back empty. */
  lemma EveryCommandIsAnswered(s: Qp, posts: seq<Post>) returns (s1: Qp, s2: Qp, r: Qp)
    requires Reachable(s) && s.calling == [] && Once(posts) && Codes(posts) && Completed(posts) == Unanswered(s)
    ensures AnsweredBy(s, posts, s1, s2, r) && r.subs == s.subs && r.posted == s.posted + posts && AllDone(r)
  {
    hide *;
    ReachableInv(s);
    InOrder(s);
    FetchesAll(s, |s.subs| - s.fetched);
    s1 := After(s, Fetches(|s.subs| - s.fetched));
    FetchedFields(s, s1);
    AnyOrder(s1, posts);
    s2 := After(s1, PostSteps(posts));
    PostedFields(s1, s2, posts);
    ReachableInv(s2);
    InOrder(s2);
    PollsDrain(s2, |s2.posted| - s.consumed);
    r := After(s2, Polls(|s2.posted| - s.consumed));
    DrainedClean(s2, r);
    AnsweredInTurn(s, posts, s1, s2, r);
  }

  lemma AnsweredInTurn(s: Qp, posts: seq<Post>, s1: Qp, s2: Qp, r: Qp)
    requires Shape(s) && s.fetched <= |s.subs| && Runs(s, Fetches(|s.subs| - s.fetched))
    requires s1 == After(s, Fetches(|s.subs| - s.fetched))
    requires Runs(s1, PostSteps(posts)) && s2 == After(s1, PostSteps(posts))
    requires s2.posted == s.posted + posts && s.consumed <= |s2.posted| && Runs(s2, Polls(|s2.posted| - s.consumed))
    requires r == After(s2, Polls(|s2.posted| - s.consumed))
    ensures AnsweredBy(s, posts, s1, s2, r)
  {
    hide Runs, After, Shape, Fetches, PostSteps, Polls;
  }

  lemma InOrder(s: Qp)
    requires Inv(s)
    ensures Shape(s) && s.consumed <= |s.posted| <= s.fetched <= |s.subs| && |s.exec| == s.fetched - |s.posted|
  {
    hide Census, CidsValid, SqHolds, Posts, CqHolds, Calls, Owned, Lists, Fires;
  }

  lemma FetchedFields(s: Qp, r: Qp)
    requires AllFetched(s, r)
    ensures Reachable(r) && r.exec.Keys == Unanswered(s) && r.subs == s.subs && r.posted == s.posted
    ensures r.consumed == s.consumed && r.calling == s.calling && r.fetched == |r.subs|
  {
    hide Reachable;
  }

  lemma PostedFields(s: Qp, r: Qp, posts: seq<Post>)
    requires AllPosted(s, r, posts)
    ensures Reachable(r) && r.posted == s.posted + posts && r.subs == s.subs && r.consumed == s.consumed
    ensures r.calling == s.calling && r.fetched == s.fetched && |r.exec| == 0
  {
    hide Reachable;
  }

  lemma DrainedClean(s: Qp, r: Qp)
    requires Inv(s) && Drained(s, r) && |s.posted| == s.fetched == |s.subs|
    ensures r.subs == s.subs && r.posted == s.posted && AllDone(r)
  {
    hide CidsValid, SqHolds, Posts, CqHolds, Calls, Owned, Lists, Fires, CountUsed;
    if SomeUsed(r) {
      var c: nat :| c < |r.reqs| && r.reqs[c].isUsed;
      CountUsedUpdate(r.reqs, c, r.reqs[c].(isUsed := false));
    }
  }
}
