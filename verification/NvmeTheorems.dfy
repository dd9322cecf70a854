/** What the NVMe driver guarantees, over every reachable state and every run. */
module NvmeTheorems {
  import opened Words
  import opened Prp
  import opened NvmeModel
  import opened NvmeInvariant

  // ---------------------------------------------------------------- slot allocation

  /** The search passes over used slots only; d is the number of slots it skips. */
  lemma {:induction false} ScanSkipsUsed(reqs: seq<Req>, next: nat, tries: nat) returns (d: nat)
    requires |reqs| > 0
    ensures d <= tries
    ensures forall e: nat {:trigger SlotAt(next, e, |reqs|)} :: e < d ==> reqs[SlotAt(next, e, |reqs|)].isUsed
    ensures var (found, after) := Scan(reqs, next, tries);
      if d == tries then found == None && after == next + d
      else found == Some(SlotAt(next, d, |reqs|)) && after == next + d + 1
    decreases tries
  {
    if tries == 0 {
      d := 0;
    } else if reqs[next % |reqs|].isUsed {
      var d' := ScanSkipsUsed(reqs, next + 1, tries - 1);
      d := d' + 1;
      forall e: nat | e < d ensures reqs[SlotAt(next, e, |reqs|)].isUsed {
        if e > 0 { assert SlotAt(next, e, |reqs|) == SlotAt(next + 1, e - 1, |reqs|); }
      }
      assert SlotAt(next, d, |reqs|) == SlotAt(next + 1, d', |reqs|);
    } else {
      d := 0;
    }
  }

  /** The slot visited after d steps from a counter value. */
  function SlotAt(next: nat, d: nat, n: pos): (r: nat)
    ensures r < n
  {
    (next + d) % n
  }

  /** The number of steps from a counter value to slot c. */
  lemma StepsTo(next: nat, c: nat, n: pos) returns (d: nat)
    requires c < n
    ensures d < n && SlotAt(next, d, n) == c
  {
    var r := next % n;
    DivMod(next, n);
    if r <= c {
      d := c - r;
      ModIs(next + d, n, next / n, c);
    } else {
      d := c + n - r;
      ModIs(next + d, n, next / n + 1, c);
    }
  }

  /** Round-robin allocation is complete: the slots visited are all different, the search fails exactly when
      every slot is used, and otherwise takes the first free slot in cyclic order. */
  lemma RoundRobinIsComplete(reqs: seq<Req>, next: nat)
    requires |reqs| > 0
    ensures forall d: nat, e: nat :: d <= e < |reqs| && SlotAt(next, d, |reqs|) == SlotAt(next, e, |reqs|) ==> d == e
    ensures Scan(reqs, next, |reqs|).0 == None <==> forall c: nat :: c < |reqs| ==> reqs[c].isUsed
    ensures Scan(reqs, next, |reqs|).0.Some? ==>
      exists d: nat :: d < |reqs| && Scan(reqs, next, |reqs|).0.value == SlotAt(next, d, |reqs|)
        && Scan(reqs, next, |reqs|).1 == next + d + 1
        && forall e: nat :: e < d ==> reqs[SlotAt(next, e, |reqs|)].isUsed
  {
    var n := |reqs|;
    var d := ScanSkipsUsed(reqs, next, n);
    forall a: nat, b: nat | a <= b < n && SlotAt(next, a, n) == SlotAt(next, b, n) ensures a == b {
      ModDistinct(next + a, next + b, n);
    }
    if d == n {
      forall c: nat | c < n ensures reqs[c].isUsed {
        var e := StepsTo(next, c, n);
        assert reqs[SlotAt(next, e, n)].isUsed;
      }
    }
  }

  // ---------------------------------------------------------------- ownership

  predicate InSq(s: Qp, k: nat) { s.fetched <= k < |s.subs| }
  predicate Executing(s: Qp, k: nat) { k in s.exec }
  predicate InCq(s: Qp, k: nat) { k in s.postedAt && s.consumed <= s.postedAt[k] }
  predicate CalledBack(s: Qp, k: nat) { k in s.postedAt && InCall(s, s.postedAt[k]) }

  /** Exactly one of four. */
  predicate OneOf(a: bool, b: bool, c: bool, d: bool) {
    (a || b || c || d) && !(a && b) && !(a && c) && !(a && d) && !(b && c) && !(b && d) && !(c && d)
  }

  lemma StagesExclusive(s: Qp, k: nat)
    requires Inv(s) && Outstanding(s, k)
    ensures k < |s.subs| && OneOf(InSq(s, k), Executing(s, k), InCq(s, k), CalledBack(s, k))
  {
    hide SqHolds, CqHolds, Owned, Lists, Fires, Census, CidsValid;
    if k in s.postedAt {
      assert PostedOnce(s, s.postedAt[k]);
      if InCall(s, s.postedAt[k]) {
        var x: nat :| x < |s.calling| && s.calling[x].post == s.postedAt[k];
        assert FrameOk(s, s.calling[x]);
      }
    }
  }

  /** In every reachable state, also inside nested callbacks, a slot is used exactly when some submission owns it;
      that submission is unique, and it is either unfetched in the submission queue, executing, posted but not
      consumed, or being called back, and only one of these. */
  lemma OwnershipPartition(s: Qp, c: nat)
    requires Reachable(s) && c < s.cfg.Slots()
    ensures s.reqs[c].isUsed <==> exists k: nat :: k < |s.subs| && Outstanding(s, k) && SlotOf(s, k) == c
    ensures s.reqs[c].isUsed ==>
      var k := s.owner[c];
      && k < |s.subs| && SlotOf(s, k) == c && s.subs[k].cmd.cid == s.reqs[c].cid
      && OneOf(InSq(s, k), Executing(s, k), InCq(s, k), CalledBack(s, k))
      && forall j: nat :: j < |s.subs| && Outstanding(s, j) && SlotOf(s, j) == c ==> j == k
  {
    hide Reachable, SqHolds, CqHolds, Lists, Fires, Census, Posts, Calls;
    ReachableInv(s);
    assert SlotOk(s, c);
    if s.reqs[c].isUsed { StagesExclusive(s, s.owner[c]); }
  }

  /** The used slots are counted by the four stages; unfetched and unconsumed entries each leave a queue slot free. */
  lemma StagesAddUp(s: Qp)
    requires Reachable(s)
    ensures CountUsed(s.reqs) == (|s.subs| - s.fetched) + |s.exec| + (|s.posted| - s.consumed) + |s.calling|
    ensures (|s.subs| - s.fetched) + |s.exec| + (|s.posted| - s.consumed) + |s.calling| <= s.cfg.q - 1
  {
    hide Reachable, SqHolds, CqHolds, Lists, Fires, Posts, Calls, Owned, CidsValid, CountUsed;
    ReachableInv(s);
    RoomAlways(s);
  }

  /** Submitting never overwrites an unfetched command, and never makes a full queue look empty, although the driver
      does not read the head the controller reports. */
  lemma SubmitNeverOverwrites(s: Qp)
    requires Reachable(s) && HasFree(s)
    ensures forall k: nat :: s.fetched <= k < |s.subs| ==> k % s.cfg.q != s.sqTail
    ensures (s.sqTail + 1) % s.cfg.q != s.devHead
  {
    hide Reachable, SqHolds, CqHolds, Lists, Fires, Posts, Calls, Owned, CidsValid, CountUsed;
    ReachableInv(s);
    var c := Scan(s.reqs, s.reqNext, s.cfg.Slots()).0.value;
    forall k: nat | s.fetched <= k < |s.subs| ensures k % s.cfg.q != s.sqTail {
      TailIsFree(s, c, k);
    }
    RoomWithFreeSlot(s, c);
    ModNext(|s.subs|, s.cfg.q);
    ModDistinct(s.fetched, |s.subs| + 1, s.cfg.q);
  }

  /** Completing a command never overwrites an unconsumed entry, and the controller never has to wait: the queue is
      not full even by the head the driver last announced, however deep callbacks are nested. */
  lemma CompletionNeverOverflows(s: Qp, k: nat)
    requires Reachable(s) && k in s.exec
    ensures forall i: nat :: s.consumed <= i < |s.posted| ==> i % s.cfg.q != s.devTail
    ensures (s.devTail + 1) % s.cfg.q != s.cqDoorbell
  {
    hide Reachable, SqHolds, CqHolds, Lists, Fires, Posts, Calls, Owned, CidsValid, CountUsed;
    ReachableInv(s);
    RoomAlways(s);
    PostCounters(s, k, 0);
    forall i: nat | s.consumed <= i < |s.posted| ensures i % s.cfg.q != s.devTail {
      PostSlotIsFree(s, k, i);
    }
    ModNext(|s.posted|, s.cfg.q);
    ModDistinct(s.released, |s.posted| + 1, s.cfg.q);
  }

  // ---------------------------------------------------------------- phase tag

  /** Over any number of wraps, the phase test at the head of the completion queue holds exactly when the
      controller has posted an entry that the host has not consumed; that entry is then intact, so entries are
      consumed once and in posting order. */
  lemma PhaseTagIsExact(s: Qp)
    requires Reachable(s)
    ensures s.cq[s.cqHead].status % 2 != s.cqPhase <==> s.consumed < |s.posted|
    ensures s.consumed < |s.posted| ==>
      PostedOnce(s, s.consumed) && s.posted[s.consumed].sub < |s.subs| && s.cq[s.cqHead] == CqeOf(s, s.consumed)
    ensures Poll(s).consumed == s.consumed + if s.consumed < |s.posted| then 1 else 0
  {
    hide Reachable, SqHolds, Lists, Fires, Calls, Owned, CidsValid, CountUsed, CqHolds;
    ReachableInv(s);
    RoomAlways(s);
    PhaseIff(s);
    PollFinds(s);
    if s.consumed < |s.posted| { PollFields(s); }
  }

  // ---------------------------------------------------------------- callbacks

  /** The i-th callback run is the one of the submission that the i-th consumed completion names, with its own argument
      and the translation of that completion's status; no submission is called back twice. */
  lemma CallbacksMatchCompletions(s: Qp)
    requires Reachable(s)
    ensures |s.fired| == s.consumed <= |s.posted|
    ensures forall i: nat :: i < s.consumed ==> MatchesCompletion(s, i)
    ensures forall i: nat, j: nat :: i < j < |s.posted| ==> s.posted[i].sub != s.posted[j].sub
  {
    hide *;
    ReachableInv(s);
    FiredFacts(s);
    forall i: nat | i < s.consumed ensures MatchesCompletion(s, i) {
      FiredMatches(s, i);
    }
    forall i: nat, j: nat | i < j < |s.posted| ensures s.posted[i].sub != s.posted[j].sub {
      PostedAtIs(s, i);
      PostedAtIs(s, j);
    }
  }

  lemma FiredFacts(s: Qp)
    requires Inv(s)
    ensures Fires(s) && Posts(s) && |s.fired| == s.consumed <= |s.posted|
  {
    hide Census, CidsValid, SqHolds, Posts, CqHolds, Calls, Owned, Lists, Fires;
  }

  lemma FiredMatches(s: Qp, i: nat)
    requires Posts(s) && Fires(s) && i < s.consumed
    ensures i < |s.posted| && i < |s.fired| && MatchesCompletion(s, i)
  {
    hide Translate;
    assert PostedOnce(s, i) && FiredOk(s, i);
    TranslateIgnoresPhase(s.posted[i].code, PhaseOf(i, s.cfg.q));
  }

  /** Callback i belongs to the submission that completion i names, and got the status of completion i. */
  predicate MatchesCompletion(s: Qp, i: nat)
    requires i < |s.posted| && i < |s.fired|
  {
    var k := s.posted[i].sub;
    k < |s.subs| && s.fired[i] == Fired(s.subs[k].cb, s.subs[k].arg, Translate(2 * s.posted[i].code))
  }

  lemma TranslateIgnoresPhase(code: nat, p: nat)
    requires p < 2
    ensures Translate(2 * code + p) == Translate(2 * code)
  {
    assert (2 * code + p) / 2 == code == (2 * code) / 2;
  }

  /** Once everything submitted has been consumed, every submission has been called back exactly once. */
  lemma EverySubmissionAnswered(s: Qp, k: nat)
    requires Reachable(s) && s.consumed == |s.subs| && k < |s.subs|
    ensures k in s.postedAt && s.postedAt[k] < |s.fired| <= |s.posted| && s.posted[s.postedAt[k]].sub == k
    ensures forall i: nat :: i < |s.posted| && s.posted[i].sub == k ==> i == s.postedAt[k]
    ensures |s.fired| == |s.subs|
  {
    hide Reachable, SqHolds, CqHolds, Owned, Lists, Census, CidsValid, Calls, Fires;
    ReachableInv(s);
    assert s.exec == map[] by { assert |s.exec| == 0; }
    forall i: nat | i < |s.posted| && s.posted[i].sub == k ensures i == s.postedAt[k] {
      assert PostedOnce(s, i);
    }
  }

  /** The status code and the status code type of a status word (section 4.6.1 of NVM Express 1.4). */
  function StatusCode(status: nat): nat { status / 2 % 256 }
  function StatusCodeType(status: nat): nat { status / 512 % 8 }

  predicate Succeeded(status: nat) { StatusCode(status) == 0 && StatusCodeType(status) == 0 }

  /** The callback is told 0 exactly for successful commands, unless a status of a type other than generic has code
      0: those failures are reported as success. */
  lemma SuccessReportedIff(status: nat)
    ensures (Translate(status) == 0 <==> Succeeded(status))
      <==> !(StatusCode(status) == 0 && StatusCodeType(status) != 0)
  {
  }

  /** Command specific status 0 (completion queue invalid) is taken for success. */
  lemma FailureTakenForSuccess()
    ensures Translate(0x200) == 0 && !Succeeded(0x200)
  {
  }

  // ---------------------------------------------------------------- accounting

  /** Between calls nothing waits for a doorbell, both doorbells show the driver's indices, and inflight counts the used
      requests; inside callbacks it counts one less for each of them. */
  lemma AccountingIsConserved(s: Qp)
    requires Reachable(s)
    ensures s.needKick == 0 && s.sqDoorbell == s.sqTail
    ensures s.inflight == CountUsed(s.reqs) - |s.calling|
    ensures s.calling == [] ==> s.cqDoorbell == s.cqHead && s.inflight == CountUsed(s.reqs)
  {
    hide Reachable, SqHolds, CqHolds, Lists, Fires, Posts, Calls, Owned, CidsValid, CountUsed;
    ReachableInv(s);
  }

  // ---------------------------------------------------------------- command arithmetic

  /** The number of blocks minus one that a command carries. */
  function Nlb(cmd: Cmd): nat { cmd.cdw12 % U16 }

  /** The transfer length a controller takes from a command. */
  function DataLen(cfg: Config, cmd: Cmd): nat { (Nlb(cmd) + 1) * Pow2(cfg.blkshift) }

  lemma FlagsOf(bytes: nat, blkshift: nat, fua: bool)
    ensures Cdw12(bytes, blkshift, fua) / 0x1_0000 == if fua then 0x4000 else 0
  {
    var lo := (bytes / Pow2(blkshift) - 1) % U64 % U16;
    ModIs(lo + FUA, U16, 0x4000, lo);
    ModIs(lo, U16, 0, lo);
  }

  lemma NlbOf(bytes: nat, blkshift: nat, fua: bool)
    ensures Cdw12(bytes, blkshift, fua) % U16 == (bytes / Pow2(blkshift) - 1) % U16
  {
    var x := bytes / Pow2(blkshift) - 1;
    ModOfMod(x, U16, 0x1_0000_0000_0000);
    var lo := x % U64 % U16;
    assert FUA == U16 * 0x4000;
    ModIs(lo + FUA, U16, 0x4000, lo);
    ModSmall(lo, U16);
  }

  /** The block count of a command covers exactly bytes, if and only if bytes is between one and 65536 whole blocks. */
  lemma BlockCountIff(cfg: Config, bytes: nat, fua: bool)
    ensures (Cdw12(bytes, cfg.blkshift, fua) % U16 + 1) * Pow2(cfg.blkshift) == bytes
      <==> bytes % Pow2(cfg.blkshift) == 0 && 0 < bytes / Pow2(cfg.blkshift) <= U16
  {
    var b := Pow2(cfg.blkshift);
    var m, n := bytes / b, Cdw12(bytes, cfg.blkshift, fua) % U16;
    NlbOf(bytes, cfg.blkshift, fua);
    hide Cdw12, Pow2;
    DivMod(bytes, b);
    assert n + 1 == m <==> 0 < m <= U16 by {
      if 0 < m <= U16 { ModSmall(m - 1, U16); }
    }
    if (n + 1) * b == bytes {
      ModIs(bytes, b, n + 1, 0);
    } else if bytes % b == 0 {
      assert bytes == b * m && n + 1 != m;
    }
  }

  lemma WholeBlocks(b: nat, k: nat, n: nat)
    requires b * k == 4096 && 0 < k <= 8 && 0 < n <= 512
    ensures (4096 * n) % b == 0 && 0 < (4096 * n) / b <= U16
  {
    assert 4096 * n == b * (k * n) by { Reassociate(b, k, n); }
    ModIs(4096 * n, b, k * n, 0);
    TimesMonotone(k, 8, n);
    TimesMonotone(1, k, n);
  }

  /** With 4 KiB pages and blocks of 512 bytes to 4 KiB, every scatter list that is accepted and whose total is the byte
      count has a block count that is not truncated. */
  lemma BlockCountIsExact(cfg: Config, io: Io)
    requires cfg.page == 4096 && 9 <= cfg.blkshift <= 12 && IovAccepted(cfg, io.iov) && io.bytes == TotalLen(io.iov)
    ensures io.bytes % Pow2(cfg.blkshift) == 0 && 0 < io.bytes / Pow2(cfg.blkshift) <= U16
    ensures (Cdw12(io.bytes, cfg.blkshift, io.fua) % U16 + 1) * Pow2(cfg.blkshift) == io.bytes
    ensures WholePages(io.iov, cfg.page) ==> io.bytes == |PageList(io.iov, cfg.page)| * cfg.page
  {
    var b, k := Pow2(cfg.blkshift), Pow2(12 - cfg.blkshift);
    Pow2Add(cfg.blkshift, 12 - cfg.blkshift);
    Pow2Values();
    Pow2Monotone(12 - cfg.blkshift, 3);
    assert Pow2(3) == 8;
    hide Pow2, Cdw12, PageList, TotalLen, WholePages;
    EntriesCoverIff(io.iov, cfg.page);
    var n := io.bytes / 4096;
    DivMod(io.bytes, 4096);
    WholeBlocks(b, k, n);
    BlockCountIff(cfg, io.bytes, io.fua);
  }

  /** The starting block address rejoins from CDW10 and CDW11. */
  lemma BlockAddressRejoins(cfg: Config, io: Io, slot: nat, cid: nat, list: seq<nat>)
    requires |list| > 0 && io.offset < U64
    ensures var cmd := MakeCmd(cfg, io, slot, cid, list);
      cmd.cdw11 * U32 + cmd.cdw10 == io.offset / Pow2(cfg.blkshift) && cmd.cdw10 < U32 && cmd.cdw11 < U32
  {
    var lba := io.offset / Pow2(cfg.blkshift);
    QuotientSmaller(io.offset, Pow2(cfg.blkshift));
    hide Pow2, Cdw12;
    assert lba < U64 && lba / U32 < U32;
    ModSmall(lba / U32, U32);
  }

  lemma QuotientSmaller(x: nat, m: pos)
    ensures x / m <= x
  {
    DivModIs(x, m);
    if x / m > x { TimesMonotone(1, m, x / m); }
  }

  // ---------------------------------------------------------------- page lists

  /** The requests for which the command describes exactly the buffers: whole, page-aligned segments of real
      memory whose total is the byte count, a multiple of the block size, from the start of a block on. */
  predicate WellFormed(cfg: Config, io: Io) {
    && WholePages(io.iov, cfg.page) && Aligned(io.iov, cfg.page) && InAddressSpace(io.iov)
    && io.bytes == TotalLen(io.iov)
    && io.bytes % Pow2(cfg.blkshift) == 0 && 0 < io.bytes / Pow2(cfg.blkshift) <= U16
    && io.offset % Pow2(cfg.blkshift) == 0
  }

  /** The page list is stored where the command's PRP2 points. */
  lemma ListStored(cfg: Config, prp: seq<nat>, slot: nat, list: seq<nat>)
    requires cfg.Good() && slot * cfg.Room() + |list| <= |prp|
    requires prp[slot * cfg.Room()..slot * cfg.Room() + |list|] == list
    ensures Stored(list, ListAddr(cfg, slot), prp, cfg.listBase)
  {
    var at := slot * cfg.Room();
    DivMod(cfg.page, ENTRY_BYTES);
    assert slot * cfg.page == ENTRY_BYTES * at by { Reassociate(slot, ENTRY_BYTES, cfg.Room()); }
    forall e: nat | e < |list| ensures ReadWord(prp, cfg.listBase, ListAddr(cfg, slot) + ENTRY_BYTES * e) == list[e] {
      assert (ENTRY_BYTES * (at + e)) / ENTRY_BYTES == at + e;
      assert prp[at..at + |list|][e] == prp[at + e];
    }
  }

  lemma Reassociate(a: nat, b: nat, c: nat)
    ensures a * (b * c) == b * (a * c)
  {
  }

  lemma ListAddrAligned(cfg: Config, slot: nat)
    requires cfg.Good()
    ensures ListAddr(cfg, slot) % cfg.page == 0
  {
    MultipleAligned(cfg.listBase, slot, cfg.page);
  }

  /** What a controller makes of a command: where its data pages are. */
  function Transfer(cfg: Config, prp: seq<nat>, cmd: Cmd): Decoded
    requires cfg.Good()
  {
    Decode(cmd.prp1, cmd.prp2, DataLen(cfg, cmd), prp, cfg.listBase, cfg.page)
  }

  /** The controller reads direction, namespace, forced unit access (bit 30 of CDW12) and start off the command as
      they were asked for, and no other flag. */
  predicate Asks(cfg: Config, cmd: Cmd, io: Io) {
    && (cmd.opcode == 1 <==> io.isWrite) && (cmd.opcode == 2 <==> !io.isWrite)
    && cmd.nsid == cfg.nsid && cmd.cdw12 / 0x1_0000 == (if io.fua then 0x4000 else 0)
    && (cmd.cdw11 * U32 + cmd.cdw10) * Pow2(cfg.blkshift) == io.offset
  }

  /** The command asks for what the request wants; it moves as many bytes as were asked for, the scatter list and the
      page list have just as many, and the controller finds exactly the pages of the page list. */
  predicate Exact(cfg: Config, prp: seq<nat>, cmd: Cmd, io: Io)
    requires cfg.Good()
  {
    && Asks(cfg, cmd, io)
    && DataLen(cfg, cmd) == io.bytes == TotalLen(io.iov) == |PageList(io.iov, cfg.page)| * cfg.page
    && Transfer(cfg, prp, cmd) == Pages(PageList(io.iov, cfg.page))
  }

  /** The command asks for the right transfer exactly when that starts at a block. */
  lemma AsksIff(cfg: Config, io: Io, slot: nat, cid: nat, list: seq<nat>)
    requires |list| > 0 && io.offset < U64
    ensures Asks(cfg, MakeCmd(cfg, io, slot, cid, list), io) <==> io.offset % Pow2(cfg.blkshift) == 0
  {
    FlagsOf(io.bytes, cfg.blkshift, io.fua);
    BlockAddressRejoins(cfg, io, slot, cid, list);
    hide Pow2, Cdw12;
    DivMod(io.offset, Pow2(cfg.blkshift));
  }

  /** The list page of a slot starts with the given list. */
  predicate ListAt(cfg: Config, prp: seq<nat>, slot: nat, list: seq<nat>) {
    var at := slot * cfg.Room();
    0 < |list| <= cfg.Room() && at + |list| <= |prp| && prp[at..at + |list|] == list
  }

  /** A command over a stored page list is exact if and only if the request is well formed. */
  lemma ExactIff(cfg: Config, prp: seq<nat>, io: Io, slot: nat, cid: nat)
    requires cfg.Good() && io.offset < U64 && InAddressSpace(io.iov)
    requires ListAt(cfg, prp, slot, PageList(io.iov, cfg.page))
    ensures Exact(cfg, prp, MakeCmd(cfg, io, slot, cid, PageList(io.iov, cfg.page)), io) <==> WellFormed(cfg, io)
  {
    hide Stored, Decode, PageList, TotalLen, WholePages, Aligned, InAddressSpace, Asks, Pow2, Cdw12;
    var list := PageList(io.iov, cfg.page);
    ListStored(cfg, prp, slot, list);
    ListAddrAligned(cfg, slot);
    AsksIff(cfg, io, slot, cid, list);
    BlockCountIff(cfg, io.bytes, io.fua);
    EntriesCoverIff(io.iov, cfg.page);
    ListAlignedIff(io.iov, cfg.page);
    assert |list| * ENTRY_BYTES <= cfg.page by { DivMod(cfg.page, ENTRY_BYTES); }
    RoundTripIff(list, ListAddr(cfg, slot), prp, cfg.listBase, cfg.page);
  }

  /** While a submission is outstanding, its transfer is exact if and only if the request is well formed. */
  lemma OutstandingExactIff(s: Qp, k: nat, io: Io, slot: nat)
    requires Reachable(s) && k < |s.subs| && Outstanding(s, k)
    requires IovAccepted(s.cfg, io.iov) && InAddressSpace(io.iov) && io.offset < U64
    requires s.subs[k] == IoSub(s.cfg, io, slot, slot + 1)
    ensures Exact(s.cfg, s.prp, s.subs[k].cmd, io) <==> WellFormed(s.cfg, io)
  {
    hide *;
    ReachableInv(s);
    OutstandingListHolds(s, k);
    OutstandingList(s, k, io, slot);
    ExactIff(s.cfg, s.prp, io, slot, slot + 1);
  }

  lemma OutstandingList(s: Qp, k: nat, io: Io, slot: nat)
    requires Shape(s) && CidsValid(s) && k < |s.subs| && ListHolds(s, k)
    requires IovAccepted(s.cfg, io.iov) && s.subs[k] == IoSub(s.cfg, io, slot, slot + 1)
    ensures var list := PageList(io.iov, s.cfg.page);
      ListAt(s.cfg, s.prp, slot, list) && s.subs[k].cmd == MakeCmd(s.cfg, io, slot, slot + 1, list)
  {
    hide PageList, TotalLen, Cdw12, Config.Room;
    assert SlotOf(s, k) == slot;
  }

  lemma OutstandingListHolds(s: Qp, k: nat)
    requires Inv(s) && k < |s.subs| && Outstanding(s, k)
    ensures s.cfg.Good() && Shape(s) && CidsValid(s) && ListHolds(s, k)
  {
    hide Counters, Census, SqHolds, Posts, CqHolds, Calls, Owned, Fires, Outstanding, ListHolds;
  }

  /** Checking the alignment of the total only accepts a list of half a page and one and a half pages, whose page list
      covers one page of the two. */
  lemma TotalAlignmentIsNotEnough()
    ensures var cfg := Config(128, 4096, 9, 1, 0);
      var iov := [Segment(0x10000, 2048), Segment(0x20000, 6144)];
      cfg.Good() && IovAccepted(cfg, iov) && TotalLen(iov) == 8192 && |PageList(iov, cfg.page)| == 1
  {
    var iov := [Segment(0x10000, 2048), Segment(0x20000, 6144)];
    assert iov[..1] == [iov[0]] && iov[..1][..0] == [];
    assert TotalLen(iov[..1]) == 2048 && PageList(iov[..1], 4096) == [];
  }

  /** Every byte of a well-formed transfer goes to or comes from its own byte of the scatter list. */
  lemma TransferMeansRequest(s: Qp, k: nat, io: Io, slot: nat)
    requires Reachable(s) && k < |s.subs| && Outstanding(s, k) && IovAccepted(s.cfg, io.iov) && WellFormed(s.cfg, io)
    requires io.offset < U64 && s.subs[k] == IoSub(s.cfg, io, slot, slot + 1)
    ensures MeansBytes(Transfer(s.cfg, s.prp, s.subs[k].cmd), io.iov, s.cfg.page)
  {
    hide Reachable, Decode, Outstanding, Transfer, MeansBytes, Asks;
    OutstandingExactIff(s, k, io, slot);
    WholeListMeansBytes(io.iov, s.cfg.page);
  }

  lemma NextGrows(s: Qp, step: Step)
    requires Shape(s) && Enabled(s, step)
    ensures s.subs <= Next(s, step).subs
  {
    hide Scan, WriteList, IoSub;
  }

  lemma {:induction false} RunGrows(s: Qp, steps: seq<Step>)
    requires Shape(s) && Runs(s, steps)
    ensures s.subs <= After(s, steps).subs
    decreases |steps|
  {
    if steps != [] {
      NextGrows(s, steps[0]);
      hide Next, Enabled;
      RunGrows(Next(s, steps[0]), steps[1..]);
    }
  }

  /** Integrity of outstanding commands: whatever other submissions, polls, callbacks and controller steps follow, until
      its completion has been called back a command is intact in the submission queue until it is fetched and in the
      controller afterwards, and its list page decodes to exactly the pages its submitter passed, if and only if those
      were well formed. */
  lemma CommandIntegrity(s: Qp, io: Io, steps: seq<Step>)
    requires Reachable(s) && Enabled(s, SubmitStep(io)) && InAddressSpace(io.iov) && io.offset < U64
    requires Runs(SubmitIo(s, io), steps)
    ensures var r := After(SubmitIo(s, io), steps); var k := |s.subs|;
      && k < |r.subs| && r.subs[k].cb == io.cb && r.subs[k].arg == io.arg
      && (Outstanding(r, k) ==>
        && var cmd := r.subs[k].cmd;
        && (InSq(r, k) ==> r.sq[k % r.cfg.q] == cmd) && (Executing(r, k) ==> r.exec[k] == cmd)
        && 0 < cmd.cid <= |r.reqs| && RequestHolds(r, cmd.cid - 1, io)
        && (Exact(r.cfg, r.prp, cmd, io) <==> WellFormed(s.cfg, io)))
  {
    hide *;
    var slot := SubmitRecords(s, io);
    var k, r := |s.subs|, After(SubmitIo(s, io), steps);
    ReachableStep(s, SubmitStep(io));
    ReachableRun(SubmitIo(s, io), steps);
    ReachableInv(r);
    RunGrows(SubmitIo(s, io), steps);
    StillIntact(r, k);
    if Outstanding(r, k) {
      OutstandingExactIff(r, k, io, slot);
      RequestStillHolds(r, k, io);
    }
  }

  /** The request keeps its CID, is used, and still holds the callback and argument it was given. */
  predicate RequestHolds(s: Qp, slot: nat, io: Io)
    requires slot < |s.reqs|
  {
    s.reqs[slot] == Req(io.cb, io.arg, slot + 1, true)
  }

  lemma RequestStillHolds(r: Qp, k: nat, io: Io)
    requires Inv(r) && k < |r.subs| && Outstanding(r, k) && r.subs[k].cb == io.cb && r.subs[k].arg == io.arg
    ensures 0 < r.subs[k].cmd.cid <= |r.reqs| && RequestHolds(r, r.subs[k].cmd.cid - 1, io)
  {
    hide Counters, Census, SqHolds, CqHolds, Calls, Lists, Fires, Outstanding;
    assert SlotOk(r, SlotOf(r, k));
  }

  /** What a submission records in the history. */
  lemma SubmitRecords(s: Qp, io: Io) returns (slot: nat)
    requires Reachable(s) && Enabled(s, SubmitStep(io))
    ensures Shape(s) && s.cfg.Good() && HasFree(s) && IovAccepted(s.cfg, io.iov) && |PageList(io.iov, s.cfg.page)| > 0
    ensures var s1 := SubmitIo(s, io);
      && s1 == Next(s, SubmitStep(io)) && |s1.subs| == |s.subs| + 1
      && s1.subs[|s.subs|] == IoSub(s.cfg, io, slot, slot + 1)
    ensures var sub := IoSub(s.cfg, io, slot, slot + 1); sub.cb == io.cb && sub.arg == io.arg
  {
    hide SqHolds, CqHolds, Lists, Fires, Posts, Calls, Census, Counters, WriteList, MakeCmd;
    ReachableInv(s);
    slot := Scan(s.reqs, s.reqNext, s.cfg.Slots()).0.value;
    assert SlotOk(s, slot);
  }

  lemma StillIntact(r: Qp, k: nat)
    requires Inv(r) && k < |r.subs|
    ensures Shape(r) && (InSq(r, k) ==> r.sq[k % r.cfg.q] == r.subs[k].cmd)
    ensures Executing(r, k) ==> r.exec[k] == r.subs[k].cmd
  {
    hide Census, CidsValid, CqHolds, Calls, Owned, Lists, Fires;
  }

  // ---------------------------------------------------------------- submission and the controller

  /** A whole submission commutes with the controller's fetching of an earlier command. */
  lemma SubmitCommutesWithFetch(s: Qp, io: Io)
    requires Reachable(s) && Enabled(s, SubmitStep(io)) && s.devHead != s.sqDoorbell
    ensures HasFree(Fetch(s)) && SubmitIo(s, io).devHead != SubmitIo(s, io).sqDoorbell
    ensures SubmitIo(Fetch(s), io) == Fetch(SubmitIo(s, io))
  {
    hide Reachable, Trace, Scan, IovAccepted, IoSub, WriteList, Pow2, Shape, Config.Good, Config.Room;
    ReachableShape(s);
    AccountingIsConserved(s);
    SubmitNeverOverwrites(s);
  }

  /** A whole submission commutes with the completion of a command. */
  lemma SubmitCommutesWithPost(s: Qp, io: Io, k: nat, code: nat)
    requires Reachable(s) && Enabled(s, SubmitStep(io)) && k in s.exec
    ensures HasFree(PostCqe(s, k, code)) && SubmitIo(PostCqe(s, k, code), io) == PostCqe(SubmitIo(s, io), k, code)
  {
    hide Reachable, Scan, IovAccepted, IoSub, WriteList, Pow2, Config.Good, Config.Room;
    ReachableShape(s);
  }

  lemma ReachableShape(s: Qp)
    requires Reachable(s)
    ensures Shape(s)
  {
  }

  // ---------------------------------------------------------------- draining

  /** n polls, each with its callback. */
  function Polls(n: nat): seq<Step> {
    if n == 0 then [] else [PollStep, DoneStep] + Polls(n - 1)
  }

  lemma OnePoll(s: Qp)
    requires Inv(s) && s.calling == [] && s.consumed < |s.posted|
    ensures Shape(s) && Shape(Poll(s)) && Poll(s).calling != [] && Enabled(Poll(s), DoneStep)
    ensures Inv(Done(Poll(s))) && Shape(Done(Poll(s)))
    ensures var r := Done(Poll(s));
      r.calling == [] && r.consumed == s.consumed + 1 && r.posted == s.posted && r.subs == s.subs
  {
    PollFields(s);
    PollInv(s);
    DoneInv(Poll(s));
  }

  lemma PollReachable(s: Qp)
    requires Reachable(s) && Poll(s).calling != []
    ensures Reachable(Done(Poll(s)))
  {
    hide Poll, Done;
    assert Enabled(s, PollStep) && Next(s, PollStep) == Poll(s);
    ReachableStep(s, PollStep);
    assert Enabled(Poll(s), DoneStep) && Next(Poll(s), DoneStep) == Done(Poll(s));
    ReachableStep(Poll(s), DoneStep);
  }

  lemma PollsUnfold(s: Qp, n: nat)
    requires Shape(s) && n > 0 && Enabled(Poll(s), DoneStep) && Runs(Done(Poll(s)), Polls(n - 1))
    ensures Runs(s, Polls(n)) && After(s, Polls(n)) == After(Done(Poll(s)), Polls(n - 1))
  {
    var p := Poll(s);
    assert Enabled(s, PollStep) && Next(s, PollStep) == p && Next(p, DoneStep) == Done(p);
    hide Poll, Done, Next, Enabled;
    var all := Polls(n);
    assert all[0] == PollStep && all[1..][0] == DoneStep && all[1..][1..] == Polls(n - 1);
    assert Runs(p, all[1..]) && After(p, all[1..]) == After(Done(p), Polls(n - 1));
  }

  /** r has consumed everything that was posted in s, and given the queue back to the controller. */
  predicate Drained(s: Qp, r: Qp) {
    && Inv(r) && r.consumed == |r.posted| && r.posted == s.posted && r.calling == [] && r.cqDoorbell == r.cqHead
    && r.subs == s.subs
  }

  lemma DrainedAlready(s: Qp)
    requires Inv(s) && s.calling == [] && s.consumed == |s.posted|
    ensures Shape(s) && Runs(s, Polls(0)) && After(s, Polls(0)) == s && Drained(s, s)
  {
    hide CqHolds, Owned, Lists, Calls, Fires, SqHolds, Posts, CidsValid, Census;
  }

  /** No completion is lost: as many polls as there are unconsumed completions consume them all and give the queue
      back to the controller. */
  lemma {:induction false} PollsDrain(s: Qp, n: nat)
    requires Reachable(s) && s.calling == [] && n == |s.posted| - s.consumed
    ensures Shape(s) && Runs(s, Polls(n)) && Drained(s, After(s, Polls(n)))
    decreases n
  {
    hide Reachable, Inv, Poll, Done, Enabled, Runs, After, Polls, Drained, Shape;
    ReachableInv(s);
    if n == 0 {
      DrainedAlready(s);
    } else {
      OnePoll(s);
      PollReachable(s);
      var r := Done(Poll(s));
      PollsDrain(r, n - 1);
      PollsUnfold(s, n);
      DrainedStep(s, r, After(r, Polls(n - 1)));
    }
  }

  lemma DrainedStep(s: Qp, r: Qp, x: Qp)
    requires Drained(r, x) && r.posted == s.posted && r.subs == s.subs
    ensures Drained(s, x)
  {
    hide Inv;
  }

  // ---------------------------------------------------------------- synchronous admin commands

  /** On an idle queue, the first completion consumed after a submission is the one of that submission, as long as
      nothing else is submitted: its callback gets its own argument and the status of its own command. */
  lemma FirstCompletionIsOwn(s: Qp, cmd: Cmd, cb: nat, arg: nat, s1: Qp, steps: seq<Step>, r: Qp)
    requires Reachable(s) && s.consumed == |s.subs| && Enabled(s, AdminStep(cmd, cb, arg))
    requires s1 == SubmitAdmin(s, cmd, cb, arg)
    requires Runs(s1, steps) && r == After(s1, steps) && |r.subs| == |s.subs| + 1 && r.consumed > s.consumed
    ensures |s.subs| < |r.posted| && |s.subs| < |r.fired|
    ensures r.posted[|s.subs|].sub == |s.subs|
    ensures r.fired[|s.subs|] == Fired(cb, arg, Translate(2 * r.posted[|s.subs|].code))
  {
    hide *;
    var k := |s.subs|;
    AdminStepIs(s, cmd, cb, arg);
    ReachableStep(s, AdminStep(cmd, cb, arg));
    ReachableRun(s1, steps);
    ReachableInv(s);
    ReachableInv(r);
    RunGrows(s1, steps);
    RunPostsGrow(s1, steps);
    AdminFields(s, cmd, cb, arg);
    CallbacksMatchCompletions(r);
    OwnCompletion(s, r);
    MatchIs(r, k);
  }

  lemma MatchIs(s: Qp, i: nat)
    requires i < |s.posted| && i < |s.fired| && MatchesCompletion(s, i)
    ensures var k := s.posted[i].sub;
      k < |s.subs| && s.fired[i] == Fired(s.subs[k].cb, s.subs[k].arg, Translate(2 * s.posted[i].code))
  {
  }

  lemma AdminStepIs(s: Qp, cmd: Cmd, cb: nat, arg: nat)
    requires Reachable(s) && Enabled(s, AdminStep(cmd, cb, arg))
    ensures Shape(s) && HasFree(s) && Next(s, AdminStep(cmd, cb, arg)) == SubmitAdmin(s, cmd, cb, arg)
  {
  }

  lemma AdminFields(s: Qp, cmd: Cmd, cb: nat, arg: nat)
    requires Shape(s) && HasFree(s)
    ensures var s1 := SubmitAdmin(s, cmd, cb, arg);
      s1.posted == s.posted && |s1.subs| == |s.subs| + 1 && s1.subs[|s.subs|].cb == cb && s1.subs[|s.subs|].arg == arg
  {
  }

  lemma OwnCompletion(s: Qp, r: Qp)
    requires Inv(s) && Inv(r) && s.consumed == |s.subs| && s.posted <= r.posted
    requires r.consumed > s.consumed && |r.subs| == |s.subs| + 1
    ensures |r.posted| > |s.subs| == |s.posted| && |r.fired| == r.consumed && r.posted[|s.subs|].sub == |s.subs|
  {
    hide SqHolds, CqHolds, Owned, Lists, Census, CidsValid, Calls, Fires;
    var k := |s.subs|;
    assert PostedOnce(r, k);
    var j := r.posted[k].sub;
    if j < k {
      assert s.exec == map[] by { assert |s.exec| == 0; }
      var i := s.postedAt[j];
      assert i < k && s.posted[i].sub == j && r.posted[i] == s.posted[i];
      assert r.postedAt[j] == k;
      PostedAtIs(r, i);
    }
  }

  lemma PostedAtIs(s: Qp, i: nat)
    requires Posts(s) && i < |s.posted|
    ensures s.posted[i].sub in s.postedAt && s.postedAt[s.posted[i].sub] == i
  {
    assert PostedOnce(s, i);
  }

  lemma NextPostsGrow(s: Qp, step: Step)
    requires Shape(s) && Enabled(s, step)
    ensures s.posted <= Next(s, step).posted
  {
    hide Scan, WriteList, IoSub;
  }

  lemma {:induction false} RunPostsGrow(s: Qp, steps: seq<Step>)
    requires Shape(s) && Runs(s, steps)
    ensures s.posted <= After(s, steps).posted
    decreases |steps|
  {
    if steps != [] {
      NextPostsGrow(s, steps[0]);
      hide Next, Enabled;
      RunPostsGrow(Next(s, steps[0]), steps[1..]);
    }
  }

  // ---------------------------------------------------------------- every run

  /** In every run of a fresh queue pair, in whatever order things are submitted, fetched, completed and polled, also
      inside callbacks: every completion consumed has been called back, and no more commands are under way than one
      queue slot less than there are. */
  lemma EveryRun(s0: Qp, steps: seq<Step>)
    requires Fresh(s0) && Runs(s0, steps)
    ensures var s := After(s0, steps);
      && Reachable(s)
      && |s.fired| == s.consumed <= |s.posted| <= s.fetched <= |s.subs| <= s.consumed + s.cfg.q - 1
      && s.inflight == CountUsed(s.reqs) - |s.calling|
  {
    hide Reachable, Fresh, Runs, After, SqHolds, CqHolds, Lists, Fires, Posts, Calls, Owned, CidsValid, CountUsed;
    FreshReachable(s0);
    ReachableRun(s0, steps);
    ReachableInv(After(s0, steps));
    RoomAlways(After(s0, steps));
  }
}
