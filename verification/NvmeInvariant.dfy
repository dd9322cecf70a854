/** The invariant of the NVMe queue pair and its preservation by every step. */
module NvmeInvariant {
  import opened Words
  import opened Prp
  import opened NvmeModel

  // ---------------------------------------------------------------- the invariant

  /** The phase tag of completion number i: 1 on the first pass through the queue, then alternating. */
  function PhaseOf(i: nat, q: pos): nat {
    1 - (i / q) % 2
  }

  /** The wrapping fields are the true counts modulo the queue size; the phases count the passes. */
  predicate Counters(s: Qp) {
    && s.consumed <= |s.posted| <= s.fetched <= |s.subs|
    && s.sqTail == |s.subs| % s.cfg.q && s.sqDoorbell == s.sqTail
    && s.devHead == s.fetched % s.cfg.q && s.devTail == |s.posted| % s.cfg.q && s.cqHead == s.consumed % s.cfg.q
    && s.devPhase == PhaseOf(|s.posted|, s.cfg.q) && s.cqPhase == 1 - PhaseOf(s.consumed, s.cfg.q)
    && s.needKick == 0 && s.inflight == |s.subs| - s.consumed
    && |s.exec| == s.fetched - |s.posted| && |s.fired| == s.consumed
    && s.cqDoorbell == s.released % s.cfg.q && s.released <= s.consumed <= s.released + |s.calling|
  }

  function CountUsed(reqs: seq<Req>): nat {
    if reqs == [] then 0
    else CountUsed(reqs[..|reqs| - 1]) + if reqs[|reqs| - 1].isUsed then 1 else 0
  }

  /** Used slots are the submissions not yet consumed and the callbacks in progress. */
  predicate Census(s: Qp) {
    CountUsed(s.reqs) == |s.subs| - s.consumed + |s.calling|
  }

  /** The slot of submission k. */
  function SlotOf(s: Qp, k: nat): int
    requires k < |s.subs|
  {
    s.subs[k].cmd.cid - 1
  }

  predicate CidsValid(s: Qp) {
    forall k: nat :: k < |s.subs| ==> 0 <= SlotOf(s, k) < s.cfg.Slots()
  }

  /** Unfetched commands are intact in the submission queue. */
  predicate SqHolds(s: Qp)
    requires Shape(s)
  {
    forall k: nat :: s.fetched <= k < |s.subs| ==> s.sq[k % s.cfg.q] == s.subs[k].cmd
  }

  /** Completion entry number i. */
  function CqeOf(s: Qp, i: nat): Cqe
    requires i < |s.posted| && s.posted[i].sub < |s.subs|
  {
    Cqe(s.subs[s.posted[i].sub].cmd.cid, 2 * s.posted[i].code + PhaseOf(i, s.cfg.q))
  }

  /** The last q posted entries are intact in the completion queue; slots not yet written are still zero. */
  predicate CqHolds(s: Qp)
    requires Shape(s) && Posts(s)
  {
    && (forall i: nat :: i < |s.posted| <= i + s.cfg.q ==> PostedOnce(s, i) && s.cq[i % s.cfg.q] == CqeOf(s, i))
    && (forall j: nat :: |s.posted| <= j < s.cfg.q ==> s.cq[j] == Cqe(0, 0))
  }

  /** Every fetched command is either executing or posted, never both, and posted once. */
  predicate Posts(s: Qp) {
    && s.fetched <= |s.subs|
    && (forall k: nat :: k in s.exec ==> k < s.fetched && s.exec[k] == s.subs[k].cmd)
    && (forall i: nat :: i < |s.posted| ==> PostedOnce(s, i))
    && (forall k: nat :: k in s.postedAt ==> s.postedAt[k] < |s.posted| && s.posted[s.postedAt[k]].sub == k)
    && (forall k: nat :: k < s.fetched ==> k in s.exec || k in s.postedAt)
  }

  predicate PostedOnce(s: Qp, i: nat)
    requires i < |s.posted|
  {
    var k := s.posted[i].sub;
    k < s.fetched && k !in s.exec && k in s.postedAt && s.postedAt[k] == i && s.posted[i].code < 0x8000
  }

  predicate InCall(s: Qp, i: nat) {
    exists x: nat :: x < |s.calling| && s.calling[x].post == i
  }

  /** Callbacks in progress belong to different consumed completions and hold their CIDs. */
  predicate Calls(s: Qp)
    requires Posts(s)
  {
    && s.consumed <= |s.posted|
    && (forall x: nat :: x < |s.calling| ==> FrameOk(s, s.calling[x]))
    && (forall x: nat, y: nat :: x < y < |s.calling| ==> s.calling[x].post != s.calling[y].post)
  }

  predicate FrameOk(s: Qp, f: Frame)
    requires Posts(s) && s.consumed <= |s.posted|
  {
    f.post < s.consumed && PostedOnce(s, f.post) && f.cid == s.subs[s.posted[f.post].sub].cmd.cid
  }

  /** Submission k still owns its request slot: unfetched, executing, posted but not consumed, or being
      called back. */
  predicate Outstanding(s: Qp, k: nat) {
    || s.fetched <= k < |s.subs|
    || k in s.exec
    || (k in s.postedAt && (s.consumed <= s.postedAt[k] || InCall(s, s.postedAt[k])))
  }

  /** Used slots and outstanding submissions are in one-to-one correspondence. */
  predicate Owned(s: Qp)
    requires Shape(s) && CidsValid(s)
  {
    && (forall k: nat :: k < |s.subs| && Outstanding(s, k) ==>
      s.reqs[SlotOf(s, k)].isUsed && s.owner[SlotOf(s, k)] == k)
    && (forall c: nat :: c < s.cfg.Slots() ==> SlotOk(s, c))
  }

  predicate SlotOk(s: Qp, c: nat)
    requires Shape(s) && c < s.cfg.Slots()
  {
    && s.reqs[c].cid == c + 1
    && (s.reqs[c].isUsed ==>
      var k := s.owner[c];
      && k < |s.subs| && Outstanding(s, k) && SlotOf(s, k) == c
      && s.reqs[c].cb == s.subs[k].cb && s.reqs[c].arg == s.subs[k].arg)
  }

  /** The list page of submission k's slot holds its page list. */
  predicate ListHolds(s: Qp, k: nat)
    requires Shape(s) && CidsValid(s) && k < |s.subs|
  {
    var at, list := SlotOf(s, k) * s.cfg.Room(), s.subs[k].list;
    && |list| <= s.cfg.Room() && at + |list| <= |s.prp|
    && s.prp[at..at + |list|] == list
  }

  predicate Lists(s: Qp)
    requires Shape(s) && CidsValid(s)
  {
    forall k: nat :: k < |s.subs| && Outstanding(s, k) ==> ListHolds(s, k)
  }

  /** The i-th callback got the callback and argument of the submission that the i-th completion completes, and
      the translation of that completion's own status. */
  predicate FiredOk(s: Qp, i: nat)
    requires i < |s.posted| && i < |s.fired| && s.posted[i].sub < |s.subs|
  {
    var sub := s.subs[s.posted[i].sub];
    s.fired[i] == Fired(sub.cb, sub.arg, Translate(CqeOf(s, i).status))
  }

  predicate Fires(s: Qp)
    requires Posts(s)
  {
    && s.consumed <= |s.posted| && |s.fired| == s.consumed
    && forall i: nat :: i < s.consumed ==> PostedOnce(s, i) && FiredOk(s, i)
  }

  predicate Inv(s: Qp) {
    && s.cfg.Good() && Shape(s)
    && Counters(s) && Census(s) && CidsValid(s) && SqHolds(s) && Posts(s) && CqHolds(s)
    && Calls(s) && Owned(s) && Lists(s) && Fires(s)
  }

  // ---------------------------------------------------------------- counting

  lemma {:induction false} CountUsedBound(reqs: seq<Req>)
    ensures CountUsed(reqs) <= |reqs|
    decreases |reqs|
  {
    if reqs != [] { CountUsedBound(reqs[..|reqs| - 1]); }
  }

  lemma {:induction false} CountUsedUpdate(reqs: seq<Req>, c: nat, r: Req)
    requires c < |reqs|
    ensures CountUsed(reqs[c := r]) == CountUsed(reqs) - (if reqs[c].isUsed then 1 else 0) + (if r.isUsed then 1 else 0)
    decreases |reqs|
  {
    var k := |reqs| - 1;
    if c == k {
      assert reqs[c := r][..k] == reqs[..k];
    } else {
      assert reqs[c := r][..k] == reqs[..k][c := r];
      CountUsedUpdate(reqs[..k], c, r);
    }
  }

  /** With a free slot, fewer than q - 1 submissions are unconsumed or being called back. */
  lemma RoomWithFreeSlot(s: Qp, c: nat)
    requires Shape(s) && Census(s) && c < s.cfg.Slots() && !s.reqs[c].isUsed
    ensures |s.subs| - s.consumed + |s.calling| <= s.cfg.q - 2
  {
    CountUsedUpdate(s.reqs, c, s.reqs[c].(isUsed := true));
    CountUsedBound(s.reqs[c := s.reqs[c].(isUsed := true)]);
  }

  lemma RoomAlways(s: Qp)
    requires Shape(s) && Census(s)
    ensures |s.subs| - s.consumed + |s.calling| <= s.cfg.q - 1
  {
    CountUsedBound(s.reqs);
  }

  // ---------------------------------------------------------------- phases

  lemma PhaseNext(i: nat, q: pos)
    ensures PhaseOf(i + 1, q) == if (i + 1) % q == 0 then 1 - PhaseOf(i, q) else PhaseOf(i, q)
  {
    var d, r := i / q, i % q;
    DivMod(i, q);
    if r + 1 == q {
      ModIs(i + 1, q, d + 1, 0);
    } else {
      ModIs(i + 1, q, d, r + 1);
    }
  }

  /** One pass later, the same slot carries the opposite phase. */
  lemma PhasePass(i: nat, q: pos)
    ensures PhaseOf(i + q, q) == 1 - PhaseOf(i, q) && (i + q) % q == i % q
  {
    DivMod(i, q);
    ModIs(i + q, q, i / q + 1, i % q);
  }

  lemma PhaseFirst(i: nat, q: pos)
    requires i < q
    ensures PhaseOf(i, q) == 1 && i % q == i
  {
    ModIs(i, q, 0, i);
  }

  /** The phase tag at the head differs from the host's phase exactly when a posted entry is unconsumed. */
  lemma PhaseIff(s: Qp)
    requires Shape(s) && Counters(s) && Posts(s) && CqHolds(s) && |s.posted| - s.consumed < s.cfg.q
    ensures s.cq[s.cqHead].status % 2 != s.cqPhase <==> s.consumed < |s.posted|
    ensures s.consumed < |s.posted| ==> PostedOnce(s, s.consumed) && s.cq[s.cqHead] == CqeOf(s, s.consumed)
  {
    var q, i := s.cfg.q, s.consumed;
    if i < |s.posted| {
      PhaseBit(s.posted[i].code, PhaseOf(i, q));
    } else if i < q {
      PhaseFirst(i, q);
    } else {
      PhasePass(i - q, q);
      PhaseBit(s.posted[i - q].code, PhaseOf(i - q, q));
    }
  }

  lemma PhaseBit(code: nat, p: nat)
    requires p < 2
    ensures (2 * code + p) % 2 == p
  {
  }

  // ---------------------------------------------------------------- start

  lemma FreshInv(s: Qp)
    requires Fresh(s)
    ensures Inv(s)
  {
    ModSmall(0, s.cfg.q);
    PhaseFirst(0, s.cfg.q);
    NoneUsed(s.reqs);
  }

  lemma {:induction false} NoneUsed(reqs: seq<Req>)
    requires forall c: nat :: c < |reqs| ==> !reqs[c].isUsed
    ensures CountUsed(reqs) == 0
    decreases |reqs|
  {
    if reqs != [] { NoneUsed(reqs[..|reqs| - 1]); }
  }

  // ---------------------------------------------------------------- frames of the history

  /** r continues s: submissions and completions are only ever appended. */
  predicate Continues(s: Qp, r: Qp) {
    && r.cfg == s.cfg && s.subs <= r.subs && s.posted <= r.posted
    && |s.subs| <= |r.subs| && |s.posted| <= |r.posted|
  }

  lemma SameEntry(s: Qp, r: Qp, i: nat)
    requires Posts(s) && Continues(s, r) && i < |s.posted| && PostedOnce(s, i)
    ensures r.posted[i] == s.posted[i] && s.posted[i].sub < |s.subs|
    ensures r.subs[s.posted[i].sub] == s.subs[s.posted[i].sub] && CqeOf(r, i) == CqeOf(s, i)
  {
  }

  /** Steps that only append submissions keep the correspondence of fetched and posted commands. */
  lemma PostsFrame(s: Qp, r: Qp)
    requires Posts(s) && Continues(s, r)
    requires r.exec == s.exec && r.fetched == s.fetched && r.posted == s.posted && r.postedAt == s.postedAt
    ensures Posts(r)
  {
    forall i: nat | i < |r.posted| ensures PostedOnce(r, i) {
      assert PostedOnce(s, i);
    }
  }

  lemma CqFrame(s: Qp, r: Qp)
    requires Posts(s) && Shape(s) && CqHolds(s) && Posts(r) && Shape(r)
    requires Continues(s, r) && r.cq == s.cq && r.posted == s.posted
    ensures CqHolds(r)
  {
    forall i: nat | i < |r.posted| <= i + r.cfg.q ensures PostedOnce(r, i) && r.cq[i % r.cfg.q] == CqeOf(r, i) {
      assert PostedOnce(s, i) && PostedOnce(r, i);
      SameEntry(s, r, i);
    }
  }

  lemma CallsFrame(s: Qp, r: Qp)
    requires Posts(s) && Calls(s) && Posts(r) && Continues(s, r)
    requires r.calling <= s.calling && |r.calling| <= |s.calling| && r.consumed == s.consumed
    ensures Calls(r)
  {
    forall x: nat | x < |r.calling| ensures FrameOk(r, r.calling[x]) {
      assert r.calling[x] == s.calling[x] && FrameOk(s, s.calling[x]);
      assert PostedOnce(r, r.calling[x].post);
      SameEntry(s, r, r.calling[x].post);
    }
    forall x: nat, y: nat | x < y < |r.calling| ensures r.calling[x].post != r.calling[y].post {
      assert r.calling[x] == s.calling[x] && r.calling[y] == s.calling[y];
    }
  }

  lemma FiresFrame(s: Qp, r: Qp)
    requires Posts(s) && Fires(s) && Posts(r) && Continues(s, r)
    requires r.fired == s.fired && r.consumed == s.consumed
    ensures Fires(r)
  {
    forall i: nat | i < r.consumed ensures PostedOnce(r, i) && FiredOk(r, i) {
      assert PostedOnce(s, i) && FiredOk(s, i) && PostedOnce(r, i);
      SameEntry(s, r, i);
    }
  }

  // ---------------------------------------------------------------- submission

  /** What the steps of submission need of the slot and the command. */
  predicate CanClaim(s: Qp, c: nat, sub: Sub)
    requires Shape(s)
  {
    && c < s.cfg.Slots() && !s.reqs[c].isUsed && sub.cmd.cid == c + 1
    && |sub.list| <= s.cfg.Room() && c * s.cfg.Room() + |sub.list| <= |s.prp|
  }

  lemma SubmitCounters(s: Qp, c: nat, next: nat, sub: Sub)
    requires Inv(s) && CanClaim(s, c, sub)
    ensures var r := Submit(s, c, next, sub); Counters(r) && Census(r) && CidsValid(r)
  {
    hide SqHolds, CqHolds, Calls, Owned, Lists, Fires;
    ModNext(|s.subs|, s.cfg.q);
    CountUsedUpdate(s.reqs, c, Req(sub.cb, sub.arg, s.reqs[c].cid, true));
    var r := Submit(s, c, next, sub);
    forall k: nat | k < |r.subs| ensures 0 <= SlotOf(r, k) < r.cfg.Slots() {
      assert k < |s.subs| ==> SlotOf(r, k) == SlotOf(s, k);
    }
  }

  /** The queue slot at the tail holds no unfetched command. */
  lemma TailIsFree(s: Qp, c: nat, k: nat)
    requires Inv(s) && c < s.cfg.Slots() && !s.reqs[c].isUsed && s.fetched <= k < |s.subs|
    ensures k % s.cfg.q != s.sqTail
  {
    RoomWithFreeSlot(s, c);
    ModDistinct(k, |s.subs|, s.cfg.q);
  }

  lemma SubmitQueue(s: Qp, c: nat, next: nat, sub: Sub)
    requires Inv(s) && CanClaim(s, c, sub)
    ensures SqHolds(Submit(s, c, next, sub))
  {
    hide CqHolds, Calls, Owned, Lists, Fires, Posts, Census;
    var r := Submit(s, c, next, sub);
    forall k: nat | r.fetched <= k < |r.subs| ensures r.sq[k % r.cfg.q] == r.subs[k].cmd {
      if k < |s.subs| { TailIsFree(s, c, k); }
    }
  }

  /** Nothing that concerns posted completions changes. */
  lemma SubmitPosts(s: Qp, c: nat, next: nat, sub: Sub)
    requires Inv(s) && CanClaim(s, c, sub)
    ensures var r := Submit(s, c, next, sub); Posts(r) && CqHolds(r) && Calls(r) && Fires(r)
  {
    var r := Submit(s, c, next, sub);
    assert Continues(s, r);
    hide Counters, Census, CidsValid, SqHolds, Posts, CqHolds, Calls, Owned, Lists, Fires, WriteList;
    PostsFrame(s, r);
    CqFrame(s, r);
    CallsFrame(s, r);
    FiresFrame(s, r);
  }

  lemma SubmitOutstanding(s: Qp, c: nat, next: nat, sub: Sub, k: nat)
    requires Inv(s) && CanClaim(s, c, sub) && k < |s.subs|
    ensures Outstanding(Submit(s, c, next, sub), k) <==> Outstanding(s, k)
    ensures Outstanding(s, k) ==> SlotOf(s, k) != c
  {
    hide SqHolds, CqHolds, Calls, Lists, Fires, Census, WriteList;
    var r := Submit(s, c, next, sub);
    assert k in s.postedAt ==> (InCall(r, s.postedAt[k]) <==> InCall(s, s.postedAt[k]));
  }

  lemma SubmitOwned(s: Qp, c: nat, next: nat, sub: Sub)
    requires Inv(s) && CanClaim(s, c, sub)
    ensures CidsValid(Submit(s, c, next, sub)) && Owned(Submit(s, c, next, sub))
  {
    SubmitCounters(s, c, next, sub);
    hide SqHolds, CqHolds, Calls, Lists, Fires, Census, WriteList, Posts;
    var r := Submit(s, c, next, sub);
    forall k: nat | k < |r.subs| && Outstanding(r, k)
      ensures r.reqs[SlotOf(r, k)].isUsed && r.owner[SlotOf(r, k)] == k
    {
      if k < |s.subs| { SubmitOutstanding(s, c, next, sub, k); }
    }
    forall d: nat | d < r.cfg.Slots() ensures SlotOk(r, d) {
      assert SlotOk(s, d);
      if d != c && s.reqs[d].isUsed { SubmitOutstanding(s, c, next, sub, s.owner[d]); }
    }
  }

  /** Writing one slot's list page leaves the other pages alone. */
  lemma WriteListFrame(prp: seq<nat>, c: nat, d: nat, room: nat, list: seq<nat>, n: nat)
    requires c != d && |list| <= room && n <= room
    requires c * room + |list| <= |prp| && d * room + n <= |prp|
    ensures WriteList(prp, c * room, list)[d * room..d * room + n] == prp[d * room..d * room + n]
  {
    if c < d {
      AddTimes(c, 1, room);
      TimesMonotone(c + 1, d, room);
    } else {
      AddTimes(d, 1, room);
      TimesMonotone(d + 1, c, room);
    }
  }

  lemma SubmitList(s: Qp, c: nat, next: nat, sub: Sub, k: nat)
    requires Inv(s) && CanClaim(s, c, sub) && k < |s.subs| && Outstanding(s, k)
    ensures CidsValid(Submit(s, c, next, sub)) && ListHolds(Submit(s, c, next, sub), k)
  {
    SubmitCounters(s, c, next, sub);
    SubmitOutstanding(s, c, next, sub, k);
    assert ListHolds(s, k);
    WriteListFrame(s.prp, c, SlotOf(s, k), s.cfg.Room(), sub.list, |s.subs[k].list|);
    hide SqHolds, CqHolds, Calls, Owned, Fires, Census, Posts, WriteList, Outstanding, Counters;
  }

  lemma SubmitOwnList(s: Qp, c: nat, next: nat, sub: Sub)
    requires Inv(s) && CanClaim(s, c, sub)
    ensures CidsValid(Submit(s, c, next, sub)) && ListHolds(Submit(s, c, next, sub), |s.subs|)
  {
    hide *;
    SubmitCounters(s, c, next, sub);
    var at := SubmitFields(s, c, next, sub);
    WriteListAt(s.prp, at, sub.list);
    ListHoldsAt(Submit(s, c, next, sub), |s.subs|, c, at);
  }

  lemma SubmitFields(s: Qp, c: nat, next: nat, sub: Sub) returns (at: nat)
    requires Inv(s) && CanClaim(s, c, sub)
    ensures Shape(s) && c < s.cfg.Slots() && c * s.cfg.Room() + |sub.list| <= |s.prp|
    ensures var r := Submit(s, c, next, sub);
      && Shape(r) && r.cfg == s.cfg && |r.subs| == |s.subs| + 1 && r.subs[|s.subs|] == sub && SlotOf(r, |s.subs|) == c
      && at == c * r.cfg.Room() && r.prp == WriteList(s.prp, at, sub.list) && |r.prp| == |s.prp|
      && |sub.list| <= r.cfg.Room() && at + |sub.list| <= |s.prp|
  {
    hide WriteList, Config.Room, Counters, Census, CidsValid, SqHolds, Posts, CqHolds, Calls, Owned, Lists, Fires;
    at := c * s.cfg.Room();
  }

  lemma ListHoldsAt(r: Qp, k: nat, c: nat, at: nat)
    requires Shape(r) && CidsValid(r) && k < |r.subs| && SlotOf(r, k) == c && at == c * r.cfg.Room()
    requires |r.subs[k].list| <= r.cfg.Room() && at + |r.subs[k].list| <= |r.prp|
    requires r.prp[at..at + |r.subs[k].list|] == r.subs[k].list
    ensures ListHolds(r, k)
  {
  }

  lemma WriteListAt(prp: seq<nat>, at: nat, list: seq<nat>)
    requires at + |list| <= |prp|
    ensures WriteList(prp, at, list)[at..at + |list|] == list
  {
  }

  lemma SubmitLists(s: Qp, c: nat, next: nat, sub: Sub)
    requires Inv(s) && CanClaim(s, c, sub)
    ensures CidsValid(Submit(s, c, next, sub)) && Lists(Submit(s, c, next, sub))
  {
    SubmitOwnList(s, c, next, sub);
    var r := Submit(s, c, next, sub);
    assert |r.subs| == |s.subs| + 1;
    hide Inv, CidsValid, Outstanding, ListHolds, Submit;
    forall k: nat | k < |r.subs| && Outstanding(r, k) ensures ListHolds(r, k) {
      if k < |s.subs| {
        SubmitOutstanding(s, c, next, sub, k);
        SubmitList(s, c, next, sub, k);
      }
    }
  }

  lemma SubmitInv(s: Qp, c: nat, next: nat, sub: Sub)
    requires Inv(s) && CanClaim(s, c, sub)
    ensures Inv(Submit(s, c, next, sub))
  {
    SubmitCounters(s, c, next, sub);
    SubmitQueue(s, c, next, sub);
    SubmitPosts(s, c, next, sub);
    SubmitOwned(s, c, next, sub);
    SubmitLists(s, c, next, sub);
    hide Submit, Counters, Census, CidsValid, SqHolds, Posts, CqHolds, Calls, Owned, Lists, Fires;
  }

  lemma SubmitIoInv(s: Qp, io: Io)
    requires Inv(s) && HasFree(s) && IovAccepted(s.cfg, io.iov)
    ensures Inv(SubmitIo(s, io))
  {
    hide Submit, Counters, Census, SqHolds, CqHolds, Calls, Lists, Fires, Posts;
    var (found, next) := Scan(s.reqs, s.reqNext, s.cfg.Slots());
    var c := found.value;
    ListInPage(s.cfg, c, io.iov);
    assert SlotOk(s, c);
    SubmitInv(s, c, next, IoSub(s.cfg, io, c, s.reqs[c].cid));
  }

  lemma SubmitAdminInv(s: Qp, cmd: Cmd, cb: nat, arg: nat)
    requires Inv(s) && HasFree(s)
    ensures Inv(SubmitAdmin(s, cmd, cb, arg))
  {
    hide Submit, Counters, Census, SqHolds, CqHolds, Calls, Lists, Fires, Posts;
    var (found, next) := Scan(s.reqs, s.reqNext, s.cfg.Slots());
    var c := found.value;
    assert SlotOk(s, c);
    TimesMonotone(c, s.cfg.Slots(), s.cfg.Room());
    SubmitInv(s, c, next, Sub(cmd.(cid := s.reqs[c].cid), [], cb, arg));
  }

  // ---------------------------------------------------------------- controller

  lemma FetchNext(s: Qp)
    requires Inv(s) && s.devHead != s.sqDoorbell
    ensures s.fetched < |s.subs| && s.sq[s.devHead] == s.subs[s.fetched].cmd
  {
    hide CqHolds, Calls, Owned, Lists, Fires, Posts;
    RoomAlways(s);
    ModDistinct(s.fetched, |s.subs|, s.cfg.q);
  }

  lemma FetchSame(s: Qp, k: nat)
    requires Inv(s) && s.devHead != s.sqDoorbell && k < |s.subs|
    ensures Outstanding(Fetch(s), k) <==> Outstanding(s, k)
  {
    hide SqHolds, CqHolds, Owned, Lists, Fires, Census;
    FetchNext(s);
    var r := Fetch(s);
    assert k in s.postedAt ==> (InCall(r, s.postedAt[k]) <==> InCall(s, s.postedAt[k]));
  }

  lemma FetchKeepsPosts(s: Qp)
    requires Inv(s) && s.devHead != s.sqDoorbell
    ensures Posts(Fetch(s))
  {
    FetchNext(s);
    hide SqHolds, CqHolds, Calls, Owned, Lists, Fires, Census, Counters, CidsValid;
    var r := Fetch(s);
    forall i: nat | i < |r.posted| ensures PostedOnce(r, i) {
      assert PostedOnce(s, i);
    }
  }

  lemma FetchPosts(s: Qp)
    requires Inv(s) && s.devHead != s.sqDoorbell
    ensures var r := Fetch(s); Posts(r) && CqHolds(r) && Calls(r) && Fires(r)
  {
    var r := Fetch(s);
    assert Continues(s, r);
    hide Counters, Census, CidsValid, SqHolds, Posts, CqHolds, Calls, Owned, Lists, Fires;
    FetchKeepsPosts(s);
    CqFrame(s, r);
    CallsFrame(s, r);
    FiresFrame(s, r);
  }

  lemma MapGrows(m: map<nat, Cmd>, k: nat, c: Cmd)
    requires k !in m
    ensures |m[k := c]| == |m| + 1
  {
    assert m[k := c].Keys == m.Keys + {k};
  }

  lemma FetchCounters(s: Qp)
    requires Inv(s) && s.devHead != s.sqDoorbell
    ensures Counters(Fetch(s)) && Census(Fetch(s))
  {
    hide CqHolds, Owned, Lists, Calls, Fires, SqHolds, PostedOnce, PhaseOf, CountUsed, CidsValid;
    FetchNext(s);
    ModNext(s.fetched, s.cfg.q);
    MapGrows(s.exec, s.fetched, s.sq[s.devHead]);
  }

  lemma FetchQueue(s: Qp)
    requires Inv(s)
    ensures CidsValid(Fetch(s)) && SqHolds(Fetch(s))
  {
    hide CqHolds, Owned, Lists, Calls, Fires, Posts, Counters, Census;
    forall k: nat | k < |s.subs| ensures SlotOf(Fetch(s), k) == SlotOf(s, k) {
    }
  }

  /** Steps that leave the request table, the submissions, the lists and outstandingness alone keep ownership. */
  lemma OwnershipFrame(s: Qp, r: Qp)
    requires Shape(s) && CidsValid(s) && Owned(s) && Lists(s) && Shape(r) && CidsValid(r)
    requires r.cfg == s.cfg && r.reqs == s.reqs && r.owner == s.owner && r.subs == s.subs && r.prp == s.prp
    requires forall k: nat :: k < |s.subs| ==> (Outstanding(r, k) <==> Outstanding(s, k))
    ensures Owned(r) && Lists(r)
  {
    hide Outstanding;
    forall k: nat | k < |r.subs| && Outstanding(r, k)
      ensures r.reqs[SlotOf(r, k)].isUsed && r.owner[SlotOf(r, k)] == k && ListHolds(r, k)
    {
      assert Outstanding(s, k) && SlotOf(r, k) == SlotOf(s, k) && ListHolds(s, k);
    }
    forall d: nat | d < r.cfg.Slots() ensures SlotOk(r, d) {
      assert SlotOk(s, d);
      if s.reqs[d].isUsed {
        assert SlotOf(r, s.owner[d]) == SlotOf(s, s.owner[d]);
      }
    }
  }

  lemma FetchInv(s: Qp)
    requires Inv(s) && s.devHead != s.sqDoorbell
    ensures Inv(Fetch(s))
  {
    FetchPosts(s);
    FetchCounters(s);
    FetchQueue(s);
    forall k: nat | k < |s.subs| ensures Outstanding(Fetch(s), k) <==> Outstanding(s, k) {
      FetchSame(s, k);
    }
    OwnershipFrame(s, Fetch(s));
    hide Counters, Census, CidsValid, SqHolds, Posts, CqHolds, Calls, Owned, Lists, Fires, Outstanding;
  }

  lemma NotYetPosted(s: Qp, k: nat)
    requires Posts(s) && k in s.exec
    ensures k !in s.postedAt
  {
    assert k in s.postedAt ==> PostedOnce(s, s.postedAt[k]);
  }

  lemma PostSame(s: Qp, k: nat, code: nat, j: nat)
    requires Inv(s) && k in s.exec && j < |s.subs|
    ensures Outstanding(PostCqe(s, k, code), j) <==> Outstanding(s, j)
  {
    hide SqHolds, CqHolds, Owned, Lists, Fires, Census;
    var r := PostCqe(s, k, code);
    assert j in s.postedAt ==> (InCall(r, s.postedAt[j]) <==> InCall(s, s.postedAt[j]));
    NotYetPosted(s, k);
  }

  lemma PostPosts(s: Qp, k: nat, code: nat)
    requires Inv(s) && k in s.exec && code < 0x8000
    ensures Posts(PostCqe(s, k, code))
  {
    hide SqHolds, CqHolds, Owned, Lists, Fires, Census, Calls, Counters, CidsValid;
    var r := PostCqe(s, k, code);
    NotYetPosted(s, k);
    forall i: nat | i < |r.posted| ensures PostedOnce(r, i) {
      if i < |s.posted| { assert PostedOnce(s, i); }
    }
  }

  lemma PostCalls(s: Qp, k: nat, code: nat)
    requires Inv(s) && k in s.exec && code < 0x8000
    ensures var r := PostCqe(s, k, code); Posts(r) && Calls(r) && Fires(r)
  {
    var r := PostCqe(s, k, code);
    assert Continues(s, r);
    hide Counters, Census, CidsValid, SqHolds, Posts, CqHolds, Calls, Owned, Lists, Fires;
    PostPosts(s, k, code);
    CallsFrame(s, r);
    FiresFrame(s, r);
  }

  /** Executing commands leave room: the queue slot at the controller's tail holds no unconsumed entry. */
  lemma PostSlotIsFree(s: Qp, k: nat, i: nat)
    requires Inv(s) && k in s.exec && i < |s.posted| < i + s.cfg.q
    ensures i % s.cfg.q != s.devTail
  {
    ModDistinct(i, |s.posted|, s.cfg.q);
  }

  lemma PostQueue(s: Qp, k: nat, code: nat)
    requires Inv(s) && k in s.exec && code < 0x8000
    ensures var r := PostCqe(s, k, code); Posts(r) && CqHolds(r)
  {
    PostPosts(s, k, code);
    var r := PostCqe(s, k, code);
    var q := s.cfg.q;
    hide SqHolds, Owned, Lists, Census, Calls, Fires;
    forall i: nat | i < |r.posted| <= i + q ensures PostedOnce(r, i) && r.cq[i % q] == CqeOf(r, i) {
      assert PostedOnce(r, i);
      if i < |s.posted| {
        assert PostedOnce(s, i);
        PostSlotIsFree(s, k, i);
      }
    }
    if |s.posted| < q { ModSmall(|s.posted|, q); }
  }

  lemma PostCounters(s: Qp, k: nat, code: nat)
    requires Inv(s) && k in s.exec
    ensures var r := PostCqe(s, k, code); Counters(r) && Census(r) && CidsValid(r) && SqHolds(r)
    ensures |s.posted| < s.fetched
  {
    hide CqHolds, Owned, Lists, Calls, Fires, Posts;
    assert |s.exec| > 0 by { assert k in s.exec.Keys; }
    assert (s.exec - {k}).Keys == s.exec.Keys - {k};
    ModNext(|s.posted|, s.cfg.q);
    PhaseNext(|s.posted|, s.cfg.q);
    forall j: nat | j < |s.subs| ensures SlotOf(PostCqe(s, k, code), j) == SlotOf(s, j) {
    }
  }

  lemma PostInv(s: Qp, k: nat, code: nat)
    requires Inv(s) && k in s.exec && code < 0x8000
    ensures Inv(PostCqe(s, k, code))
  {
    PostCalls(s, k, code);
    PostQueue(s, k, code);
    PostCounters(s, k, code);
    forall j: nat | j < |s.subs| ensures Outstanding(PostCqe(s, k, code), j) <==> Outstanding(s, j) {
      PostSame(s, k, code, j);
    }
    OwnershipFrame(s, PostCqe(s, k, code));
    hide Counters, Census, CidsValid, SqHolds, Posts, CqHolds, Calls, Owned, Lists, Fires, Outstanding;
  }

  // ---------------------------------------------------------------- polling

  /** A poll finds the next completion, with a valid CID, or nothing. */
  lemma PollFinds(s: Qp)
    requires Inv(s)
    ensures s.consumed == |s.posted| ==> Poll(s) == s
    ensures s.consumed < |s.posted| ==>
      && PostedOnce(s, s.consumed) && s.cq[s.cqHead] == CqeOf(s, s.consumed)
      && s.cq[s.cqHead].status % 2 != s.cqPhase && 0 < s.cq[s.cqHead].cid < s.cfg.q
  {
    RoomAlways(s);
    PhaseIff(s);
    hide CqHolds, Owned, Lists, Calls, Fires, SqHolds;
    if s.consumed < |s.posted| {
      assert PostedOnce(s, s.consumed);
      assert 0 <= SlotOf(s, s.posted[s.consumed].sub) < s.cfg.Slots();
    }
  }

  /** The state after a poll that finds completion entry e. */
  function Polled(s: Qp, e: Cqe): Qp
    requires Shape(s) && 0 < e.cid < s.cfg.q
  {
    var head := (s.cqHead + 1) % s.cfg.q;
    var req := s.reqs[e.cid - 1];
    s.(cqHead := head, cqPhase := if head == 0 then Flip(s.cqPhase) else s.cqPhase, consumed := s.consumed + 1,
       inflight := s.inflight - 1, fired := s.fired + [Fired(req.cb, req.arg, Translate(e.status))],
       calling := s.calling + [Frame(e.cid, s.consumed)])
  }

  lemma PollFields(s: Qp)
    requires Inv(s) && s.consumed < |s.posted|
    ensures PostedOnce(s, s.consumed) && s.posted[s.consumed].sub < |s.subs| && 0 < CqeOf(s, s.consumed).cid < s.cfg.q
    ensures Poll(s) == Polled(s, CqeOf(s, s.consumed))
  {
    PollFinds(s);
    hide CqHolds, Owned, Lists, Calls, Fires, SqHolds, Census, CidsValid, Counters;
  }

  lemma PollSame(s: Qp, k: nat)
    requires Inv(s) && s.consumed < |s.posted| && k < |s.subs|
    ensures Outstanding(Poll(s), k) <==> Outstanding(s, k)
  {
    PollFields(s);
    hide Poll, SqHolds, CqHolds, Owned, Lists, Fires, Census;
    var r := Poll(s);
    if k in s.postedAt {
      InCallAppend(s, r, s.postedAt[k]);
    }
  }

  lemma InCallAppend(s: Qp, r: Qp, i: nat)
    requires exists f: Frame :: r.calling == s.calling + [f] && f.post == s.consumed
    ensures InCall(r, i) <==> InCall(s, i) || i == s.consumed
  {
    if InCall(s, i) {
      var x: nat :| x < |s.calling| && s.calling[x].post == i;
      assert r.calling[x].post == i;
    }
    if i == s.consumed { assert r.calling[|s.calling|].post == i; }
  }

  lemma PollCounters(s: Qp)
    requires Inv(s) && s.consumed < |s.posted|
    ensures var r := Poll(s); Counters(r) && Census(r) && CidsValid(r) && SqHolds(r)
  {
    PollFields(s);
    hide Poll, CqHolds, Owned, Lists, Calls, Fires, Posts;
    ModNext(s.consumed, s.cfg.q);
    PhaseNext(s.consumed, s.cfg.q);
    forall j: nat | j < |s.subs| ensures SlotOf(Poll(s), j) == SlotOf(s, j) {
    }
  }

  lemma PollCalls(s: Qp)
    requires Inv(s) && s.consumed < |s.posted|
    ensures var r := Poll(s); Posts(r) && Calls(r)
  {
    PollFields(s);
    hide Poll, Owned, Lists, SqHolds, Census, Fires, CqHolds, Counters, CidsValid, Translate;
    var r := Poll(s);
    PostsFrame(s, r);
    forall x: nat | x < |r.calling| ensures FrameOk(r, r.calling[x]) {
      if x < |s.calling| {
        assert FrameOk(s, s.calling[x]);
        assert PostedOnce(r, s.calling[x].post);
      } else {
        assert PostedOnce(r, s.consumed);
      }
    }
    forall x: nat, y: nat | x < y < |r.calling| ensures r.calling[x].post != r.calling[y].post {
      if y == |s.calling| { assert FrameOk(s, s.calling[x]); }
    }
  }

  lemma PollFires(s: Qp)
    requires Inv(s) && s.consumed < |s.posted|
    ensures var r := Poll(s); Posts(r) && CqHolds(r) && Fires(r)
  {
    PollFields(s);
    PollOwner(s);
    hide Poll, Owned, Lists, SqHolds, Census, Calls, CqHolds, Counters, CidsValid, Translate;
    var r := Poll(s);
    assert Continues(s, r);
    PostsFrame(s, r);
    CqFrame(s, r);
    forall i: nat | i < r.consumed ensures PostedOnce(r, i) && FiredOk(r, i) {
      assert PostedOnce(s, i) && PostedOnce(r, i);
      SameEntry(s, r, i);
      if i < s.consumed { assert FiredOk(s, i); }
    }
  }

  /** The slot that a completion names is owned by the submission it completes. */
  lemma PollOwner(s: Qp)
    requires Inv(s) && s.consumed < |s.posted|
    ensures PostedOnce(s, s.consumed)
    ensures var k := s.posted[s.consumed].sub; var c := SlotOf(s, k);
      Outstanding(s, k) && 0 <= c < |s.reqs| && s.reqs[c].isUsed && s.owner[c] == k
      && s.reqs[c].cb == s.subs[k].cb && s.reqs[c].arg == s.subs[k].arg
  {
    hide SqHolds, CqHolds, Lists, Calls, Fires, Census;
    assert PostedOnce(s, s.consumed);
    var k := s.posted[s.consumed].sub;
    assert Outstanding(s, k);
    assert SlotOk(s, SlotOf(s, k));
  }

  lemma PollInv(s: Qp)
    requires Inv(s)
    ensures Inv(Poll(s))
  {
    PollFinds(s);
    if s.consumed < |s.posted| {
      PollCalls(s);
      PollFires(s);
      PollCounters(s);
      PollFields(s);
      forall k: nat | k < |s.subs| ensures Outstanding(Poll(s), k) <==> Outstanding(s, k) {
        PollSame(s, k);
      }
      OwnershipFrame(s, Poll(s));
      hide Poll, Counters, Census, CidsValid, SqHolds, Posts, CqHolds, Calls, Owned, Lists, Fires, Outstanding;
    }
  }

  /** The frame of the innermost callback and the submission it belongs to. */
  lemma TopFrame(s: Qp)
    requires Inv(s) && s.calling != []
    ensures var f := s.calling[|s.calling| - 1];
      && f.post < s.consumed && PostedOnce(s, f.post) && InCall(s, f.post)
      && var k := s.posted[f.post].sub;
      && k < |s.subs| && Outstanding(s, k) && f.cid - 1 == SlotOf(s, k) && 0 <= f.cid - 1 < |s.reqs|
      && s.reqs[f.cid - 1].isUsed && s.owner[f.cid - 1] == k
  {
    hide SqHolds, CqHolds, Lists, Fires, Census;
    var x := |s.calling| - 1;
    assert FrameOk(s, s.calling[x]);
    var k := s.posted[s.calling[x].post].sub;
    assert Outstanding(s, k);
    assert SlotOk(s, SlotOf(s, k));
  }

  lemma DoneSame(s: Qp, k: nat)
    requires Inv(s) && s.calling != [] && k < |s.subs|
    ensures Outstanding(Done(s), k) <==> Outstanding(s, k) && k != s.posted[s.calling[|s.calling| - 1].post].sub
  {
    TopFrame(s);
    if k in s.postedAt { InCallPop(s, s.postedAt[k]); }
    assert Posts(s);
    hide SqHolds, CqHolds, Owned, Lists, Fires, Census, Calls, CidsValid, Counters, InCall;
  }

  lemma InCallPop(s: Qp, i: nat)
    requires Inv(s) && s.calling != []
    ensures InCall(Done(s), i) <==> InCall(s, i) && i != s.calling[|s.calling| - 1].post
  {
    hide SqHolds, CqHolds, Owned, Lists, Fires, Census, CidsValid, Counters, FrameOk, PostedOnce;
    var r, f := Done(s), s.calling[|s.calling| - 1];
    assert r.calling == s.calling[..|s.calling| - 1];
    if InCall(s, i) && i != f.post {
      var y: nat :| y < |s.calling| && s.calling[y].post == i;
      assert r.calling[y].post == i;
    }
    if InCall(r, i) {
      var y: nat :| y < |r.calling| && r.calling[y].post == i;
      assert s.calling[y].post == i && i != f.post;
    }
  }

  lemma DoneCounters(s: Qp)
    requires Inv(s) && s.calling != []
    ensures var r := Done(s); Counters(r) && Census(r) && CidsValid(r) && SqHolds(r)
  {
    hide CqHolds, Owned, Lists, Calls, Fires, Posts, CountUsed, InCall, Outstanding, PostedOnce, Config.Room, PhaseOf;
    TopFrame(s);
    var c := s.calling[|s.calling| - 1].cid - 1;
    CountUsedUpdate(s.reqs, c, s.reqs[c].(isUsed := false));
    forall j: nat | j < |s.subs| ensures SlotOf(Done(s), j) == SlotOf(s, j) {
    }
  }

  lemma DonePosts(s: Qp)
    requires Inv(s) && s.calling != []
    ensures var r := Done(s); Posts(r) && CqHolds(r) && Calls(r) && Fires(r)
  {
    var r := Done(s);
    assert Continues(s, r);
    hide Counters, Census, CidsValid, SqHolds, Posts, CqHolds, Calls, Owned, Lists, Fires;
    PostsFrame(s, r);
    CqFrame(s, r);
    CallsFrame(s, r);
    FiresFrame(s, r);
  }

  lemma SameListHolds(s: Qp, r: Qp, k: nat)
    requires Shape(s) && CidsValid(s) && k < |s.subs| && Shape(r) && CidsValid(r)
    requires r.cfg == s.cfg && r.subs == s.subs && r.prp == s.prp
    ensures ListHolds(r, k) <==> ListHolds(s, k)
  {
  }

  lemma DoneOwned(s: Qp)
    requires Inv(s) && s.calling != []
    ensures CidsValid(Done(s)) && Owned(Done(s)) && Lists(Done(s))
  {
    hide SqHolds, CqHolds, Calls, Fires, Census, Posts, Counters, Outstanding, ListHolds;
    TopFrame(s);
    DoneCounters(s);
    var r := Done(s);
    forall k: nat | k < |r.subs| && Outstanding(r, k)
      ensures r.reqs[SlotOf(r, k)].isUsed && r.owner[SlotOf(r, k)] == k && ListHolds(r, k)
    {
      DoneSame(s, k);
      assert SlotOf(r, k) == SlotOf(s, k) && ListHolds(s, k);
      SameListHolds(s, r, k);
    }
    forall d: nat | d < r.cfg.Slots() ensures SlotOk(r, d) {
      assert SlotOk(s, d);
      if r.reqs[d].isUsed {
        DoneSame(s, s.owner[d]);
        assert SlotOf(r, s.owner[d]) == SlotOf(s, s.owner[d]);
      }
    }
  }

  lemma DoneInv(s: Qp)
    requires Inv(s) && s.calling != []
    ensures Inv(Done(s))
  {
    DoneCounters(s);
    DonePosts(s);
    DoneOwned(s);
    hide Done, Counters, Census, CidsValid, SqHolds, Posts, CqHolds, Calls, Owned, Lists, Fires;
  }

  // ---------------------------------------------------------------- every step and every run

  lemma NextInv(s: Qp, step: Step)
    requires Inv(s) && Enabled(s, step)
    ensures Inv(Next(s, step))
  {
    hide Inv, Submit, Poll, Done, Fetch, PostCqe, SubmitIo, SubmitAdmin;
    match step
    case SubmitStep(io) => SubmitIoInv(s, io);
    case AdminStep(cmd, cb, arg) => SubmitAdminInv(s, cmd, cb, arg);
    case FetchStep => FetchInv(s);
    case PostStep(k, code) => PostInv(s, k, code);
    case PollStep => PollInv(s);
    case DoneStep => DoneInv(s);
  }

  lemma {:induction false} RunInv(s: Qp, steps: seq<Step>)
    requires Inv(s) && Runs(s, steps)
    ensures Inv(After(s, steps))
    decreases |steps|
  {
    if steps != [] {
      NextInv(s, steps[0]);
      hide Inv, Next, Enabled;
      RunInv(Next(s, steps[0]), steps[1..]);
    }
  }

  // ---------------------------------------------------------------- reachable states

  ghost predicate Follows(s: Qp, r: Qp) {
    Shape(s) && exists step: Step :: Enabled(s, step) && r == Next(s, step)
  }

  /** State i of a trace is fresh, or follows from the state before by some step. */
  ghost predicate Arises(t: seq<Qp>, i: nat)
    requires i < |t|
  {
    if i == 0 then Fresh(t[0])
    else Follows(t[i - 1], t[i])
  }

  ghost predicate Trace(t: seq<Qp>) {
    |t| > 0 && forall i: nat :: i < |t| ==> Arises(t, i)
  }

  ghost predicate Reachable(s: Qp) {
    s.cfg.Good() && Shape(s) && exists t: seq<Qp> :: Trace(t) && t[|t| - 1] == s
  }

  lemma {:induction false} TraceInv(t: seq<Qp>, i: nat)
    requires Trace(t) && i < |t|
    ensures Inv(t[i])
  {
    hide Inv, Fresh, Enabled, Next, Shape;
    assert Arises(t, i);
    if i == 0 {
      FreshInv(t[0]);
    } else {
      TraceInv(t, i - 1);
      var step :| Enabled(t[i - 1], step) && t[i] == Next(t[i - 1], step);
      NextInv(t[i - 1], step);
    }
  }

  /** Every reachable state has the invariant. */
  lemma ReachableInv(s: Qp)
    requires Reachable(s)
    ensures Inv(s)
  {
    hide Inv, Fresh, Shape;
    var t :| Trace(t) && t[|t| - 1] == s;
    TraceInv(t, |t| - 1);
  }

  lemma FreshReachable(s: Qp)
    requires Fresh(s)
    ensures Reachable(s)
  {
    assert Trace([s]);
  }

  lemma ReachableStep(s: Qp, step: Step)
    requires Reachable(s) && Enabled(s, step)
    ensures Reachable(Next(s, step))
  {
    hide Fresh, Enabled, Next, Shape;
    var t :| Trace(t) && t[|t| - 1] == s;
    var r := t + [Next(s, step)];
    forall i: nat | i < |r| ensures Arises(r, i) {
      if i < |t| {
        assert Arises(t, i);
        assert r[i] == t[i] && (i > 0 ==> r[i - 1] == t[i - 1]);
      } else {
        assert r[i - 1] == s && r[i] == Next(s, step);
      }
    }
    assert Trace(r) && r[|r| - 1] == Next(s, step);
  }

  /** Runs lead from reachable states to reachable states. */
  lemma {:induction false} ReachableRun(s: Qp, steps: seq<Step>)
    requires Reachable(s) && Runs(s, steps)
    ensures Reachable(After(s, steps))
    decreases |steps|
  {
    hide Next, Enabled;
    if steps != [] {
      ReachableStep(s, steps[0]);
      ReachableRun(Next(s, steps[0]), steps[1..]);
    }
  }
}
