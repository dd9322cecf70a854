/** Physical region pages: how the driver turns a scatter list into PRP entries and how a controller
    reads them back by section 4.3 of the NVM Express Base Specification 1.4. */
module Prp {
  import opened Words

  const ENTRY_BYTES: nat := 8

  datatype Segment = Segment(base: nat, len: nat)

  // ---------------------------------------------------------------- the driver's side

  /** The total number of bytes of a scatter list. */
  function TotalLen(iov: seq<Segment>): nat {
    if iov == [] then 0 else TotalLen(iov[..|iov| - 1]) + iov[|iov| - 1].len
  }

  /** The first n pages of a segment. */
  function SegmentPages(base: nat, n: nat, page: pos): (r: seq<nat>)
    ensures |r| == n
  {
    seq(n, j requires 0 <= j < n => (base + j * page) % U64)
  }

  /** The page list of a scatter list: whole pages only, segment by segment. */
  function PageList(iov: seq<Segment>, page: pos): seq<nat> {
    if iov == [] then []
    else
      var s := iov[|iov| - 1];
      PageList(iov[..|iov| - 1], page) + SegmentPages(s.base, s.len / page, page)
  }

  /** PRP1 and PRP2 for a page list that is stored at listAddr. */
  function Pointers(list: seq<nat>, listAddr: nat): (nat, nat)
    requires |list| > 0
  {
    if |list| == 1 then (list[0], 0)
    else if |list| == 2 then (list[0], list[1])
    else (list[0], listAddr + ENTRY_BYTES)
  }

  // ---------------------------------------------------------------- the controller's side

  datatype Decoded = Pages(pages: seq<nat>) | Malformed

  /** The 64-bit word at a bus address inside the PRP list memory that starts at listBase. */
  function ReadWord(mem: seq<nat>, listBase: nat, a: nat): nat {
    if listBase <= a && (a - listBase) / ENTRY_BYTES < |mem| then mem[(a - listBase) / ENTRY_BYTES] else 0
  }

  /** n consecutive list entries; all of them have to be page aligned. */
  function ReadEntries(mem: seq<nat>, listBase: nat, a: nat, n: nat, page: pos): Decoded {
    var words := seq(n, j requires 0 <= j < n => ReadWord(mem, listBase, a + ENTRY_BYTES * j));
    if forall j :: 0 <= j < n ==> words[j] % page == 0 then Pages(words) else Malformed
  }

  /** Read need entries from the PRP list at a.  If they do not fit the rest of the list page, its last
      entry points to the next list page, which has to start on a page boundary. */
  function ReadList(mem: seq<nat>, listBase: nat, a: nat, need: nat, page: pos): Decoded
    requires page >= 2 * ENTRY_BYTES
    decreases need, a % page
  {
    var room := (page - a % page) / ENTRY_BYTES;
    if a % ENTRY_BYTES != 0 then Malformed
    else if need <= room then ReadEntries(mem, listBase, a, need, page)
    else if room == 0 then Malformed
    else
      var next := ReadWord(mem, listBase, a + ENTRY_BYTES * (room - 1));
      if next % page != 0 then Malformed
      else
        match ReadEntries(mem, listBase, a, room - 1, page)
        case Malformed => Malformed
        case Pages(first) =>
          if room == 1 && a % page == 0 then Malformed
          else
            match ReadList(mem, listBase, next, need - (room - 1), page)
            case Malformed => Malformed
            case Pages(rest) => Pages(first + rest)
  }

  /** The number of memory pages a transfer of len bytes from prp1 on touches. */
  function PagesTouched(prp1: nat, len: nat, page: pos): nat {
    (prp1 % page + len + page - 1) / page
  }

  /** The pages a controller uses for a data transfer of len bytes. */
  function Decode(prp1: nat, prp2: nat, len: nat, mem: seq<nat>, listBase: nat, page: pos): Decoded
    requires page >= 2 * ENTRY_BYTES
  {
    var np := PagesTouched(prp1, len, page);
    if np == 0 then Malformed
    else if np == 1 then Pages([prp1])
    else if np == 2 then if prp2 % page == 0 then Pages([prp1, prp2]) else Malformed
    else
      match ReadList(mem, listBase, prp2, np - 1, page)
      case Malformed => Malformed
      case Pages(rest) => Pages([prp1] + rest)
  }

  // ---------------------------------------------------------------- what the page list covers

  predicate WholePages(iov: seq<Segment>, page: pos) {
    forall i: nat :: i < |iov| ==> iov[i].len % page == 0
  }

  predicate Aligned(iov: seq<Segment>, page: pos) {
    forall i: nat :: i < |iov| ==> iov[i].len >= page ==> iov[i].base % page == 0
  }

  predicate InAddressSpace(iov: seq<Segment>) {
    forall i: nat :: i < |iov| ==> iov[i].base + iov[i].len <= U64
  }

  lemma DivModIs(x: nat, m: pos)
    ensures x == (x / m) * m + x % m && x % m < m && (x / m) * m <= x
  {
    DivMod(x, m);
  }

  lemma AddTimes(a: nat, b: nat, m: nat)
    ensures (a + b) * m == a * m + b * m
  {
  }

  /** The list never covers more bytes than the scatter list has, and covers all of them exactly if every
      segment is a multiple of the page size. */
  lemma {:induction false} EntriesCoverIff(iov: seq<Segment>, page: pos)
    ensures |PageList(iov, page)| * page <= TotalLen(iov)
    ensures |PageList(iov, page)| * page == TotalLen(iov) <==> WholePages(iov, page)
    decreases |iov|
  {
    if iov != [] {
      var k := |iov| - 1;
      EntriesCoverIff(iov[..k], page);
      DivModIs(iov[k].len, page);
      AddTimes(|PageList(iov[..k], page)|, iov[k].len / page, page);
      assert WholePages(iov, page) <==> WholePages(iov[..k], page) && iov[k].len % page == 0;
    }
  }

  /** If the total length fits the list page, so does the list. */
  lemma EntriesFit(iov: seq<Segment>, page: pos, room: nat)
    requires TotalLen(iov) / page <= room
    ensures |PageList(iov, page)| <= room
  {
    EntriesCoverIff(iov, page);
    QuotientBound(|PageList(iov, page)|, TotalLen(iov), page);
  }

  lemma QuotientPositive(x: nat, m: pos)
    requires x >= m
    ensures x / m > 0
  {
  }

  lemma QuotientBound(n: nat, x: nat, m: pos)
    requires n * m <= x
    ensures n <= x / m
  {
    DivModIs(x, m);
    if n >= x / m + 1 {
      TimesMonotone(x / m + 1, n, m);
      AddTimes(x / m, 1, m);
    }
  }

  lemma TimesMonotone(a: nat, b: nat, m: nat)
    requires a <= b
    ensures a * m <= b * m
  {
    AddTimes(a, b - a, m);
  }

  /** The address of byte o of the transfer, read off the scatter list. */
  function ByteAddr(iov: seq<Segment>, o: nat): nat {
    if iov == [] then 0
    else
      var k := |iov| - 1;
      var before := TotalLen(iov[..k]);
      if o < before then ByteAddr(iov[..k], o) else iov[k].base + (o - before)
  }

  /** For whole-page segments, byte m of list entry e is byte e * page + m of the transfer. */
  lemma {:induction false} ListMeansBytes(iov: seq<Segment>, page: pos, e: nat, m: nat)
    requires WholePages(iov, page) && InAddressSpace(iov) && m < page && e * page + m < TotalLen(iov)
    ensures e < |PageList(iov, page)|
    ensures PageList(iov, page)[e] + m == ByteAddr(iov, e * page + m)
    decreases |iov|
  {
    hide WholePages, InAddressSpace, SegmentPages;
    var k := |iov| - 1;
    var before, n := TotalLen(iov[..k]), |PageList(iov[..k], page)|;
    var s := iov[k];
    AllButLast(iov, page);
    EntriesCoverIff(iov[..k], page);
    if e * page + m < before {
      ListMeansBytes(iov[..k], page, e, m);
    } else {
      QuotientLess(n, e, m, page);
      AddTimes(n, e - n, page);
      SegmentMeansBytes(s, e - n, m, page);
      var mine := SegmentPages(s.base, s.len / page, page);
      assert (PageList(iov[..k], page) + mine)[n + (e - n)] == mine[e - n];
    }
  }

  /** Byte o of a transfer to these pages goes to byte o of the scatter list, for every byte of it. */
  predicate MeansBytes(d: Decoded, iov: seq<Segment>, page: pos) {
    d.Pages? && forall o: nat :: o < TotalLen(iov) ==> PageByte(d.pages, o, page) == Some(ByteAddr(iov, o))
  }

  /** The address of byte o of a transfer to these pages. */
  function PageByte(pages: seq<nat>, o: nat, page: pos): Option<nat> {
    if o / page < |pages| then Some(pages[o / page] + o % page) else None
  }

  lemma WholeListMeansBytes(iov: seq<Segment>, page: pos)
    requires WholePages(iov, page) && InAddressSpace(iov)
    ensures MeansBytes(Pages(PageList(iov, page)), iov, page)
  {
    hide WholePages, InAddressSpace, PageList, TotalLen, ByteAddr;
    forall o: nat | o < TotalLen(iov) ensures PageByte(PageList(iov, page), o, page) == Some(ByteAddr(iov, o)) {
      DivModIs(o, page);
      ListMeansBytes(iov, page, o / page, o % page);
    }
  }

  lemma AllButLast(iov: seq<Segment>, page: pos)
    requires WholePages(iov, page) && InAddressSpace(iov) && iov != []
    ensures var k := |iov| - 1;
      && WholePages(iov[..k], page) && InAddressSpace(iov[..k])
      && iov[k].len % page == 0 && iov[k].base + iov[k].len <= U64
  {
  }

  lemma QuotientLess(n: nat, e: nat, m: nat, page: pos)
    requires n * page <= e * page + m && m < page
    ensures n <= e
  {
    if e + 1 <= n {
      AddTimes(e, 1, page);
      TimesMonotone(e + 1, n, page);
    }
  }

  lemma SegmentMeansBytes(s: Segment, q: nat, m: nat, page: pos)
    requires s.len % page == 0 && s.base + s.len <= U64 && q * page + m < s.len
    ensures q < s.len / page && SegmentPages(s.base, s.len / page, page)[q] == s.base + q * page
  {
    DivModIs(s.len, page);
    if s.len / page <= q { TimesMonotone(s.len / page, q, page); }
    PageAt(s.base, s.len / page, q, page);
  }

  lemma PageAt(base: nat, n: nat, j: nat, page: pos)
    requires j < n && base + j * page < U64
    ensures SegmentPages(base, n, page)[j] == base + j * page
  {
    ModSmall(base + j * page, U64);
  }

  lemma MultipleAligned(base: nat, j: nat, page: pos)
    ensures (base + j * page) % page == base % page
  {
    DivModIs(base, page);
    AddTimes(base / page, j, page);
    ModIs(base + j * page, page, base / page + j, base % page);
  }

  /** All list entries are page aligned exactly when all segments that contribute to it are. */
  lemma {:induction false} ListAlignedIff(iov: seq<Segment>, page: pos)
    requires InAddressSpace(iov)
    ensures (forall e: nat :: e < |PageList(iov, page)| ==> PageList(iov, page)[e] % page == 0) <==> Aligned(iov, page)
    decreases |iov|
  {
    if iov != [] {
      var k := |iov| - 1;
      var before, s := PageList(iov[..k], page), iov[k];
      var mine := SegmentPages(s.base, s.len / page, page);
      ListAlignedIff(iov[..k], page);
      SegmentAlignedIff(s, page);
      assert PageList(iov, page) == before + mine;
      assert Aligned(iov, page) <==> Aligned(iov[..k], page) && (s.len >= page ==> s.base % page == 0);
      ConcatAligned(before, mine, page);
    }
  }

  predicate AllAligned(list: seq<nat>, page: pos) {
    forall e: nat :: e < |list| ==> list[e] % page == 0
  }

  lemma ConcatAligned(a: seq<nat>, b: seq<nat>, page: pos)
    ensures AllAligned(a + b, page) <==> AllAligned(a, page) && AllAligned(b, page)
  {
    if AllAligned(a + b, page) {
      forall e: nat | e < |a| ensures a[e] % page == 0 { assert (a + b)[e] == a[e]; }
      forall e: nat | e < |b| ensures b[e] % page == 0 { assert (a + b)[|a| + e] == b[e]; }
    }
  }

  lemma SegmentAlignedIff(s: Segment, page: pos)
    requires s.base + s.len <= U64
    ensures AllAligned(SegmentPages(s.base, s.len / page, page), page) <==> (s.len >= page ==> s.base % page == 0)
  {
    var n := s.len / page;
    DivModIs(s.len, page);
    forall j: nat | j < n ensures SegmentPages(s.base, n, page)[j] % page == s.base % page {
      TimesMonotone(j + 1, n, page);
      AddTimes(j, 1, page);
      ModSmall(s.base + j * page, U64);
      MultipleAligned(s.base, j, page);
    }
    if s.len >= page {
      QuotientPositive(s.len, page);
      assert SegmentPages(s.base, n, page)[0] % page == s.base % page;
    } else {
      ModIs(s.len, page, 0, s.len);
    }
  }

  // ---------------------------------------------------------------- round trip

  /** The list memory holds the list at listAddr. */
  predicate Stored(list: seq<nat>, listAddr: nat, mem: seq<nat>, listBase: nat) {
    forall e: nat :: e < |list| ==> ReadWord(mem, listBase, listAddr + ENTRY_BYTES * e) == list[e]
  }

  lemma ReadEntriesLength(mem: seq<nat>, listBase: nat, a: nat, n: nat, page: pos)
    ensures ReadEntries(mem, listBase, a, n, page).Pages? ==> |ReadEntries(mem, listBase, a, n, page).pages| == n
  {
  }

  lemma {:induction false} ReadListLength(mem: seq<nat>, listBase: nat, a: nat, need: nat, page: pos)
    requires page >= 2 * ENTRY_BYTES
    ensures ReadList(mem, listBase, a, need, page).Pages? ==> |ReadList(mem, listBase, a, need, page).pages| == need
    decreases need, a % page
  {
    hide ReadWord, ReadEntries;
    var room := (page - a % page) / ENTRY_BYTES;
    ReadEntriesLength(mem, listBase, a, need, page);
    if room > 0 { ReadEntriesLength(mem, listBase, a, room - 1, page); }
    if a % ENTRY_BYTES == 0 && need > room && room > 0 {
      var next := ReadWord(mem, listBase, a + ENTRY_BYTES * (room - 1));
      if next % page == 0 && !(room == 1 && a % page == 0) {
        ReadListLength(mem, listBase, next, need - (room - 1), page);
      }
    }
  }

  lemma PagesTouchedWhole(prp1: nat, n: nat, page: pos)
    ensures prp1 % page == 0 ==> PagesTouched(prp1, n * page, page) == n
    ensures prp1 % page != 0 ==> PagesTouched(prp1, n * page, page) == n + 1
  {
    var o := prp1 % page;
    if o == 0 {
      ModIs(n * page + page - 1, page, n, page - 1);
    } else {
      AddTimes(n, 1, page);
      ModIs(o + n * page + page - 1, page, n + 1, o - 1);
    }
  }

  /** The tail of a list of three or more entries is read from entry 1 on without leaving the list page. */
  lemma ReadsTail(list: seq<nat>, listAddr: nat, mem: seq<nat>, listBase: nat, page: pos)
    requires page >= 2 * ENTRY_BYTES && page % ENTRY_BYTES == 0 && listAddr % page == 0
    requires 3 <= |list| && |list| * ENTRY_BYTES <= page && Stored(list, listAddr, mem, listBase)
    ensures ReadList(mem, listBase, listAddr + ENTRY_BYTES, |list| - 1, page)
         == if AllAligned(list[1..], page) then Pages(list[1..]) else Malformed
  {
    var a := listAddr + ENTRY_BYTES;
    DivModIs(listAddr, page);
    DivMod(page, ENTRY_BYTES);
    ModIs(a, page, listAddr / page, ENTRY_BYTES);
    QwordAligned(listAddr, page);
    var words := seq(|list| - 1, j requires 0 <= j < |list| - 1 => ReadWord(mem, listBase, a + ENTRY_BYTES * j));
    forall j: nat | j < |words| ensures words[j] == list[1..][j] {
      assert a + ENTRY_BYTES * j == listAddr + ENTRY_BYTES * (j + 1);
    }
    assert words == list[1..];
  }

  lemma QwordAligned(a: nat, page: pos)
    requires a % page == 0 && page % ENTRY_BYTES == 0
    ensures (a + ENTRY_BYTES) % ENTRY_BYTES == 0
  {
    var q, k := a / page, page / ENTRY_BYTES;
    DivModIs(a, page);
    DivMod(page, ENTRY_BYTES);
    assert a == q * (ENTRY_BYTES * k) == ENTRY_BYTES * (q * k);
    ModIs(a + ENTRY_BYTES, ENTRY_BYTES, q * k + 1, 0);
  }

  /** The controller recovers the page list of a transfer of as many whole pages, for one, two or more pages,
      exactly when every entry is page aligned; and it never meets a chain entry. */
  lemma RoundTripIff(list: seq<nat>, listAddr: nat, mem: seq<nat>, listBase: nat, page: pos)
    requires page >= 2 * ENTRY_BYTES && page % ENTRY_BYTES == 0 && listAddr % page == 0
    requires 0 < |list| && |list| * ENTRY_BYTES <= page && Stored(list, listAddr, mem, listBase)
    ensures var (prp1, prp2) := Pointers(list, listAddr);
      Decode(prp1, prp2, |list| * page, mem, listBase, page) == Pages(list) <==> AllAligned(list, page)
  {
    var n := |list|;
    var (prp1, prp2) := Pointers(list, listAddr);
    PagesTouchedWhole(prp1, n, page);
    if prp1 % page != 0 {
      ReadListLength(mem, listBase, prp2, n, page);
      assert !AllAligned(list, page);
    } else if n == 1 {
      assert list == [prp1];
    } else if n == 2 {
      assert list == [prp1, prp2];
    } else {
      ReadsTail(list, listAddr, mem, listBase, page);
      assert list == [list[0]] + list[1..];
      ConcatAligned([list[0]], list[1..], page);
    }
  }
}
