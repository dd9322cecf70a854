/** What the engine does to memory: the effect of one descriptor, of a list of descriptors,
    and of a whole memcpy or fill, on every byte.  Reads outside memory give 0 and writes
    outside it are dropped, so every effect is total. */
module Dma {
  import opened Words

  type Byte = x: int | 0 <= x < 256
  type Memory = seq<Byte>

  /** The operation a hardware descriptor asks for. */
  datatype Op =
    | Null
    | Copy(dst: nat, src: nat, len: nat)
    | Fill(dst: nat, pattern: nat, len: nat)

  function ReadByte(m: Memory, a: nat): Byte {
    if a < |m| then m[a] else 0
  }

  /** Byte i after copying n bytes from src to dst, all read before any is written. */
  function CopiedByte(m: Memory, dst: nat, src: nat, n: nat, i: nat): Byte
    requires i < |m|
  {
    if dst <= i < dst + n then ReadByte(m, src + (i - dst)) else m[i]
  }

  function CopyBytes(m: Memory, dst: nat, src: nat, n: nat): Memory {
    seq(|m|, i requires 0 <= i < |m| => CopiedByte(m, dst, src, n, i))
  }

  /** Byte k of the 64-bit pattern in little-endian order. */
  function PatternByte(pattern: nat, k: nat): Byte {
    pattern / Pow2(8 * k) % 256
  }

  /** Byte i after filling n bytes from dst on with repetitions of the pattern. */
  function FilledByte(m: Memory, dst: nat, pattern: nat, n: nat, i: nat): Byte
    requires i < |m|
  {
    if dst <= i < dst + n then PatternByte(pattern, (i - dst) % 8) else m[i]
  }

  function FillBytes(m: Memory, dst: nat, pattern: nat, n: nat): Memory {
    seq(|m|, i requires 0 <= i < |m| => FilledByte(m, dst, pattern, n, i))
  }

  function Exec(op: Op, m: Memory): Memory {
    match op
    case Null => m
    case Copy(dst, src, len) => CopyBytes(m, dst, src, len)
    case Fill(dst, pattern, len) => FillBytes(m, dst, pattern, len)
  }

  function ExecAll(ops: seq<Op>, m: Memory): Memory {
    if ops == [] then m else Exec(ops[|ops| - 1], ExecAll(ops[..|ops| - 1], m))
  }

  lemma {:induction false} ExecAllConcat(a: seq<Op>, b: seq<Op>, m: Memory)
    ensures ExecAll(a + b, m) == ExecAll(b, ExecAll(a, m))
  {
    if b == [] {
      assert a + b == a;
    } else {
      var k := |b| - 1;
      assert (a + b)[..|a| + k] == a + b[..k];
      ExecAllConcat(a, b[..k], m);
    }
  }

  lemma ExecAllCons(op: Op, b: seq<Op>, m: Memory)
    ensures ExecAll([op] + b, m) == ExecAll(b, Exec(op, m))
  {
    ExecAllConcat([op], b, m);
    assert [op][..0] == [];
    assert ExecAll([op], m) == Exec(op, m);
  }

  // ---------------------------------------------------------------- chunking

  /** The descriptors of a copy of n > 0 bytes: 64-bit addresses wrap, and the length of a
      descriptor is 32 bits wide. */
  function CopyOps(dst: nat, src: nat, n: nat, max: nat): (ops: seq<Op>)
    requires 0 < max && 0 < n
    decreases n
  {
    if n <= max then [Copy(dst, src, n % U32)]
    else [Copy(dst, src, max % U32)] + CopyOps((dst + max) % U64, (src + max) % U64, n - max, max)
  }

  function FillOps(dst: nat, pattern: nat, n: nat, max: nat): (ops: seq<Op>)
    requires 0 < max && 0 < n
    decreases n
  {
    if n <= max then [Fill(dst, pattern, n % U32)]
    else [Fill(dst, pattern, max % U32)] + FillOps((dst + max) % U64, pattern, n - max, max)
  }

  /** The number of chunks of at most max bytes in n bytes. */
  function NumChunks(n: nat, max: nat): nat
    requires 0 < max
  {
    (n + max - 1) / max
  }

  lemma {:induction false} NumChunksStep(n: nat, max: nat)
    requires 0 < max
    ensures 0 < n <= max ==> NumChunks(n, max) == 1
    ensures max < n ==> NumChunks(n, max) == 1 + NumChunks(n - max, max)
    ensures n == 0 ==> NumChunks(n, max) == 0
    ensures n > 0 ==> NumChunks(n, max) >= 1
  {
    var k := n + max - 1;
    if n == 0 { ModIs(k, max, 0, k); }
    else if n <= max { ModIs(k, max, 1, n - 1); }
    else {
      var k' := k - max;
      assert k' == max * (k' / max) + k' % max;
      assert k == max * (1 + k' / max) + k' % max;
      ModIs(k, max, 1 + k' / max, k' % max);
    }
  }

  /** ops are consecutive copies of at most max bytes each that cover [dst, dst+n) from [src, src+n). */
  predicate TilesCopy(ops: seq<Op>, dst: nat, src: nat, n: nat, max: nat) {
    if ops == [] then n == 0
    else
      && ops[0].Copy? && ops[0].dst == dst && ops[0].src == src
      && 0 < ops[0].len <= max && ops[0].len <= n
      && TilesCopy(ops[1..], dst + ops[0].len, src + ops[0].len, n - ops[0].len, max)
  }

  predicate TilesFill(ops: seq<Op>, dst: nat, pattern: nat, n: nat, max: nat) {
    if ops == [] then n == 0
    else
      && ops[0].Fill? && ops[0].dst == dst && ops[0].pattern == pattern
      && 0 < ops[0].len <= max && ops[0].len <= n
      && TilesFill(ops[1..], dst + ops[0].len, pattern, n - ops[0].len, max)
  }

  /** Full chunks fit the 32-bit length field, or the transfer has no full 4 GiB chunk. */
  predicate LengthsFit(n: nat, max: nat) {
    n < U32 || max < U32
  }

  lemma {:induction false} CopyOpsCount(dst: nat, src: nat, n: nat, max: nat)
    requires 0 < max && 0 < n
    ensures |CopyOps(dst, src, n, max)| == NumChunks(n, max) >= 1
    decreases n
  {
    NumChunksStep(n, max);
    if n > max { CopyOpsCount((dst + max) % U64, (src + max) % U64, n - max, max); }
  }

  lemma {:induction false} FillOpsCount(dst: nat, pattern: nat, n: nat, max: nat)
    requires 0 < max && 0 < n
    ensures |FillOps(dst, pattern, n, max)| == NumChunks(n, max) >= 1
    decreases n
  {
    NumChunksStep(n, max);
    if n > max { FillOpsCount((dst + max) % U64, pattern, n - max, max); }
  }

  /** Chunk j of a copy starts j limits into the range and is as long as the limit, or as what is left; its length is
      cut to 32 bits. */
  lemma {:induction false} CopyChunkAt(dst: nat, src: nat, n: nat, max: nat, j: nat)
    requires 0 < max && 0 < n && dst + n <= U64 && src + n <= U64 && j < |CopyOps(dst, src, n, max)|
    ensures j * max < n
    ensures CopyOps(dst, src, n, max)[j] == Copy(dst + j * max, src + j * max, Min(n - j * max, max) % 0x1_0000_0000)
    decreases n
  {
    if j > 0 {
      ModSmall(dst + max, U64);
      ModSmall(src + max, U64);
      CopyChunkAt(dst + max, src + max, n - max, max, j - 1);
      OneMore(j, max);
    }
  }

  lemma OneMore(j: nat, max: nat)
    requires j > 0
    ensures j * max == (j - 1) * max + max
  {
  }

  lemma {:induction false} FillChunkAt(dst: nat, pattern: nat, n: nat, max: nat, j: nat)
    requires 0 < max && 0 < n && dst + n <= U64 && j < |FillOps(dst, pattern, n, max)|
    ensures j * max < n
    ensures FillOps(dst, pattern, n, max)[j] == Fill(dst + j * max, pattern, Min(n - j * max, max) % 0x1_0000_0000)
    decreases n
  {
    if j > 0 {
      ModSmall(dst + max, U64);
      FillChunkAt(dst + max, pattern, n - max, max, j - 1);
      OneMore(j, max);
    }
  }

  /** The chunks of a copy cover the range exactly if and only if no chunk is 4 GiB long. */
  lemma {:induction false} CopyTilesIff(dst: nat, src: nat, n: nat, max: nat)
    requires 0 < max <= U32 && 0 < n && dst + n <= U64 && src + n <= U64
    ensures TilesCopy(CopyOps(dst, src, n, max), dst, src, n, max) <==> LengthsFit(n, max)
    decreases n
  {
    var ops := CopyOps(dst, src, n, max);
    if n <= max {
      assert ops[1..] == [];
      if n < U32 { ModSmall(n, U32); }
    } else if LengthsFit(n, max) {
      ModSmall(max, U32);
      ModSmall(dst + max, U64);
      ModSmall(src + max, U64);
      CopyTilesIff(dst + max, src + max, n - max, max);
      assert ops[1..] == CopyOps(dst + max, src + max, n - max, max);
    }
  }

  lemma {:induction false} FillTilesIff(dst: nat, pattern: nat, n: nat, max: nat)
    requires 0 < max <= U32 && 0 < n && dst + n <= U64
    ensures TilesFill(FillOps(dst, pattern, n, max), dst, pattern, n, max) <==> LengthsFit(n, max)
    decreases n
  {
    var ops := FillOps(dst, pattern, n, max);
    if n <= max {
      assert ops[1..] == [];
      if n < U32 { ModSmall(n, U32); }
    } else if LengthsFit(n, max) {
      ModSmall(max, U32);
      ModSmall(dst + max, U64);
      FillTilesIff(dst + max, pattern, n - max, max);
      assert ops[1..] == FillOps(dst + max, pattern, n - max, max);
    }
  }

  // ---------------------------------------------------------------- meaning of a chunked copy

  /** A later chunk reads bytes that an earlier chunk of the same copy has already written. */
  predicate OverlapsForward(dst: nat, src: nat, n: nat, max: nat) {
    src < dst < src + n && max < n
  }

  /** When a chunked copy is a memmove, whatever memory holds. */
  predicate CopyExact(dst: nat, src: nat, n: nat, max: nat) {
    src == dst || (LengthsFit(n, max) && !OverlapsForward(dst, src, n, max))
  }

  lemma CopySplit(m: Memory, dst: nat, src: nat, k: nat, n: nat)
    requires k <= n && (dst <= src || src + n <= dst)
    ensures CopyBytes(CopyBytes(m, dst, src, k), dst + k, src + k, n - k) == CopyBytes(m, dst, src, n)
  {
    var m1 := CopyBytes(m, dst, src, k);
    forall i: nat | i < |m|
      ensures CopiedByte(m1, dst + k, src + k, n - k, i) == CopiedByte(m, dst, src, n, i)
    {
      if dst + k <= i < dst + n && src + (i - dst) < |m| {
        assert m1[src + (i - dst)] == m[src + (i - dst)];
      }
    }
  }

  lemma CopySelf(m: Memory, a: nat, n: nat)
    ensures CopyBytes(m, a, a, n) == m
  {
  }

  lemma {:induction false} CopyOpsOnSelf(a: nat, n: nat, max: nat, m: Memory)
    requires 0 < max && 0 < n
    ensures ExecAll(CopyOps(a, a, n, max), m) == m
    decreases n
  {
    CopySelf(m, a, n % U32);
    if n <= max {
      ExecAllCons(Copy(a, a, n % U32), [], m);
      assert [Copy(a, a, n % U32)] + [] == CopyOps(a, a, n, max);
    } else {
      CopySelf(m, a, max % U32);
      CopyOpsOnSelf((a + max) % U64, n - max, max, m);
      ExecAllCons(Copy(a, a, max % U32), CopyOps((a + max) % U64, (a + max) % U64, n - max, max), m);
    }
  }

  /** The effect of a copy taken chunk by chunk, for addresses that do not wrap. */
  function CopyInChunks(dst: nat, src: nat, n: nat, max: nat, m: Memory): (r: Memory)
    requires 0 < max && 0 < n
    ensures |r| == |m|
    decreases n
  {
    if n <= max then CopyBytes(m, dst, src, n % U32)
    else CopyInChunks(dst + max, src + max, n - max, max, CopyBytes(m, dst, src, max % U32))
  }

  lemma {:induction false} CopyOpsInChunks(dst: nat, src: nat, n: nat, max: nat, m: Memory)
    requires 0 < max && 0 < n && dst + n <= U64 && src + n <= U64
    ensures ExecAll(CopyOps(dst, src, n, max), m) == CopyInChunks(dst, src, n, max, m)
    decreases n
  {
    if n <= max {
      ExecAllCons(Copy(dst, src, n % U32), [], m);
      assert [Copy(dst, src, n % U32)] + [] == CopyOps(dst, src, n, max);
    } else {
      ModSmall(dst + max, U64);
      ModSmall(src + max, U64);
      ExecAllCons(Copy(dst, src, max % U32), CopyOps(dst + max, src + max, n - max, max), m);
      CopyOpsInChunks(dst + max, src + max, n - max, max, CopyBytes(m, dst, src, max % U32));
    }
  }

  lemma {:induction false} CopyInChunksIsMemmove(dst: nat, src: nat, n: nat, max: nat, m: Memory)
    requires 0 < max <= U32 && 0 < n && LengthsFit(n, max) && !OverlapsForward(dst, src, n, max)
    ensures CopyInChunks(dst, src, n, max, m) == CopyBytes(m, dst, src, n)
    decreases n
  {
    if n > max {
      CopyInChunksIsMemmove(dst + max, src + max, n - max, max, CopyBytes(m, dst, src, max));
      CopySplit(m, dst, src, max, n);
    }
  }

  /** Bytes below the destination survive the copy. */
  lemma {:induction false} CopyInChunksBelow(dst: nat, src: nat, n: nat, max: nat, m: Memory, a: nat)
    requires 0 < max && 0 < n && a < dst && a < |m|
    ensures CopyInChunks(dst, src, n, max, m)[a] == m[a]
    decreases n
  {
    var m1 := CopyBytes(m, dst, src, Min(n, max) % U32);
    assert m1[a] == CopiedByte(m, dst, src, Min(n, max) % U32, a);
    if n > max { CopyInChunksBelow(dst + max, src + max, n - max, max, m1, a); }
  }

  /** A byte whose source lies below the destination range arrives unchanged. */
  lemma {:induction false} CopyInChunksReadsBelow(dst: nat, src: nat, n: nat, max: nat, m: Memory, j: nat)
    requires 0 < max <= U32 && 0 < n && LengthsFit(n, max)
    requires j < n && src + j < dst && dst + j < |m|
    ensures CopyInChunks(dst, src, n, max, m)[dst + j] == m[src + j]
    decreases n
  {
    hide CopyInChunks;
    var k := Min(n, max);
    if j < k {
      FirstChunkArrives(dst, src, n, max, m, j);
    } else {
      LaterChunkReads(dst, src, n, max, m, j);
      CopyInChunksReadsBelow(dst + max, src + max, n - max, max, CopyBytes(m, dst, src, max), j - max);
    }
  }

  lemma FirstChunkArrives(dst: nat, src: nat, n: nat, max: nat, m: Memory, j: nat)
    requires 0 < max <= U32 && 0 < n && LengthsFit(n, max)
    requires j < Min(n, max) && src + j < dst && dst + j < |m|
    ensures CopyInChunks(dst, src, n, max, m)[dst + j] == m[src + j]
  {
    var k := Min(n, max);
    var m1 := CopyBytes(m, dst, src, k);
    assert m1[dst + j] == CopiedByte(m, dst, src, k, dst + j);
    if n > max { CopyInChunksBelow(dst + max, src + max, n - max, max, m1, dst + j); }
  }

  lemma LaterChunkReads(dst: nat, src: nat, n: nat, max: nat, m: Memory, j: nat)
    requires 0 < max <= U32 && LengthsFit(n, max) && max <= j < n && src + j < dst && dst + j < |m|
    ensures var m1 := CopyBytes(m, dst, src, max);
      && |m1| == |m| && m1[src + j] == m[src + j]
      && CopyInChunks(dst, src, n, max, m) == CopyInChunks(dst + max, src + max, n - max, max, m1)
  {
    ModSmall(max, U32);
    assert CopyBytes(m, dst, src, max)[src + j] == CopiedByte(m, dst, src, max, src + j);
  }

  /** Memory of the given size that holds 1 at a and 0 elsewhere. */
  function OneHot(size: nat, a: nat): Memory {
    seq(size, i => if i == a then 1 else 0)
  }

  /** The first byte whose source the first chunk overwrote. */
  function StaleByte(dst: nat, src: nat, max: nat): nat
    requires src < dst
  {
    if dst - src < max then max else dst - src
  }

  /** Under a forward overlap that byte receives what the first chunk put at its source. */
  lemma OverlapReadsStale(dst: nat, src: nat, n: nat, max: nat, m: Memory)
    requires 0 < max <= U32 && LengthsFit(n, max) && OverlapsForward(dst, src, n, max) && |m| == dst + n
    ensures StaleByte(dst, src, max) < n
    ensures CopyInChunks(dst, src, n, max, m)[dst + StaleByte(dst, src, max)]
         == m[2 * src + StaleByte(dst, src, max) - dst]
  {
    hide CopyInChunks, CopyBytes;
    var i := StaleByte(dst, src, max);
    var m1 := CopyBytes(m, dst, src, max);
    FirstChunkStep(dst, src, n, max, m);
    FirstChunkByte(dst, src, max, m, src + i);
    assert (dst + max) + (i - max) == dst + i && (src + max) + (i - max) == src + i;
    CopyInChunksReadsBelow(dst + max, src + max, n - max, max, m1, i - max);
  }

  lemma FirstChunkStep(dst: nat, src: nat, n: nat, max: nat, m: Memory)
    requires 0 < max <= U32 && max < n && LengthsFit(n, max)
    ensures |CopyBytes(m, dst, src, max)| == |m|
    ensures CopyInChunks(dst, src, n, max, m)
         == CopyInChunks(dst + max, src + max, n - max, max, CopyBytes(m, dst, src, max))
  {
    ModSmall(max, U32);
  }

  lemma FirstChunkByte(dst: nat, src: nat, max: nat, m: Memory, a: nat)
    requires dst <= a < dst + max && a < |m| && src + (a - dst) < |m|
    ensures |CopyBytes(m, dst, src, max)| == |m| && CopyBytes(m, dst, src, max)[a] == m[src + (a - dst)]
  {
    assert CopyBytes(m, dst, src, max)[a] == CopiedByte(m, dst, src, max, a);
  }

  /** A forward overlap loses data for some memory. */
  lemma OverlapLosesData(dst: nat, src: nat, n: nat, max: nat)
    requires 0 < max <= U32 && dst + n <= U64 && src + n <= U64
    requires LengthsFit(n, max) && OverlapsForward(dst, src, n, max)
    ensures exists m: Memory :: ExecAll(CopyOps(dst, src, n, max), m) != CopyBytes(m, dst, src, n)
  {
    var i := StaleByte(dst, src, max);
    var m := OneHot(dst + n, src + i);
    OverlapReadsStale(dst, src, n, max, m);
    CopyOpsInChunks(dst, src, n, max, m);
    assert CopyBytes(m, dst, src, n)[dst + i] == CopiedByte(m, dst, src, n, dst + i) == 1;
  }

  /** A 4 GiB chunk is announced with length 0, so its bytes never move. */
  lemma TruncationLosesData(dst: nat, src: nat, n: nat, max: nat)
    requires 0 < max <= U32 && 0 < n && dst + n <= U64 && src + n <= U64
    requires !LengthsFit(n, max) && src != dst
    ensures exists m: Memory :: ExecAll(CopyOps(dst, src, n, max), m) != CopyBytes(m, dst, src, n)
  {
    var m := OneHot(dst + src + 1, src);
    CopyNothing(m, dst, src);
    if n > max { CopyInChunksBelow(dst + max, src + max, n - max, max, m, dst); }
    CopyOpsInChunks(dst, src, n, max, m);
    assert CopyBytes(m, dst, src, n)[dst] == CopiedByte(m, dst, src, n, dst) == 1;
  }

  lemma CopyNothing(m: Memory, dst: nat, src: nat)
    ensures CopyBytes(m, dst, src, 0) == m
  {
  }

  /** A chunked copy has the effect of one memmove on every memory, if and only if source and
      destination coincide, or no chunk is 4 GiB long and no later chunk reads what an earlier
      one wrote. */
  lemma CopyExactIff(dst: nat, src: nat, n: nat, max: nat)
    requires 0 < max <= U32 && 0 < n && dst + n <= U64 && src + n <= U64
    ensures (forall m: Memory :: ExecAll(CopyOps(dst, src, n, max), m) == CopyBytes(m, dst, src, n))
            <==> CopyExact(dst, src, n, max)
  {
    if src == dst {
      forall m: Memory ensures ExecAll(CopyOps(dst, src, n, max), m) == CopyBytes(m, dst, src, n) {
        CopyOpsOnSelf(dst, n, max, m);
        CopySelf(m, dst, n);
      }
    } else if !LengthsFit(n, max) {
      TruncationLosesData(dst, src, n, max);
    } else if OverlapsForward(dst, src, n, max) {
      OverlapLosesData(dst, src, n, max);
    } else {
      forall m: Memory ensures ExecAll(CopyOps(dst, src, n, max), m) == CopyBytes(m, dst, src, n) {
        CopyOpsInChunks(dst, src, n, max, m);
        CopyInChunksIsMemmove(dst, src, n, max, m);
      }
    }
  }

  // ---------------------------------------------------------------- meaning of a chunked fill

  lemma PhaseKept(x: int, k: int)
    requires k % 8 == 0
    ensures (x - k) % 8 == x % 8
  {
  }

  lemma FillSplit(m: Memory, dst: nat, pattern: nat, k: nat, n: nat)
    requires k <= n && k % 8 == 0
    ensures FillBytes(FillBytes(m, dst, pattern, k), dst + k, pattern, n - k) == FillBytes(m, dst, pattern, n)
  {
    var m1 := FillBytes(m, dst, pattern, k);
    forall i: nat | i < |m|
      ensures FilledByte(m1, dst + k, pattern, n - k, i) == FilledByte(m, dst, pattern, n, i)
    {
      if dst + k <= i < dst + n {
        PhaseKept(i - dst, k);
      }
    }
  }

  lemma {:induction false} FillOpsIsFill(dst: nat, pattern: nat, n: nat, max: nat, m: Memory)
    requires 0 < max <= U32 && max % 8 == 0 && 0 < n && dst + n <= U64 && LengthsFit(n, max)
    ensures ExecAll(FillOps(dst, pattern, n, max), m) == FillBytes(m, dst, pattern, n)
    decreases n
  {
    if n <= max {
      ModSmall(n, U32);
      ExecAllCons(Fill(dst, pattern, n), [], m);
      assert [Fill(dst, pattern, n)] + [] == FillOps(dst, pattern, n, max);
    } else {
      ModSmall(max, U32);
      ModSmall(dst + max, U64);
      ExecAllCons(Fill(dst, pattern, max), FillOps(dst + max, pattern, n - max, max), m);
      FillOpsIsFill(dst + max, pattern, n - max, max, FillBytes(m, dst, pattern, max));
      FillSplit(m, dst, pattern, max, n);
    }
  }

  lemma {:induction false} FillOpsBelow(dst: nat, pattern: nat, n: nat, max: nat, m: Memory, a: nat)
    requires 0 < max <= U32 && 0 < n && dst + n <= U64
    requires a < dst && a < |m|
    ensures a < |ExecAll(FillOps(dst, pattern, n, max), m)| && ExecAll(FillOps(dst, pattern, n, max), m)[a] == m[a]
    decreases n
  {
    var k := Min(n, max) % U32;
    if n <= max {
      ExecAllCons(Fill(dst, pattern, k), [], m);
      assert [Fill(dst, pattern, k)] + [] == FillOps(dst, pattern, n, max);
    } else {
      ModSmall(dst + max, U64);
      ExecAllCons(Fill(dst, pattern, k), FillOps(dst + max, pattern, n - max, max), m);
      FillOpsBelow(dst + max, pattern, n - max, max, FillBytes(m, dst, pattern, k), a);
    }
  }

  lemma FillTruncationLosesData(dst: nat, pattern: nat, n: nat, max: nat)
    requires 0 < max <= U32 && 0 < n && dst + n <= U64 && !LengthsFit(n, max)
    ensures exists m: Memory :: ExecAll(FillOps(dst, pattern, n, max), m) != FillBytes(m, dst, pattern, n)
  {
    var m := seq(dst + 1, i => if PatternByte(pattern, 0) == 0 then 1 else 0);
    assert FillBytes(m, dst, pattern, 0) == m;
    if n == max {
      ExecAllCons(Fill(dst, pattern, 0), [], m);
      assert [Fill(dst, pattern, 0)] + [] == FillOps(dst, pattern, n, max);
    } else {
      ModSmall(dst + max, U64);
      ExecAllCons(Fill(dst, pattern, 0), FillOps(dst + max, pattern, n - max, max), m);
      FillOpsBelow(dst + max, pattern, n - max, max, m, dst);
    }
    assert FillBytes(m, dst, pattern, n)[dst] == PatternByte(pattern, 0);
  }

  /** A chunked fill keeps the phase of the 8-byte pattern, if and only if no chunk is 4 GiB long. */
  lemma FillExactIff(dst: nat, pattern: nat, n: nat, max: nat)
    requires 0 < max <= U32 && max % 8 == 0 && 0 < n && dst + n <= U64
    ensures (forall m: Memory :: ExecAll(FillOps(dst, pattern, n, max), m) == FillBytes(m, dst, pattern, n))
            <==> LengthsFit(n, max)
  {
    if LengthsFit(n, max) {
      forall m: Memory ensures ExecAll(FillOps(dst, pattern, n, max), m) == FillBytes(m, dst, pattern, n) {
        FillOpsIsFill(dst, pattern, n, max, m);
      }
    } else {
      FillTruncationLosesData(dst, pattern, n, max);
    }
  }
}
