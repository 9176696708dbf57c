/** Guest memory access through the flat view.

  Reads and writes walk the flat ranges one chunk at a time; the reference is
  byte-wise memory: every guest address has its own host address, and a transfer
  moves one byte per address.  Device callbacks are not modelled: an access that
  reaches one stops there with `ToDevice`.  A read that reaches a ROM in read mode
  takes all that is left from the ROM. */
module FlatAccess {
  import opened Addresses
  import opened Arithmetic
  import opened Bytes
  import opened Regions
  import opened FlatViews
  import KvmSlots
  import Topology
  import opened DirtyBlocks
  import opened DirtyLog

  datatype Access = Done | Unmapped | ToDevice | BeyondRegion

  predicate IsRam(k: Kind) {
    k.Ram? || k.RamDevice?
  }

  /** The host address behind guest address `a`, if `a` shows RAM. */
  function Translate(s: seq<FlatRange>, a: int): Option<nat> {
    match At(s, a)
    case Some(hit) =>
      if hit.owner.Terminate? && IsRam(hit.owner.kind) then Some(hit.owner.kind.host + hit.offset) else None
    case None => None
  }

  /** Every address of [lo, hi) shows RAM. */
  ghost predicate RamMapped(s: seq<FlatRange>, lo: int, hi: int) {
    forall a: int :: lo <= a < hi ==> Translate(s, a).Some?
  }

  /** A sorted, disjoint view without empty ranges, whose RAM lies in `size` bytes of host memory. */
  ghost predicate Backed(s: seq<FlatRange>, size: nat) {
    && ValidView(s) && NoEmptyRange(s)
    && forall i :: 0 <= i < |s| && IsRam(s[i].owner.kind) ==> s[i].owner.kind.host + s[i].owner.size <= size
  }

  lemma {:induction false} TranslateInHost(s: seq<FlatRange>, size: nat, a: int)
    requires Backed(s, size) && Translate(s, a).Some?
    ensures Translate(s, a).value < size
  {
    FindFlatRangeExact(s, a);
  }

  /** `bytes` is what [lo, lo + |bytes|) shows, byte for byte. */
  ghost predicate Shows(s: seq<FlatRange>, host: seq<Byte>, lo: int, bytes: seq<Byte>) {
    forall a: int :: lo <= a < lo + |bytes| ==>
      Translate(s, a).Some? && Translate(s, a).value < |host| && bytes[a - lo] == host[Translate(s, a).value]
  }

  /** Host memory after storing `data` byte by byte at the guest addresses from `addr` on. */
  ghost function Stored(s: seq<FlatRange>, host: seq<Byte>, addr: int, data: seq<Byte>): (r: seq<Byte>)
    requires Backed(s, |host|) && RamMapped(s, addr, addr + |data|)
    ensures |r| == |host|
    decreases |data|
  {
    if data == [] then host
    else
      var n := |data| - 1;
      var before := Stored(s, host, addr, data[..n]);
      TranslateInHost(s, |host|, addr + n);
      before[Translate(s, addr + n).value := data[n]]
  }

  /** The guest addresses [lo, hi) translate to consecutive host addresses from `at` on. */
  ghost predicate Consecutive(s: seq<FlatRange>, lo: int, hi: int, at: int) {
    forall a: int :: lo <= a < hi ==> Translate(s, a) == Some(at + (a - lo))
  }

  /** Where flat range `fr` puts address `a` in host memory. */
  function HostOf(fr: FlatRange, a: nat): int
    requires fr.owner.Terminate? && IsRam(fr.owner.kind)
  {
    fr.owner.kind.host + fr.offsetInRegion + (a - fr.range.base)
  }

  /** A chunk [a, a + l) of a RAM range translates to consecutive host addresses. */
  lemma {:induction false} ChunkTranslates(s: seq<FlatRange>, size: nat, fr: FlatRange, a: nat, l: nat)
    requires Backed(s, size) && fr in s && fr.range.Contains(a) && a + l <= fr.range.End()
    requires fr.owner.Terminate? && IsRam(fr.owner.kind)
    ensures 0 <= HostOf(fr, a) && HostOf(fr, a) + l <= size
    ensures Consecutive(s, a, a + l, HostOf(fr, a))
  {
    var k :| 0 <= k < |s| && s[k] == fr;
    forall b: int | a <= b < a + l ensures Translate(s, b) == Some(HostOf(fr, a) + (b - a)) {
      AtIndex(s, k, b);
    }
  }

  /** Overwrite the bytes from `at` on. */
  function Splice(host: seq<Byte>, at: nat, data: seq<Byte>): (r: seq<Byte>)
    requires at + |data| <= |host|
    ensures |r| == |host|
    ensures forall h :: 0 <= h < |host| ==> r[h] == if at <= h < at + |data| then data[h - at] else host[h]
  {
    host[..at] + data + host[at + |data|..]
  }

  /** Storing a chunk at consecutive host addresses is splicing it in. */
  lemma {:induction false} StoredChunk(s: seq<FlatRange>, host: seq<Byte>, addr: int, done: seq<Byte>,
                                       chunk: seq<Byte>, at: nat)
    requires Backed(s, |host|) && RamMapped(s, addr, addr + |done|)
    requires at + |chunk| <= |host| && Consecutive(s, addr + |done|, addr + |done| + |chunk|, at)
    ensures RamMapped(s, addr, addr + |done + chunk|)
    ensures Stored(s, host, addr, done + chunk) == Splice(Stored(s, host, addr, done), at, chunk)
    decreases |chunk|
  {
    if chunk == [] {
      assert done + chunk == done;
    } else {
      var n := |chunk| - 1;
      assert (done + chunk)[..|done + chunk| - 1] == done + chunk[..n];
      assert Translate(s, addr + |done| + n) == Some(at + n);
      StoredChunk(s, host, addr, done, chunk[..n], at);
    }
  }

  /** What a read has gathered when it stands at address `lo + |dst|`. */
  lemma {:induction false} ShowsChunk(s: seq<FlatRange>, host: seq<Byte>, lo: int, dst: seq<Byte>, at: nat, l: nat)
    requires Shows(s, host, lo, dst) && at + l <= |host| && Consecutive(s, lo + |dst|, lo + |dst| + l, at)
    ensures Shows(s, host, lo, dst + host[at..at + l])
  {
  }

  predicate IsRom(k: Kind) {
    k.RomDevice? && k.romd
  }

  /** The ROMs in read mode lie in host memory, too. */
  ghost predicate RomsBacked(s: seq<FlatRange>, size: nat) {
    forall i :: 0 <= i < |s| && s[i].owner.Terminate? && IsRom(s[i].owner.kind) ==>
      s[i].owner.kind.host + s[i].owner.size <= size
  }

  ghost predicate RomAt(s: seq<FlatRange>, a: int) {
    match At(s, a)
    case None => false
    case Some(hit) => hit.owner.Terminate? && hit.owner.kind.RomDevice? && hit.owner.kind.romd
  }

  /** The ROM at `a` has `l` more bytes. */
  ghost predicate RomHas(s: seq<FlatRange>, a: int, l: nat) {
    RomAt(s, a) && At(s, a).value.offset + l <= At(s, a).value.owner.size
  }

  /** The first `k` addresses show RAM, and the next shows a ROM that has the rest. */
  ghost predicate RomAfter(s: seq<FlatRange>, addr: int, count: nat, k: nat) {
    k < Max(count, 1) && RamMapped(s, addr, addr + k) && RomHas(s, addr + k, count - k)
  }

  /** After `k` bytes of RAM the bytes are those of the ROM at `addr + k`, in a row. */
  ghost predicate RomBytes(s: seq<FlatRange>, host: seq<Byte>, addr: int, dst: seq<Byte>, k: nat)
    requires RomAfter(s, addr, |dst|, k)
  {
    var at := At(s, addr + k).value.owner.kind.host + At(s, addr + k).value.offset;
    at + (|dst| - k) <= |host| && dst[k..] == host[at..at + (|dst| - k)]
  }

  /** Read `count` bytes from `addr` on. */
  method Read(s: seq<FlatRange>, host: seq<Byte>, addr: nat, count: nat) returns (r: Access, dst: seq<Byte>)
    requires Backed(s, |host|) && RomsBacked(s, |host|)
    ensures r == Done <==> RamMapped(s, addr, addr + Max(count, 1)) || exists k: nat :: RomAfter(s, addr, count, k)
    ensures r == Done ==> |dst| == count
    ensures r == Done && RamMapped(s, addr, addr + count) ==> Shows(s, host, addr, dst)
    ensures forall k: nat :: r == Done && RomAfter(s, addr, count, k) ==>
              Shows(s, host, addr, dst[..k]) && RomBytes(s, host, addr, dst, k)
    ensures r != Done ==> |dst| <= count && Shows(s, host, addr, dst) && Translate(s, addr + |dst|).None?
    ensures r != Done ==> (r == Unmapped <==> At(s, addr + |dst|).None?)
    ensures r != Done ==> (r == BeyondRegion <==> RomAt(s, addr + |dst|))
  {
    hide Shows, Consecutive, Backed, RamMapped, Translate, At, FindFlatRange, RomsBacked;
    var len: nat, l: nat, start := count, count, addr;
    dst := [];
    ShowsNothing(s, host, addr);
    while true
      invariant |dst| + len == count && l == len && start == addr + |dst|
      invariant Shows(s, host, addr, dst)
      invariant RamMapped(s, addr, start)
      invariant count > 0 ==> len > 0
      decreases len
    {
      BackedFind(s, |host|, start);
      var found := FindFlatRange(s, start);
      if found.None? {
        NotMapped(s, addr, start, addr + Max(count, 1));
        OneRomStart(s, addr, count, |dst|);
        return Unmapped, dst;
      }
      var fr := found.value;
      var frOffset := OffsetFrom(start, fr.range.base);
      var regionOffset := fr.offsetInRegion + frOffset;
      var frRemain := fr.range.size - frOffset;
      if !IsRam(fr.owner.kind) {
        NotMapped(s, addr, start, addr + Max(count, 1));
        OneRomStart(s, addr, count, |dst|);
        if !IsRom(fr.owner.kind) {
          return ToDevice, dst;
        }
        if regionOffset + l > fr.owner.size {
          return BeyondRegion, dst;
        }
        var at := fr.owner.kind.host + regionOffset;
        assert at + l <= |host| by { RomInHost(s, |host|, fr); }
        ghost var k := |dst|;
        ghost var ram := dst;
        dst := dst + host[at..at + l];
        assert dst[..k] == ram && dst[k..] == host[at..at + l];
        assert RomAfter(s, addr, count, k);
        if k < count {
          RamEnds(s, addr, count, k);
        }
        return Done, dst;
      }
      l := Min(l, frRemain);
      ChunkTranslates(s, |host|, fr, start, l);
      var at := fr.owner.kind.host + regionOffset;
      ShowsChunk(s, host, addr, dst, at, l);
      ChunkMapped(s, addr, start, l, at);
      dst := dst + host[at..at + l];
      len := len - l;
      if len == 0 {
        AllRam(s, addr, count);
        return Done, dst;
      }
      start := start + l;
      l := len;
    }
  }

  lemma {:induction false} RomInHost(s: seq<FlatRange>, size: nat, fr: FlatRange)
    requires RomsBacked(s, size) && fr in s && fr.owner.Terminate? && IsRom(fr.owner.kind)
    ensures fr.owner.kind.host + fr.owner.size <= size
  {
  }

  lemma {:induction false} RamIsNoRom(s: seq<FlatRange>, a: int)
    requires Translate(s, a).Some?
    ensures !RomAt(s, a)
  {
  }

  /** A read can go over to a ROM only where the RAM ends. */
  lemma {:induction false} OneRomStart(s: seq<FlatRange>, addr: int, count: nat, n: nat)
    requires RamMapped(s, addr, addr + n) && Translate(s, addr + n).None?
    ensures forall k: nat :: RomAfter(s, addr, count, k) ==> k == n
  {
    hide Translate, RomAt;
    forall k: nat ensures RomAfter(s, addr, count, k) ==> k == n {
      if k < n {
        RamIsNoRom(s, addr + k);
      }
    }
  }

  /** Where all is RAM no ROM is reached. */
  lemma {:induction false} AllRam(s: seq<FlatRange>, addr: int, count: nat)
    requires RamMapped(s, addr, addr + Max(count, 1))
    ensures forall k: nat :: !RomAfter(s, addr, count, k)
  {
    hide Translate, RomAt;
    forall k: nat ensures !RomAfter(s, addr, count, k) {
      if k < Max(count, 1) {
        RamIsNoRom(s, addr + k);
      }
    }
  }

  lemma {:induction false} RamEnds(s: seq<FlatRange>, addr: int, count: nat, n: nat)
    requires n < count && Translate(s, addr + n).None?
    ensures !RamMapped(s, addr, addr + count)
  {
  }

  lemma {:induction false} ShowsNothing(s: seq<FlatRange>, host: seq<Byte>, lo: int)
    ensures Shows(s, host, lo, []) && RamMapped(s, lo, lo)
  {
  }

  lemma {:induction false} NotMapped(s: seq<FlatRange>, lo: int, a: int, hi: int)
    requires lo <= a < hi && Translate(s, a).None?
    ensures !RamMapped(s, lo, hi)
  {
  }

  lemma {:induction false} ChunkMapped(s: seq<FlatRange>, lo: int, a: int, l: nat, at: nat)
    requires RamMapped(s, lo, a) && Translate(s, a).Some? && Consecutive(s, a, a + l, at)
    ensures RamMapped(s, lo, a + Max(l, 1))
  {
  }

  /** Looking up an address in a backed view. */
  lemma {:induction false} BackedFind(s: seq<FlatRange>, size: nat, a: int)
    requires Backed(s, size)
    ensures ValidView(s) && NoEmptyRange(s)
    ensures match FindFlatRange(s, a)
            case None => At(s, a).None? && Translate(s, a).None?
            case Some(fr) => fr in s && fr.range.Contains(a) && fr.owner.Terminate? && At(s, a) == Some(fr.HitAt(a)) &&
                             (Translate(s, a).Some? <==> IsRam(fr.owner.kind))
  {
    FindFlatRangeExact(s, a);
  }

  /** The part of the guest interval [lo, hi) that lies in `fr`. */
  function ChunkLo(fr: FlatRange, lo: nat): nat {
    Max(lo, fr.range.base)
  }

  function ChunkHi(fr: FlatRange, hi: nat): nat {
    Min(hi, fr.range.End())
  }

  /** The interval has a part in the RAM range `fr`, and the slot of `b` holds all of that part. */
  ghost predicate HeldChunk(b: DirtyBitmap, fr: FlatRange, lo: nat, hi: nat) {
    && fr.owner.Terminate? && IsRam(fr.owner.kind) && ChunkLo(fr, lo) < ChunkHi(fr, hi)
    && var at := HostOf(fr, ChunkLo(fr, lo));
       at >= 0 && Holds(b, at, ChunkHi(fr, hi) - ChunkLo(fr, lo))
  }

  /** Address `a` of a part that the slot holds has its host byte in page `n` of the slot. */
  ghost predicate MarksAt(b: DirtyBitmap, fr: FlatRange, lo: nat, hi: nat, a: nat, n: int)
    requires b.pageSize > 0
  {
    HeldChunk(b, fr, lo, hi) && fr.range.Contains(a) && lo <= a < hi && (HostOf(fr, a) - b.hva) / b.pageSize == n
  }

  /** Page `n` of the slot holds an address of the interval's part in `fr`, and the slot holds that part. */
  ghost predicate MarksIn(b: DirtyBitmap, fr: FlatRange, lo: nat, hi: nat, n: int)
    requires b.pageSize > 0
  {
    exists a: nat :: MarksAt(b, fr, lo, hi, a, n)
  }

  ghost predicate MarksPage(s: seq<FlatRange>, b: DirtyBitmap, lo: nat, hi: nat, n: int)
    requires b.pageSize > 0
  {
    exists i :: 0 <= i < |s| && MarksIn(b, s[i], lo, hi, n)
  }

  /** Besides the pages marked before, exactly those are marked that hold an address of a
      part of [lo, hi) that the slot holds as a whole. */
  ghost predicate MarksExactly(s: seq<FlatRange>, b: DirtyBitmap, was: seq<Word>, now: seq<Word>, lo: nat, hi: nat)
    requires b.pageSize > 0
  {
    forall n: int :: Dirty(now, n) <==> Dirty(was, n) || MarksPage(s, b, lo, hi, n)
  }

  /** No flat range lies on both sides of `a`, within what starts at `lo`. */
  ghost predicate Boundary(s: seq<FlatRange>, lo: nat, a: nat) {
    a == lo || forall i :: 0 <= i < |s| ==> !(s[i].range.base < a < s[i].range.End())
  }

  lemma {:induction false} EndIsBoundary(s: seq<FlatRange>, lo: nat, k: nat)
    requires ValidView(s) && k < |s|
    ensures Boundary(s, lo, s[k].range.End())
  {
  }

  /** Some number of [lo, hi] is in page `n`, for every page from the first to the last. */
  lemma {:induction false} PageMember(lo: nat, hi: nat, page: nat, n: nat) returns (x: nat)
    requires page > 0 && lo <= hi && lo / page <= n <= hi / page
    ensures lo <= x <= hi && x / page == n
  {
    MulMonotone(n, hi / page, page);
    if n * page >= lo {
      x := n * page;
      DivModUnique(x, page, n, 0);
    } else {
      x := lo;
      if n > lo / page {
        MulMonotone(lo / page + 1, n, page);
      }
    }
  }

  /** The next chunk leaves the parts in other ranges as they are. */
  lemma {:induction false} OtherChunks(s: seq<FlatRange>, b: DirtyBitmap, k: nat, lo: nat, a0: nat, l: nat, i: nat)
    requires ValidView(s) && k < |s| && i < |s| && i != k
    requires s[k].range.Contains(a0) && a0 + l <= s[k].range.End() && lo <= a0
    ensures HeldChunk(b, s[i], lo, a0 + l) <==> HeldChunk(b, s[i], lo, a0)
    ensures s[i].range.Contains(a0) == false
    ensures forall a: nat :: s[i].range.Contains(a) && a0 <= a < a0 + l ==> false
  {
    if i < k {
      assert s[i].range.End() <= s[k].range.base;
    } else {
      assert s[k].range.End() <= s[i].range.base;
    }
  }

  /** What the next chunk adds: its own pages, if the slot holds it. */
  lemma {:induction false} NextChunk(s: seq<FlatRange>, b: DirtyBitmap, k: nat, lo: nat, a0: nat, l: nat, n: int)
    requires b.pageSize > 0 && ValidView(s) && k < |s| && Boundary(s, lo, a0)
    requires s[k].range.Contains(a0) && a0 + l <= s[k].range.End() && lo <= a0
    ensures MarksPage(s, b, lo, a0 + l, n) <==>
            MarksPage(s, b, lo, a0, n) || MarksIn(b, s[k], lo, a0 + l, n)
  {
    hide HeldChunk;
    assert !HeldChunk(b, s[k], lo, a0) by { NoChunkYet(s, b, k, lo, a0); }
    forall i | 0 <= i < |s| && i != k ensures MarksIn(b, s[i], lo, a0, n) <==> MarksIn(b, s[i], lo, a0 + l, n) {
      OtherChunks(s, b, k, lo, a0, l, i);
      if MarksIn(b, s[i], lo, a0, n) {
        var a: nat :| MarksAt(b, s[i], lo, a0, a, n);
        assert MarksAt(b, s[i], lo, a0 + l, a, n);
      }
      if MarksIn(b, s[i], lo, a0 + l, n) {
        var a: nat :| MarksAt(b, s[i], lo, a0 + l, a, n);
        assert MarksAt(b, s[i], lo, a0, a, n);
      }
    }
    assert !MarksIn(b, s[k], lo, a0, n);
    hide MarksIn;
    if MarksPage(s, b, lo, a0, n) {
      var i :| 0 <= i < |s| && MarksIn(b, s[i], lo, a0, n);
      assert MarksIn(b, s[i], lo, a0 + l, n);
    }
  }

  lemma {:induction false} NoChunkYet(s: seq<FlatRange>, b: DirtyBitmap, k: nat, lo: nat, a0: nat)
    requires k < |s| && Boundary(s, lo, a0) && s[k].range.Contains(a0) && lo <= a0
    ensures ChunkLo(s[k], lo) == a0 && !HeldChunk(b, s[k], lo, a0)
  {
  }

  /** The pages of a held chunk are those from its first byte's to its last byte's. */
  lemma {:induction false} ChunkPages(b: DirtyBitmap, fr: FlatRange, lo: nat, a0: nat, l: nat, n: int)
    requires b.pageSize > 0 && l > 0 && fr.range.Contains(a0) && a0 + l <= fr.range.End() && ChunkLo(fr, lo) == a0
    requires HeldChunk(b, fr, lo, a0 + l)
    ensures var at := HostOf(fr, a0);
            (at - b.hva) / b.pageSize <= n < (at - b.hva + l - 1) / b.pageSize + 1
            <==> MarksIn(b, fr, lo, a0 + l, n)
  {
    var at := HostOf(fr, a0);
    assert b.hva <= at && ChunkHi(fr, a0 + l) == a0 + l;
    hide HeldChunk, ChunkHi;
    if (at - b.hva) / b.pageSize <= n <= (at - b.hva + l - 1) / b.pageSize {
      var x := PageMember(at - b.hva, at - b.hva + l - 1, b.pageSize, n);
      PageIsMarked(b, fr, lo, a0, l, x, n);
    }
    if MarksIn(b, fr, lo, a0 + l, n) {
      var a: nat :| MarksAt(b, fr, lo, a0 + l, a, n);
      MarkedIsPage(b, fr, lo, a0, l, a, n);
    }
  }

  lemma {:induction false} PageIsMarked(b: DirtyBitmap, fr: FlatRange, lo: nat, a0: nat, l: nat, x: nat, n: int)
    requires b.pageSize > 0 && fr.range.Contains(a0) && a0 + l <= fr.range.End() && lo <= a0
    requires HeldChunk(b, fr, lo, a0 + l) && b.hva <= HostOf(fr, a0)
    requires HostOf(fr, a0) - b.hva <= x < HostOf(fr, a0) - b.hva + l && x / b.pageSize == n
    ensures MarksAt(b, fr, lo, a0 + l, a0 + (x - (HostOf(fr, a0) - b.hva)), n)
  {
    hide HeldChunk;
  }

  lemma {:induction false} MarkedIsPage(b: DirtyBitmap, fr: FlatRange, lo: nat, a0: nat, l: nat, a: nat, n: int)
    requires b.pageSize > 0 && l > 0 && fr.owner.Terminate? && IsRam(fr.owner.kind) && ChunkLo(fr, lo) == a0
    requires MarksAt(b, fr, lo, a0 + l, a, n) && b.hva <= HostOf(fr, a0)
    ensures (HostOf(fr, a0) - b.hva) / b.pageSize <= n <= (HostOf(fr, a0) - b.hva + l - 1) / b.pageSize
  {
    hide HeldChunk;
    var first := HostOf(fr, a0) - b.hva;
    assert a0 <= a < a0 + l && HostOf(fr, a) - b.hva == first + (a - a0);
    DivMonotone(first, first + (a - a0), b.pageSize);
    DivMonotone(first + (a - a0), first + l - 1, b.pageSize);
  }

  /** Marking one chunk carries the book-keeping on. */
  lemma {:induction false} ChunkMarks(s: seq<FlatRange>, b: DirtyBitmap, was: seq<Word>, mid: seq<Word>,
                                      k: nat, lo: nat, a0: nat, l: nat)
    requires b.pageSize > 0 && ValidView(s) && k < |s| && s[k].owner.Terminate? && IsRam(s[k].owner.kind)
    requires s[k].range.Contains(a0) && a0 + l <= s[k].range.End() && lo <= a0 && HostOf(s[k], a0) >= 0
    requires Boundary(s, lo, a0)
    requires MarksExactly(s, b, was, mid, lo, a0) && MarkedBy(mid, b, HostOf(s[k], a0), l)
    ensures MarksExactly(s, b, was, b.words, lo, a0 + l)
  {
    hide MarksPage, MarksIn, Boundary, ValidView, Dirty;
    NoChunkYet(s, b, k, lo, a0);
    forall n: int ensures Dirty(b.words, n) <==> Dirty(was, n) || MarksPage(s, b, lo, a0 + l, n) {
      NextChunk(s, b, k, lo, a0, l, n);
      if HeldChunk(b, s[k], lo, a0 + l) {
        ChunkPages(b, s[k], lo, a0, l, n);
      } else {
        NotHeld(b, s[k], lo, a0 + l, n);
      }
    }
  }

  lemma {:induction false} NotHeld(b: DirtyBitmap, fr: FlatRange, lo: nat, hi: nat, n: int)
    requires b.pageSize > 0 && !HeldChunk(b, fr, lo, hi)
    ensures !MarksIn(b, fr, lo, hi, n)
  {
  }

  /** The words of all bitmaps. */
  ghost function WordsOf(log: VmmDirtyLog): seq<seq<Word>>
    reads log, log.bitmaps
  {
    seq(|log.bitmaps|, i requires 0 <= i < |log.bitmaps| reads log, log.bitmaps => log.bitmaps[i].words)
  }

  lemma {:induction false} WordsAt(log: VmmDirtyLog)
    ensures |WordsOf(log)| == |log.bitmaps|
    ensures forall i :: 0 <= i < |log.bitmaps| ==> WordsOf(log)[i] == log.bitmaps[i].words
  {
  }

  /** From the words `was` to the words `now`, all bitmaps have marked exactly what they must. */
  ghost predicate AllMarked(s: seq<FlatRange>, bitmaps: seq<DirtyBitmap>, was: seq<seq<Word>>, now: seq<seq<Word>>,
                            lo: nat, hi: nat) {
    |was| == |now| == |bitmaps| && forall i :: 0 <= i < |bitmaps| ==>
      bitmaps[i].pageSize > 0 && MarksExactly(s, bitmaps[i], was[i], now[i], lo, hi)
  }

  /** The first `written` bytes of `src` have been stored from `addr` on, and nothing else. */
  ghost predicate Progress(s: seq<FlatRange>, was: seq<Byte>, host: seq<Byte>, addr: nat, src: seq<Byte>,
                           written: nat) {
    && Backed(s, |was|) && |host| == |was| && written <= |src| && RamMapped(s, addr, addr + written)
    && host == Stored(s, was, addr, src[..written])
  }

  lemma {:induction false} StopsHere(s: seq<FlatRange>, was: seq<Byte>, host: seq<Byte>, addr: nat, src: seq<Byte>,
                                     written: nat)
    requires Progress(s, was, host, addr, src, written) && (written < |src| || src == [])
    requires Translate(s, addr + written).None?
    ensures !RamMapped(s, addr, addr + Max(|src|, 1)) && RamMapped(s, addr, addr + written)
    ensures host == Stored(s, was, addr, src[..written])
  {
    hide Stored, Backed;
    NotMapped(s, addr, addr + written, addr + Max(|src|, 1));
  }

  /** Splicing in the next chunk of a RAM range stores its bytes. */
  lemma {:induction false} ChunkProgress(s: seq<FlatRange>, was: seq<Byte>, host: seq<Byte>, addr: nat, src: seq<Byte>,
                                         written: nat, l: nat, fr: FlatRange)
    requires Progress(s, was, host, addr, src, written) && written + l <= |src|
    requires fr in s && fr.range.Contains(addr + written) && addr + written + l <= fr.range.End()
    requires fr.owner.Terminate? && IsRam(fr.owner.kind) && (l > 0 || src == [])
    ensures 0 <= HostOf(fr, addr + written) && HostOf(fr, addr + written) + l <= |host|
    ensures Progress(s, was, Splice(host, HostOf(fr, addr + written), src[written..written + l]), addr, src,
                     written + l)
    ensures RamMapped(s, addr, addr + written + l)
    ensures written + l == |src| ==> RamMapped(s, addr, addr + Max(|src|, 1))
    ensures Splice(host, HostOf(fr, addr + written), src[written..written + l]) ==
            Stored(s, was, addr, src[..written + l])
  {
    hide Stored, Backed, Translate, RamMapped, Consecutive, At;
    var start, chunk := addr + written, src[written..written + l];
    ChunkTranslates(s, |was|, fr, start, l);
    assert Translate(s, start).Some? by { BackedShows(s, |was|, fr, start); }
    ChunkMapped(s, addr, start, l, HostOf(fr, start));
    StoredChunk(s, was, addr, src[..written], chunk, HostOf(fr, start));
    assert src[..written] + chunk == src[..written + l];
  }

  lemma {:induction false} ProgressView(s: seq<FlatRange>, was: seq<Byte>, host: seq<Byte>, addr: nat, src: seq<Byte>,
                                        written: nat)
    requires Progress(s, was, host, addr, src, written)
    ensures Backed(s, |was|) && ValidView(s) && |host| == |was|
    ensures written <= |src| && RamMapped(s, addr, addr + written)
    ensures host == Stored(s, was, addr, src[..written])
  {
  }

  /** The next chunk may be written to its region, and that stores it. */
  lemma {:induction false} ChunkReady(s: seq<FlatRange>, was: seq<Byte>, host: seq<Byte>, addr: nat, src: seq<Byte>,
                                      written: nat, l: nat, fr: FlatRange, regionOffset: nat)
    requires Progress(s, was, host, addr, src, written) && written + l <= |src| && (l > 0 || src == [])
    requires fr in s && fr.range.Contains(addr + written) && addr + written + l <= fr.range.End()
    requires fr.owner.Terminate? && IsRam(fr.owner.kind)
    requires regionOffset == fr.offsetInRegion + (addr + written - fr.range.base)
    ensures |host| == |was| && regionOffset + l <= fr.owner.size && fr.owner.kind.host + fr.owner.size <= |host|
    ensures fr.owner.kind.host + regionOffset == HostOf(fr, addr + written)
    ensures var now := Splice(host, fr.owner.kind.host + regionOffset, src[written..written + l]);
            Progress(s, was, now, addr, src, written + l)
    ensures written + l == |src| ==> RamMapped(s, addr, addr + Max(|src|, 1))
  {
    hide Progress, Stored, Splice, RamMapped, Backed;
    ProgressView(s, was, host, addr, src, written);
    ChunkInOwner(s, |host|, fr, addr + written, l);
    ChunkProgress(s, was, host, addr, src, written, l, fr);
  }

  lemma {:induction false} BackedShows(s: seq<FlatRange>, size: nat, fr: FlatRange, a: nat)
    requires Backed(s, size) && fr in s && fr.range.Contains(a) && fr.owner.Terminate? && IsRam(fr.owner.kind)
    ensures Translate(s, a).Some?
  {
    var k :| 0 <= k < |s| && s[k] == fr;
    AtIndex(s, k, a);
  }

  lemma {:induction false} WriteStart(s: seq<FlatRange>, host: seq<Byte>, addr: nat, src: seq<Byte>, log: VmmDirtyLog)
    requires Backed(s, |host|) && log.Valid()
    ensures Progress(s, host, host, addr, src, 0) && Boundary(s, addr, addr)
    ensures AllMarked(s, log.bitmaps, WordsOf(log), WordsOf(log), addr, addr)
  {
  }

  /** Marking one chunk carries the book-keeping of all bitmaps on. */
  lemma {:induction false} AllChunkMarks(s: seq<FlatRange>, log: VmmDirtyLog, was: seq<seq<Word>>, mid: seq<seq<Word>>,
                                         k: nat, lo: nat, a0: nat, l: nat)
    requires log.Valid() && AllMarked(s, log.bitmaps, was, mid, lo, a0)
    requires ValidView(s) && k < |s| && s[k].owner.Terminate? && IsRam(s[k].owner.kind) && Boundary(s, lo, a0)
    requires s[k].range.Contains(a0) && a0 + l <= s[k].range.End() && lo <= a0 && HostOf(s[k], a0) >= 0
    requires forall i :: 0 <= i < |log.bitmaps| ==> MarkedBy(mid[i], log.bitmaps[i], HostOf(s[k], a0), l)
    ensures AllMarked(s, log.bitmaps, was, WordsOf(log), lo, a0 + l)
  {
    hide MarksExactly, MarkedBy, Boundary, ValidView;
    forall i | 0 <= i < |was|
      ensures MarksExactly(s, log.bitmaps[i], was[i], log.bitmaps[i].words, lo, a0 + l)
    {
      ChunkMarks(s, log.bitmaps[i], was[i], mid[i], k, lo, a0, l);
    }
  }

  // ---- Which writes a slot records ----

  /** The slot of `b` maps a part of the flat range `fr`, as alignment leaves it. */
  ghost predicate SlotIn(b: DirtyBitmap, fr: FlatRange) {
    && fr.owner.Terminate? && IsRam(fr.owner.kind)
    && fr.range.base <= b.gpa && b.gpa + b.len <= fr.range.End() && b.hva == HostOf(fr, b.gpa)
  }

  /** The part of [lo, hi) in `fr` does not reach beyond the slot. */
  predicate StaysInside(b: DirtyBitmap, fr: FlatRange, lo: nat, hi: nat) {
    b.gpa <= ChunkLo(fr, lo) && ChunkHi(fr, hi) <= b.gpa + b.len
  }

  /** The slot that the listener makes for a flat range lies in it; for a range of whole
      pages it holds every part of it. */
  lemma {:induction false} SlotOfRange(b: DirtyBitmap, fr: FlatRange, page: nat)
    requires page > 0 && fr.owner.Terminate? && IsRam(fr.owner.kind) && fr.range.End() <= U64_MAX
    requires KvmSlots.MappingOf(fr, page) == Some(KvmSlots.Mapping(AddressRange(b.gpa, b.len), b.hva))
    ensures SlotIn(b, fr)
    ensures fr.range.base % page == 0 && fr.range.size % page == 0 ==>
              forall lo: nat, hi: nat :: StaysInside(b, fr, lo, hi)
  {
    KvmSlots.AlignedInside(fr.range, page);
  }

  /** Only `s[i]` shows host bytes of the slot of `b`. */
  ghost predicate OnlyIn(s: seq<FlatRange>, b: DirtyBitmap, i: nat) {
    forall j, a: nat :: 0 <= j < |s| && j != i && s[j].owner.Terminate? && IsRam(s[j].owner.kind) &&
                        s[j].range.Contains(a) ==>
      !(b.hva <= HostOf(s[j], a) < b.hva + b.len)
  }

  /** The page of a written address of a slot is marked if the write's part in its flat range
      stays inside the slot; and, where nothing else shows the slot's memory and the page was
      clean, only then: a part that crosses the slot's edge is recorded nowhere. */
  lemma {:induction false} SlotRecordsExactly(s: seq<FlatRange>, b: DirtyBitmap, was: seq<Word>, now: seq<Word>,
                                              lo: nat, hi: nat, i: nat, a: nat)
    requires b.pageSize > 0 && MarksExactly(s, b, was, now, lo, hi)
    requires i < |s| && SlotIn(b, s[i]) && b.gpa <= a < b.gpa + b.len && lo <= a < hi
    ensures StaysInside(b, s[i], lo, hi) ==> Dirty(now, (a - b.gpa) / b.pageSize)
    ensures OnlyIn(s, b, i) && !Dirty(was, (a - b.gpa) / b.pageSize) ==>
              (Dirty(now, (a - b.gpa) / b.pageSize) <==> StaysInside(b, s[i], lo, hi))
  {
    hide Dirty;
    var n := (a - b.gpa) / b.pageSize;
    assert HostOf(s[i], a) - b.hva == a - b.gpa;
    HeldIsInside(b, s[i], lo, hi, a);
    if StaysInside(b, s[i], lo, hi) {
      assert MarksAt(b, s[i], lo, hi, a, n) && MarksIn(b, s[i], lo, hi, n);
    } else if OnlyIn(s, b, i) {
      NotElsewhere(s, b, lo, hi, i, n);
    }
  }

  lemma {:induction false} NotElsewhere(s: seq<FlatRange>, b: DirtyBitmap, lo: nat, hi: nat, i: nat, n: int)
    requires b.pageSize > 0 && i < |s| && OnlyIn(s, b, i) && !HeldChunk(b, s[i], lo, hi)
    ensures !MarksPage(s, b, lo, hi, n)
  {
    forall j, c: nat | 0 <= j < |s| ensures !MarksAt(b, s[j], lo, hi, c, n) {
      if s[j].owner.Terminate? && IsRam(s[j].owner.kind) && s[j].range.Contains(c) && lo <= c < hi && j != i {
        assert !(b.hva <= HostOf(s[j], c) < b.hva + b.len);
      }
    }
  }

  lemma {:induction false} HeldIsInside(b: DirtyBitmap, fr: FlatRange, lo: nat, hi: nat, a: nat)
    requires SlotIn(b, fr) && b.gpa <= a < b.gpa + b.len && lo <= a < hi
    ensures HeldChunk(b, fr, lo, hi) <==> StaysInside(b, fr, lo, hi)
  {
  }

  /** A chunk of a flat range lies inside the owner, and the owner inside host memory. */
  lemma {:induction false} ChunkInOwner(s: seq<FlatRange>, size: nat, fr: FlatRange, a: nat, l: nat)
    requires Backed(s, size) && fr in s && fr.range.Contains(a) && a + l <= fr.range.End()
    requires fr.owner.Terminate? && IsRam(fr.owner.kind)
    ensures fr.offsetInRegion + (a - fr.range.base) + l <= fr.owner.size
    ensures fr.owner.kind.host + fr.owner.size <= size
  {
  }

  class GuestMemory {
    var host: seq<Byte>
    const log: VmmDirtyLog

    constructor (host: seq<Byte>, log: VmmDirtyLog)
      ensures this.host == host && this.log == log
    {
      this.host, this.log := host, log;
    }

    /** Write to a RAM region: mark the host range dirty, then copy.  Refused when
        the range reaches beyond the region. */
    method WriteRegion(owner: Region, offset: nat, data: seq<Byte>) returns (ok: bool)
      requires owner.Terminate? && IsRam(owner.kind) && owner.kind.host + owner.size <= |host| && log.Valid()
      modifies this, log.bitmaps
      ensures log.Valid()
      ensures ok <==> offset + |data| <= owner.size
      ensures host == if ok then Splice(old(host), owner.kind.host + offset, data) else old(host)
      ensures forall i :: 0 <= i < |log.bitmaps| ==>
                if ok && log.active then
                  MarkedBy(old(log.bitmaps[i].words), log.bitmaps[i], owner.kind.host + offset, |data|)
                else log.bitmaps[i].words == old(log.bitmaps[i].words)
    {
      if offset + |data| > owner.size {
        return false;
      }
      log.MarkDirtyLog(owner.kind.host + offset, |data|);
      host := Splice(host, owner.kind.host + offset, data);
      return true;
    }

    /** Write the next `l` bytes into the RAM range `fr`, and keep the books. */
    method WriteChunk(s: seq<FlatRange>, src: seq<Byte>, addr: nat, written: nat, l: nat, fr: FlatRange,
                      regionOffset: nat, ghost was: seq<Byte>, ghost words: seq<seq<Word>>)
      requires log.Valid() && Progress(s, was, host, addr, src, written) && written + l <= |src| && (l > 0 || src == [])
      requires fr in s && fr.range.Contains(addr + written) && addr + written + l <= fr.range.End()
      requires fr.owner.Terminate? && IsRam(fr.owner.kind) && Boundary(s, addr, addr + written)
      requires regionOffset == fr.offsetInRegion + (addr + written - fr.range.base)
      requires log.active ==> AllMarked(s, log.bitmaps, words, WordsOf(log), addr, addr + written)
      modifies this, log.bitmaps
      ensures log.Valid() && |host| == |was| && Progress(s, was, host, addr, src, written + l)
      ensures written + l == |src| ==> RamMapped(s, addr, addr + Max(|src|, 1))
      ensures log.active ==> AllMarked(s, log.bitmaps, words, WordsOf(log), addr, addr + (written + l))
      ensures addr + written + l == fr.range.End() ==> Boundary(s, addr, addr + (written + l))
    {
      hide AllMarked, WordsOf, MarkedBy, RamMapped, Splice, Boundary, Progress, Stored, Backed, At, Translate;
      ghost var start, mid := addr + written, WordsOf(log);
      ghost var k :| 0 <= k < |s| && s[k] == fr;
      ChunkReady(s, was, host, addr, src, written, l, fr, regionOffset);
      assert Boundary(s, addr, fr.range.End()) && ValidView(s) by {
        ProgressView(s, was, host, addr, src, written);
        EndIsBoundary(s, addr, k);
      }
      hide ValidView;
      WordsAt(log);
      var ok := WriteRegion(fr.owner, regionOffset, src[written..written + l]);
      assert ok;
      if log.active {
        AllChunkMarks(s, log, words, mid, k, addr, start, l);
      }
    }

    /** Write `src` from `addr` on; `written` tells how far it got.  Marking a
        chunk dirty and copying it count as one step. */
    method Write(s: seq<FlatRange>, src: seq<Byte>, addr: nat) returns (r: Access, written: nat)
      requires Backed(s, |host|) && log.Valid()
      modifies this, log.bitmaps
      ensures log.Valid() && |host| == |old(host)|
      ensures r == Done <==> RamMapped(s, addr, addr + Max(|src|, 1))
      ensures written <= |src| && (r == Done ==> written == |src|)
      ensures RamMapped(s, addr, addr + written)
      ensures r != Done ==> Translate(s, addr + written).None? && (r == Unmapped <==> At(s, addr + written).None?)
      ensures host == Stored(s, old(host), addr, src[..written])
      ensures log.active ==> AllMarked(s, log.bitmaps, old(WordsOf(log)), WordsOf(log), addr, addr + written)
    {
      hide AllMarked, WordsOf, MarkedBy, Backed, RamMapped, FindFlatRange, Progress, Splice, Boundary, ValidView;
      hide Translate, At;
      var len: nat, l: nat, start := |src|, |src|, addr;
      written := 0;
      WriteStart(s, host, addr, src, log);
      while true
        invariant log.Valid() && |host| == |old(host)|
        invariant written + len == |src| && l == len && start == addr + written
        invariant |src| > 0 ==> len > 0
        invariant Progress(s, old(host), host, addr, src, written) && Boundary(s, addr, start)
        invariant log.active ==> AllMarked(s, log.bitmaps, old(WordsOf(log)), WordsOf(log), addr, start)
        decreases len
      {
        BackedFind(s, |host|, start);
        var found := FindFlatRange(s, start);
        if found.None? {
          StopsHere(s, old(host), host, addr, src, written);
          return Unmapped, written;
        }
        var fr := found.value;
        var frOffset := OffsetFrom(start, fr.range.base);
        var regionOffset := fr.offsetInRegion + frOffset;
        var frRemain := fr.range.size - frOffset;
        if !IsRam(fr.owner.kind) {
          StopsHere(s, old(host), host, addr, src, written);
          return ToDevice, written;
        }
        l := Min(l, frRemain);
        WriteChunk(s, src, addr, written, l, fr, regionOffset, old(host), old(WordsOf(log)));
        written := written + l;
        len := len - l;
        if len == 0 {
          ProgressView(s, old(host), host, addr, src, written);
          return Done, written;
        }
        start := start + l;
        l := len;
      }
    }
  }

  /** A store changes no host byte that no address translates to. */
  lemma {:induction false} StoredElsewhere(s: seq<FlatRange>, host: seq<Byte>, addr: int, data: seq<Byte>, h: nat)
    requires Backed(s, |host|) && RamMapped(s, addr, addr + |data|) && h < |host|
    requires forall a: int :: addr <= a < addr + |data| ==> Translate(s, a) != Some(h)
    ensures Stored(s, host, addr, data)[h] == host[h]
    decreases |data|
  {
    if data != [] {
      StoredElsewhere(s, host, addr, data[..|data| - 1], h);
      TranslateInHost(s, |host|, addr + |data| - 1);
    }
  }

  /** After a store, a host byte holds the data of the last address that translates to it. */
  lemma {:induction false} StoredAt(s: seq<FlatRange>, host: seq<Byte>, addr: int, data: seq<Byte>, b: int, h: nat)
    requires Backed(s, |host|) && RamMapped(s, addr, addr + |data|) && h < |host|
    requires addr <= b < addr + |data| && LastTo(s, addr + |data|, b, h)
    ensures Stored(s, host, addr, data)[h] == data[b - addr]
    decreases |data|
  {
    var n := |data| - 1;
    TranslateInHost(s, |host|, addr + n);
    if b < addr + n {
      assert Translate(s, addr + n) != Some(h);
      StoredAt(s, host, addr, data[..n], b, h);
    }
  }

  /** `b` translates to `h` and no later address below `hi` does. */
  ghost predicate LastTo(s: seq<FlatRange>, hi: int, b: int, h: nat) {
    Translate(s, b) == Some(h) && forall a: int :: b < a < hi ==> Translate(s, a) != Some(h)
  }

  lemma {:induction false} FindLast(s: seq<FlatRange>, hi: int, a: int, h: nat) returns (b: int)
    requires a < hi && Translate(s, a) == Some(h)
    ensures a <= b < hi && LastTo(s, hi, b, h)
    decreases hi - a
  {
    if later: int :| a < later < hi && Translate(s, later) == Some(h) {
      b := FindLast(s, hi, later, h);
    } else {
      b := a;
    }
  }

  /** Addresses that share a host byte are given the same data. */
  ghost predicate Consistent(s: seq<FlatRange>, addr: int, data: seq<Byte>) {
    forall a: int, b: int :: addr <= a < b < addr + |data| && Translate(s, a) == Translate(s, b) ==>
      data[a - addr] == data[b - addr]
  }

  /** Reading back what was written gives the data exactly when aliased addresses
      were given the same data, in particular when nothing is aliased. */
  lemma {:induction false} ReadAfterWrite(s: seq<FlatRange>, host: seq<Byte>, addr: int, data: seq<Byte>)
    requires Backed(s, |host|) && RamMapped(s, addr, addr + |data|)
    ensures Shows(s, Stored(s, host, addr, data), addr, data) <==> Consistent(s, addr, data)
  {
    var after := Stored(s, host, addr, data);
    if Consistent(s, addr, data) {
      forall a: int | addr <= a < addr + |data|
        ensures Translate(s, a).value < |after| && data[a - addr] == after[Translate(s, a).value]
      {
        TranslateInHost(s, |host|, a);
        var h := Translate(s, a).value;
        var b := FindLast(s, addr + |data|, a, h);
        StoredAt(s, host, addr, data, b, h);
      }
    }
  }

  predicate HostBacked(k: Kind) {
    !k.Io?
  }

  /** The host address behind `a`, RAM or ROM. */
  function GetHostAddress(s: seq<FlatRange>, a: int): Option<nat>
    requires ValidView(s) && NoEmptyRange(s)
  {
    FindFlatRangeExact(s, a);
    match FindFlatRange(s, a)
    case None => None
    case Some(fr) =>
      if HostBacked(fr.owner.kind) then Some(fr.owner.kind.host + fr.offsetInRegion + (a - fr.range.base)) else None
  }

  /** The host address behind `a` and how much follows it in the same range. */
  function AddrCacheInit(s: seq<FlatRange>, a: int): Option<(nat, nat)>
    requires ValidView(s) && NoEmptyRange(s)
  {
    FindFlatRangeExact(s, a);
    match FindFlatRange(s, a)
    case None => None
    case Some(fr) =>
      var frOffset := a - fr.range.base;
      var regionOffset := fr.offsetInRegion + frOffset;
      var regionRemain := fr.owner.size - regionOffset;
      var frRemain := fr.range.size - frOffset;
      if HostBacked(fr.owner.kind) then Some((fr.owner.kind.host + regionOffset, Min(frRemain, regionRemain))) else None
  }

  /** The host address is that of the byte which the view shows there, for every kind of
      region but IO; for RAM it is where reads and writes go. */
  lemma {:induction false} HostAddressExact(s: seq<FlatRange>, a: int)
    requires ValidView(s) && NoEmptyRange(s)
    ensures GetHostAddress(s, a) ==
            match At(s, a)
            case None => None
            case Some(hit) =>
              if hit.owner.Terminate? && !hit.owner.kind.Io? then Some(hit.owner.kind.host + hit.offset) else None
    ensures Translate(s, a) ==
            match At(s, a)
            case None => None
            case Some(hit) =>
              if hit.owner.Terminate? && (hit.owner.kind.Ram? || hit.owner.kind.RamDevice?) then GetHostAddress(s, a)
              else None
  {
    FindFlatRangeExact(s, a);
  }

  /** What a read takes from a ROM is what the view shows, as far as the ROM's flat range reaches. */
  lemma {:induction false} RomReadShown(s: seq<FlatRange>, fr: FlatRange, a: nat, b: nat)
    requires ValidView(s) && NoEmptyRange(s) && RomAt(s, a) && a <= b && fr in s
    requires fr.range.Contains(a) && fr.range.Contains(b)
    ensures GetHostAddress(s, b) == Some(At(s, a).value.owner.kind.host + At(s, a).value.offset + (b - a))
  {
    hide GetHostAddress;
    var k :| 0 <= k < |s| && s[k] == fr;
    AtIndex(s, k, a);
    AtIndex(s, k, b);
    HostAddressExact(s, b);
  }

  /** Beyond it a read goes on in the ROM, whatever the view shows there: here at address 2,
      which shows the first byte of some RAM, it takes the ROM's third byte. */
  lemma {:induction false} RomReadHidden()
    ensures var rom, ram := Terminate(0, 0, 4, 0, RomDevice(0, true)), Terminate(1, 2, 2, 0, Ram(100));
            var s := [FlatRange(AddressRange(0, 2), rom, 0), FlatRange(AddressRange(2, 2), ram, 0)];
            ValidView(s) && NoEmptyRange(s) && RomAfter(s, 0, 4, 0) && GetHostAddress(s, 2) == Some(100)
  {
    var rom, ram := Terminate(0, 0, 4, 0, RomDevice(0, true)), Terminate(1, 2, 2, 0, Ram(100));
    var s := [FlatRange(AddressRange(0, 2), rom, 0), FlatRange(AddressRange(2, 2), ram, 0)];
    AtIndex(s, 0, 0);
    AtIndex(s, 1, 2);
    HostAddressExact(s, 2);
  }

  datatype RegionCache = RegionCache(kind: Kind, hostBase: nat, start: nat, end: nat)

  function GetRegionCache(s: seq<FlatRange>, a: int): Option<RegionCache>
    requires ValidView(s) && NoEmptyRange(s)
  {
    FindFlatRangeExact(s, a);
    match FindFlatRange(s, a)
    case None => None
    case Some(fr) =>
      var hostBase := match GetHostAddress(s, fr.range.base) case Some(h) => h case None => 0;
      Some(RegionCache(fr.owner.kind, hostBase, fr.range.base, fr.range.End()))
  }

  function GetHostAddressFromCache(s: seq<FlatRange>, a: int, cache: Option<RegionCache>): Option<(nat, nat)>
    requires ValidView(s) && NoEmptyRange(s)
  {
    if cache.Some? && cache.value.start <= a < cache.value.end then
      Some((cache.value.hostBase + a - cache.value.start, cache.value.end - a))
    else
      AddrCacheInit(s, a)
  }

  /** In a proper view an address lies in one range only. */
  lemma {:induction false} OneRange(s: seq<FlatRange>, x: FlatRange, y: FlatRange, a: int)
    requires ValidView(s) && x in s && y in s && x.range.Contains(a) && y.range.Contains(a)
    ensures x == y
  {
    var i :| 0 <= i < |s| && s[i] == x;
    var j :| 0 <= j < |s| && s[j] == y;
    assert i == j;
  }

  /** A region cache describes the whole range of the address it was taken for, and
      answers every address as the uncached lookup does exactly when that range is
      backed by host memory. */
  lemma {:induction false} CacheAgrees(s: seq<FlatRange>, a0: int)
    requires ValidView(s) && NoEmptyRange(s)
    ensures match GetRegionCache(s, a0)
            case None => forall a: int :: GetHostAddressFromCache(s, a, None) == AddrCacheInit(s, a)
            case Some(cache) =>
              && (exists fr :: fr in s && fr.range.Contains(a0) && fr.owner.kind == cache.kind &&
                    cache.start == fr.range.base && cache.end == fr.range.End())
              && ((forall a: int :: GetHostAddressFromCache(s, a, Some(cache)) == AddrCacheInit(s, a)) <==>
                  !cache.kind.Io?)
  {
    FindFlatRangeExact(s, a0);
    if GetRegionCache(s, a0).Some? {
      var cache, fr := GetRegionCache(s, a0).value, FindFlatRange(s, a0).value;
      forall a: int | fr.range.Contains(a)
        ensures FindFlatRange(s, a) == Some(fr)
      {
        var k :| 0 <= k < |s| && s[k] == fr;
        AtIndex(s, k, a);
        FindFlatRangeExact(s, a);
        OneRange(s, fr, FindFlatRange(s, a).value, a);
      }
      assert FindFlatRange(s, fr.range.base) == Some(fr);
      if !HostBacked(cache.kind) {
        assert GetHostAddressFromCache(s, a0, Some(cache)) != AddrCacheInit(s, a0);
      }
    }
  }

  datatype Iovec = Iovec(base: nat, len: nat)

  /** The host addresses that a list of iovecs names, in order. */
  function Named(iovs: seq<Iovec>): seq<nat> {
    if iovs == [] then []
    else Named(iovs[..|iovs| - 1]) + seq(iovs[|iovs| - 1].len, k requires k >= 0 => iovs[|iovs| - 1].base + k)
  }

  ghost predicate NamesGuest(s: seq<FlatRange>, lo: int, hosts: seq<nat>)
    requires ValidView(s) && NoEmptyRange(s)
  {
    forall a: int :: lo <= a < lo + |hosts| ==> GetHostAddress(s, a) == Some(hosts[a - lo])
  }

  /** The cache entry of `a` describes the following addresses, too, up to the end of the range. */
  lemma {:induction false} CacheCovers(s: seq<FlatRange>, a: int)
    requires ValidView(s) && NoEmptyRange(s)
    ensures AddrCacheInit(s, a).Some? <==> GetHostAddress(s, a).Some?
    ensures AddrCacheInit(s, a).Some? ==>
              var (h, n) := AddrCacheInit(s, a).value;
              && n > 0 && (forall b: int :: a <= b < a + n ==> GetHostAddress(s, b) == Some(h + (b - a)))
              && exists fr :: fr in s && fr.range.Contains(a) && fr.range.End() == a + n
  {
    FindFlatRangeExact(s, a);
    if AddrCacheInit(s, a).Some? {
      var fr, n := FindFlatRange(s, a).value, AddrCacheInit(s, a).value.1;
      forall b: int | a <= b < a + n ensures FindFlatRange(s, b) == Some(fr) {
        var k :| 0 <= k < |s| && s[k] == fr;
        AtIndex(s, k, b);
        FindFlatRangeExact(s, b);
        OneRange(s, fr, FindFlatRange(s, b).value, b);
      }
    }
  }

  lemma {:induction false} NamedAppend(s: seq<FlatRange>, lo: int, iovs: seq<Iovec>, v: Iovec)
    requires ValidView(s) && NoEmptyRange(s) && NamesGuest(s, lo, Named(iovs))
    requires forall b: int :: lo + |Named(iovs)| <= b < lo + |Named(iovs)| + v.len ==>
               GetHostAddress(s, b) == Some(v.base + (b - (lo + |Named(iovs)|)))
    ensures |Named(iovs + [v])| == |Named(iovs)| + v.len && NamesGuest(s, lo, Named(iovs + [v]))
  {
    assert (iovs + [v])[..|iovs|] == iovs;
    var more := seq(v.len, k requires k >= 0 => v.base + k);
    assert Named(iovs + [v]) == Named(iovs) + more;
  }

  /** The host buffers behind [addr, addr + count): they name exactly the host
      addresses of the interval, in order.  Fails exactly when one has none. */
  method GetAddressMap(s: seq<FlatRange>, addr: nat, count: nat) returns (r: Option<seq<Iovec>>)
    requires ValidView(s) && NoEmptyRange(s)
    ensures r.Some? <==> forall a: int :: addr <= a < addr + Max(count, 1) ==> GetHostAddress(s, a).Some?
    ensures r.Some? ==> |Named(r.value)| == count && NamesGuest(s, addr, Named(r.value))
  {
    hide GetHostAddress, AddrCacheInit, Named, ValidView, NoEmptyRange;
    var len: nat, start := count, addr;
    var iovs: seq<Iovec> := [];
    assert Named(iovs) == [] by { NamedNothing(); }
    while true
      invariant |Named(iovs)| + len == count && start == addr + |Named(iovs)|
      invariant NamesGuest(s, addr, Named(iovs))
      invariant count > 0 ==> len > 0
      decreases len
    {
      CacheCovers(s, start);
      var found := AddrCacheInit(s, start);
      if found.None? {
        assert GetHostAddress(s, start).None?;
        return None;
      }
      var v := Iovec(found.value.0, Min(len, found.value.1));
      NamedAppend(s, addr, iovs, v);
      start := start + v.len;
      len := len - v.len;
      iovs := iovs + [v];
      if len == 0 {
        break;
      }
    }
    return Some(iovs);
  }

  lemma {:induction false} NamedNothing()
    ensures Named([]) == []
  {
  }

  /** The host bytes that the buffers of an interval of RAM name are the bytes that reading
      the interval returns. */
  lemma {:induction false} BuffersAreRead(s: seq<FlatRange>, host: seq<Byte>, addr: nat, iovs: seq<Iovec>,
                                          dst: seq<Byte>)
    requires Backed(s, |host|) && RamMapped(s, addr, addr + |dst|) && Shows(s, host, addr, dst)
    requires |Named(iovs)| == |dst| && NamesGuest(s, addr, Named(iovs))
    ensures forall i :: 0 <= i < |dst| ==> Named(iovs)[i] < |host| && dst[i] == host[Named(iovs)[i]]
  {
    hide Named, At, GetHostAddress, Translate;
    forall i | 0 <= i < |dst| ensures Named(iovs)[i] < |host| && dst[i] == host[Named(iovs)[i]] {
      HostAddressExact(s, addr + i);
      assert GetHostAddress(s, addr + i) == Some(Named(iovs)[addr + i - addr]);
      assert dst[addr + i - addr] == host[Translate(s, addr + i).value];
    }
  }

  // ---- What the memory slots give the guest ----

  /** Host memory that the guest reaches without the VMM. */
  predicate Direct(k: Kind) {
    k.Ram? || k.RamDevice? || (k.RomDevice? && k.romd)
  }

  /** The whole page of `a` lies in a range of host memory that the guest may reach. */
  ghost predicate InDirectPage(s: seq<FlatRange>, a: nat, page: nat)
    requires page > 0
  {
    exists fr :: fr in s && DirectPage(fr, a / page, page)
  }

  predicate DirectPage(fr: FlatRange, p: nat, page: nat) {
    fr.owner.Terminate? && Direct(fr.owner.kind) && fr.range.base <= p * page && p * page + page <= fr.range.End()
  }

  /** A range of whole pages holds the whole page of each of its addresses. */
  lemma {:induction false} WholePageOf(r: AddressRange, a: nat, page: nat)
    requires page > 0 && r.base % page == 0 && r.size % page == 0
    ensures r.Contains(a) <==> r.base <= a / page * page && a / page * page + page <= r.End()
  {
    var b, e, p := r.base / page, r.base / page + r.size / page, a / page;
    Multiples(r, page);
    FloorExact(a, b, page);
    FloorExact(a, e, page);
    MulOrder(b, p, page);
    MulOrder(p + 1, e, page);
    assert (p + 1) * page == p * page + page;
  }

  lemma {:induction false} Multiples(r: AddressRange, page: nat)
    requires page > 0 && r.base % page == 0 && r.size % page == 0
    ensures r.base == r.base / page * page && r.End() == (r.base / page + r.size / page) * page
  {
    assert r.base == r.base / page * page && r.size == r.size / page * page;
  }

  /** What the slot of a flat range maps: the addresses whose whole page lies in the range,
      each to the host byte that the range shows there. */
  lemma {:induction false} MappingShows(s: seq<FlatRange>, fr: FlatRange, a: nat, page: nat)
    requires page > 0 && ValidView(s) && NoEmptyRange(s) && fr in s
    ensures match KvmSlots.MappingOf(fr, page)
            case None => !DirectPage(fr, a / page, page)
            case Some(m) =>
              && (m.range.Contains(a) <==> DirectPage(fr, a / page, page))
              && (m.range.Contains(a) ==> GetHostAddress(s, a) == Some(m.hostAddr + (a - m.range.base)))
  {
    hide GetHostAddress, KvmSlots.AlignMemSlot, At;
    KvmSlots.AlignKeepsWholePages(fr.range, page, a / page);
    if KvmSlots.MappingOf(fr, page).Some? {
      var m := KvmSlots.MappingOf(fr, page).value;
      WholePageOf(m.range, a, page);
      if m.range.Contains(a) {
        var k :| 0 <= k < |s| && s[k] == fr;
        AtIndex(s, k, a);
        HostAddressExact(s, a);
      }
    }
  }

  /** Slot `i` is live and holds guest address `a`. */
  ghost predicate SlotHolds(slots: seq<KvmSlots.MemSlot>, i: nat, a: nat) {
    i < |slots| && slots[i].Live() && slots[i].Range().Contains(a)
  }

  /** Where the slots mirror a view, the guest reaches through them exactly the addresses
      whose whole page lies in a range of RAM, device RAM or readable ROM, and at each
      of them the very byte of host memory that the view shows there. */
  lemma {:induction false} SlotsTranslate(slots: seq<KvmSlots.MemSlot>, s: seq<FlatRange>, a: nat, page: nat)
    requires page > 0 && Topology.Proper(s) && KvmSlots.TerminateOwners(Topology.ToSet(s))
    requires KvmSlots.Mirrors(slots, Topology.ToSet(s), page)
    ensures (exists i: nat :: SlotHolds(slots, i, a)) <==> InDirectPage(s, a, page)
    ensures forall i: nat :: SlotHolds(slots, i, a) ==>
              GetHostAddress(s, a) == Some(slots[i].hostAddr + (a - slots[i].guestAddr))
  {
    hide GetHostAddress, DirectPage, KvmSlots.MappingOf;
    forall i: nat | SlotHolds(slots, i, a)
      ensures GetHostAddress(s, a) == Some(slots[i].hostAddr + (a - slots[i].guestAddr)) && InDirectPage(s, a, page)
    {
      var m := KvmSlots.Mapping(slots[i].Range(), slots[i].hostAddr);
      assert KvmSlots.Maps(slots, i, m) && KvmSlots.Mapped(slots, m);
      var fr :| fr in Topology.ToSet(s) && KvmSlots.MappingOf(fr, page) == Some(m);
      MappingShows(s, fr, a, page);
    }
    if InDirectPage(s, a, page) {
      var fr :| fr in s && DirectPage(fr, a / page, page);
      MappingShows(s, fr, a, page);
      var m := KvmSlots.MappingOf(fr, page).value;
      assert KvmSlots.Wanted(Topology.ToSet(s), m, page);
      var i: nat :| KvmSlots.Maps(slots, i, m);
      assert SlotHolds(slots, i, a);
    }
  }
}