/** The VMM's own dirty bitmaps: one per memory slot, marked by every write that
  goes through host addresses, fetched and cleared together with KVM's log. */
module DirtyLog {
  import opened Addresses
  import opened Arithmetic
  import opened DirtyBlocks

  function NoBits(): Word {
    seq(64, _ => false)
  }

  /** The bitmap with bit `n` set. */
  function SetBit(words: seq<Word>, n: nat): seq<Word>
    requires n < 64 * |words|
  {
    words[n / 64 := words[n / 64][n % 64 := true]]
  }

  lemma {:induction false} SetBitDirty(words: seq<Word>, n: nat, m: int)
    requires n < 64 * |words|
    ensures Dirty(SetBit(words, n), m) <==> Dirty(words, m) || m == n
  {
    if 0 <= m < 64 * |words| {
      assert SetBit(words, n)[m / 64] == if m / 64 == n / 64 then words[n / 64][n % 64 := true] else words[m / 64];
      assert m == 64 * (m / 64) + m % 64 && n == 64 * (n / 64) + n % 64;
    }
  }

  /** `now` is `was` with exactly the pages [lo, hi) marked as well. */
  ghost predicate Marked(was: seq<Word>, now: seq<Word>, lo: int, hi: int) {
    && |now| == |was|
    && forall n: int :: Dirty(now, n) <==> Dirty(was, n) || lo <= n < hi
  }

  lemma {:induction false} MarkNone(words: seq<Word>, lo: int, hi: int)
    requires hi <= lo
    ensures Marked(words, words, lo, hi)
  {
  }

  lemma {:induction false} MarkOne(was: seq<Word>, now: seq<Word>, lo: int, n: nat)
    requires Marked(was, now, lo, n) && lo <= n < 64 * |was|
    ensures Marked(was, SetBit(now, n), lo, n + 1)
  {
    forall m: int ensures Dirty(SetBit(now, n), m) <==> Dirty(was, m) || lo <= m < n + 1 {
      SetBitDirty(now, n, m);
    }
  }

  /** Every page of a slot of `len` bytes has its bit. */
  ghost predicate HasBits(words: seq<Word>, len: nat, pageSize: nat) {
    pageSize > 0 && forall n: nat :: n * pageSize < len ==> n < 64 * |words|
  }

  /** The page of a byte of the slot. */
  function PageOf(offset: nat, pageSize: nat): nat
    requires pageSize > 0
  {
    DivBound(offset, pageSize);
    offset / pageSize
  }

  /** Every page that [offset, offset + len) touches has its bit. */
  lemma {:induction false} TouchedHaveBits(words: seq<Word>, slotLen: nat, pageSize: nat, offset: nat, len: nat)
    requires HasBits(words, slotLen, pageSize) && len > 0 && offset + len <= slotLen
    ensures PageOf(offset, pageSize) <= PageOf(offset + len - 1, pageSize) < 64 * |words|
    ensures PageOf(offset + len - 1, pageSize) < slotLen
  {
    var last := offset + len - 1;
    var n := last / pageSize;
    DivBound(last, pageSize);
    DivMonotone(offset, last, pageSize);
    assert n * pageSize <= last;
  }

  lemma {:induction false} SameBits(was: seq<Word>, now: seq<Word>, len: nat, pageSize: nat)
    requires HasBits(was, len, pageSize) && |now| == |was|
    ensures HasBits(now, len, pageSize)
  {
  }

  class DirtyBitmap {
    const gpa: nat
    const hva: nat
    const len: nat
    const pageSize: nat
    var words: seq<Word>

    /** Every page of the slot has its bit. */
    ghost predicate Valid()
      reads this
    {
      HasBits(words, len, pageSize)
    }

    constructor (gpa: nat, hva: nat, len: nat, pageSize: nat)
      requires pageSize > 0
      ensures Valid()
      ensures this.gpa == gpa && this.hva == hva && this.len == len && this.pageSize == pageSize
      ensures forall n: int :: !Dirty(words, n)
    {
      this.gpa, this.hva, this.len, this.pageSize := gpa, hva, len, pageSize;
      var numPages := len / pageSize;
      if len % pageSize > 0 {
        numPages := numPages + 1;
      }
      var size := numPages / 64 + 1;
      words := seq(size, _ => NoBits());
      forall n: nat | n * pageSize < len ensures n < 64 * size {
        PageBound(n, len, pageSize);
      }
    }

    /** Mark the pages that [addr, addr + len) touches, and no others.  The source
        panics on an index beyond the bitmap; the caller's check rules it out. */
    method MarkBitmap(addr: nat, len: nat)
      requires Valid() && gpa <= addr && addr + len <= gpa + this.len
      modifies this
      ensures Valid()
      ensures if len == 0 then words == old(words)
              else Marked(old(words), words, PageOf(addr - gpa, pageSize), PageOf(addr - gpa + len - 1, pageSize) + 1)
    {
      if len == 0 {
        return;
      }
      hide Marked, SetBit, HasBits, PageOf;
      var offset := addr - gpa;
      var firstBit := PageOf(offset, pageSize);
      var lastBit := PageOf(offset + len - 1, pageSize);
      TouchedHaveBits(words, this.len, pageSize, offset, len);
      MarkNone(words, firstBit, firstBit);
      var n := firstBit;
      while n <= lastBit
        invariant firstBit <= n <= lastBit + 1
        invariant |words| == |old(words)|
        invariant Marked(old(words), words, firstBit, n)
      {
        if n >= this.len {
          break;
        }
        MarkOne(old(words), words, firstBit, n);
        words := SetBit(words, n);
        n := n + 1;
      }
      SameBits(old(words), words, this.len, pageSize);
    }

    /** Fetch the bitmap and clear it. */
    method GetAndClearDirty() returns (was: seq<Word>)
      modifies this
      ensures was == old(words)
      ensures |words| == |old(words)| && forall n: int :: !Dirty(words, n)
    {
      was := words;
      words := seq(|words|, _ => NoBits());
    }
  }

  lemma {:induction false} PageBound(n: nat, len: nat, pageSize: nat)
    requires pageSize > 0 && n * pageSize < len
    ensures n < len / pageSize + (if len % pageSize > 0 then 1 else 0)
  {
    var q := len / pageSize;
    assert len == q * pageSize + len % pageSize;
    if n > q {
      MulMonotone(q + 1, n, pageSize);
    }
  }

  lemma {:induction false} DivMonotone(a: nat, b: nat, d: nat)
    requires d > 0 && a <= b
    ensures a / d <= b / d
  {
    if a / d > b / d {
      MulMonotone(b / d + 1, a / d, d);
    }
  }

  /** The host range [addr, addr + len) lies inside the slot of `b`. */
  predicate Holds(b: DirtyBitmap, addr: nat, len: nat) {
    b.hva <= addr && addr + len <= b.hva + b.len
  }

  /** The bitmap marks, besides what it did, the pages of the host range it holds. */
  ghost predicate MarkedBy(was: seq<Word>, b: DirtyBitmap, addr: nat, len: nat)
    requires b.pageSize > 0
    reads b
  {
    if len > 0 && Holds(b, addr, len) then
      Marked(was, b.words, (addr - b.hva) / b.pageSize, (addr - b.hva + len - 1) / b.pageSize + 1)
    else
      b.words == was
  }

  class VmmDirtyLog {
    /** Whether the migration status is Active. */
    var active: bool
    var bitmaps: seq<DirtyBitmap>

    ghost predicate Valid()
      reads this, bitmaps
    {
      && (forall i, j :: 0 <= i < j < |bitmaps| ==> bitmaps[i] != bitmaps[j])
      && (forall i :: 0 <= i < |bitmaps| ==> bitmaps[i].Valid())
    }

    constructor ()
      ensures Valid() && !active && bitmaps == []
    {
      active, bitmaps := false, [];
    }

    /** Record a write to the host range [addr, addr + len): while migration is
        active every bitmap whose slot holds the whole range gets exactly the
        touched pages marked. */
    method MarkDirtyLog(addr: nat, len: nat)
      requires Valid()
      modifies bitmaps
      ensures Valid()
      ensures forall i :: 0 <= i < |bitmaps| ==>
                if active then MarkedBy(old(bitmaps[i].words), bitmaps[i], addr, len)
                else bitmaps[i].words == old(bitmaps[i].words)
    {
      if !active {
        return;
      }
      var k := 0;
      while k < |bitmaps|
        invariant 0 <= k <= |bitmaps|
        invariant Valid()
        invariant forall i :: 0 <= i < k ==> MarkedBy(old(bitmaps[i].words), bitmaps[i], addr, len)
        invariant forall i :: k <= i < |bitmaps| ==> bitmaps[i].words == old(bitmaps[i].words)
      {
        var b := bitmaps[k];
        if addr >= b.hva && addr + len <= b.hva + b.len {
          b.MarkBitmap(addr - b.hva + b.gpa, len);
        }
        k := k + 1;
      }
    }

    /** Collect the dirty pages of the slot at `gpa`: fetch and clear every VMM
        bitmap of the slot, merge the last one fetched with KVM's bitmap.  Without
        a VMM bitmap for the slot the merge is empty. */
    method GetDirtyLog(gpa: nat, size: nat, kvm: seq<Word>) returns (merged: seq<Word>)
      requires Valid()
      modifies bitmaps
      ensures Valid()
      ensures forall i :: 0 <= i < |bitmaps| ==> ClearedFor(old(bitmaps[i].words), bitmaps[i], gpa, size)
      ensures (forall i :: 0 <= i < |bitmaps| ==> !IsOf(bitmaps[i], gpa, size)) ==> merged == []
      ensures forall i :: 0 <= i < |bitmaps| && LastOf(bitmaps, i, gpa, size) ==>
                IsMerge(merged, kvm, old(bitmaps[i].words))
    {
      hide Dirty, IsMerge, Merge, ClearedFor, LastBelow, LastOf;
      var vmm: seq<Word> := [];
      ghost var last := -1;
      var k := 0;
      NoneYet(bitmaps, gpa, size);
      while k < |bitmaps|
        invariant 0 <= k <= |bitmaps|
        invariant Valid()
        invariant forall i :: 0 <= i < k ==> ClearedFor(old(bitmaps[i].words), bitmaps[i], gpa, size)
        invariant forall i :: k <= i < |bitmaps| ==> bitmaps[i].words == old(bitmaps[i].words)
        invariant -1 <= last < k && LastBelow(bitmaps, last, k, gpa, size)
        invariant vmm == if last >= 0 then old(bitmaps[last].words) else []
      {
        if bitmaps[k].gpa == gpa && bitmaps[k].len == size {
          vmm := bitmaps[k].GetAndClearDirty();
          LastIsThis(bitmaps, last, k, gpa, size);
          last := k;
        } else {
          LastIsBefore(bitmaps, last, k, gpa, size);
        }
        ClearedOne(old(bitmaps[k].words), bitmaps[k], gpa, size);
        k := k + 1;
      }
      LastAtEnd(bitmaps, last, gpa, size);
      merged := Merge(kvm, vmm);
      MergeIsMerge(kvm, vmm);
      MergeNothing(kvm);
    }
  }

  /** `b` is the bitmap of the slot. */
  predicate IsOf(b: DirtyBitmap, gpa: nat, size: nat) {
    b.gpa == gpa && b.len == size
  }

  /** The bitmaps of the slot are cleared, the others left alone. */
  ghost predicate ClearedFor(was: seq<Word>, b: DirtyBitmap, gpa: nat, size: nat)
    reads b
  {
    if IsOf(b, gpa, size) then forall n: int :: !Dirty(b.words, n) else b.words == was
  }

  lemma {:induction false} ClearedOne(was: seq<Word>, b: DirtyBitmap, gpa: nat, size: nat)
    requires if IsOf(b, gpa, size) then forall n: int :: !Dirty(b.words, n) else b.words == was
    ensures ClearedFor(was, b, gpa, size)
  {
  }

  /** `last` is the last bitmap of the slot among the first `k`, or -1. */
  ghost predicate LastBelow(bitmaps: seq<DirtyBitmap>, last: int, k: nat, gpa: nat, size: nat) {
    && k <= |bitmaps| && -1 <= last < k && (last >= 0 ==> IsOf(bitmaps[last], gpa, size))
    && forall i :: last < i < k ==> !IsOf(bitmaps[i], gpa, size)
  }

  lemma {:induction false} NoneYet(bitmaps: seq<DirtyBitmap>, gpa: nat, size: nat)
    ensures LastBelow(bitmaps, -1, 0, gpa, size)
  {
  }

  lemma {:induction false} LastIsThis(bitmaps: seq<DirtyBitmap>, last: int, k: nat, gpa: nat, size: nat)
    requires LastBelow(bitmaps, last, k, gpa, size) && k < |bitmaps| && IsOf(bitmaps[k], gpa, size)
    ensures LastBelow(bitmaps, k, k + 1, gpa, size)
  {
  }

  lemma {:induction false} LastIsBefore(bitmaps: seq<DirtyBitmap>, last: int, k: nat, gpa: nat, size: nat)
    requires LastBelow(bitmaps, last, k, gpa, size) && k < |bitmaps| && !IsOf(bitmaps[k], gpa, size)
    ensures LastBelow(bitmaps, last, k + 1, gpa, size)
  {
  }

  lemma {:induction false} LastAtEnd(bitmaps: seq<DirtyBitmap>, last: int, gpa: nat, size: nat)
    requires LastBelow(bitmaps, last, |bitmaps|, gpa, size)
    ensures forall i: nat :: LastOf(bitmaps, i, gpa, size) ==> i == last
    ensures (forall i :: 0 <= i < |bitmaps| ==> !IsOf(bitmaps[i], gpa, size)) ==> last == -1
  {
  }

  ghost predicate IsMerge(merged: seq<Word>, xs: seq<Word>, ys: seq<Word>) {
    forall n: int :: Dirty(merged, n) <==> n < 64 * |xs| && n < 64 * |ys| && (Dirty(xs, n) || Dirty(ys, n))
  }

  /** `i` is the last bitmap of the slot. */
  ghost predicate LastOf(bitmaps: seq<DirtyBitmap>, i: nat, gpa: nat, size: nat) {
    && i < |bitmaps| && IsOf(bitmaps[i], gpa, size)
    && forall j :: i < j < |bitmaps| ==> !IsOf(bitmaps[j], gpa, size)
  }

  function OrWord(x: Word, y: Word): Word {
    seq(64, b requires 0 <= b < 64 => x[b] || y[b])
  }

  /** Pairwise `or` of two bitmaps, as long as the shorter one. */
  function Merge(xs: seq<Word>, ys: seq<Word>): seq<Word> {
    seq(Min(|xs|, |ys|), i requires 0 <= i < |xs| && i < |ys| => OrWord(xs[i], ys[i]))
  }

  lemma {:induction false} MergeNothing(xs: seq<Word>)
    ensures Merge(xs, []) == []
  {
  }

  lemma {:induction false} MergeIsMerge(xs: seq<Word>, ys: seq<Word>)
    ensures IsMerge(Merge(xs, ys), xs, ys)
  {
    forall n: int
      ensures Dirty(Merge(xs, ys), n) <==> n < 64 * |xs| && n < 64 * |ys| && (Dirty(xs, n) || Dirty(ys, n))
    {
      if 0 <= n < 64 * Min(|xs|, |ys|) {
        assert n / 64 < Min(|xs|, |ys|);
        assert Merge(xs, ys)[n / 64] == OrWord(xs[n / 64], ys[n / 64]);
      }
    }
  }
}
