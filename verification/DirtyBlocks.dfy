/** From a dirty bitmap to the memory blocks to send.

  The scan walks the words of the bitmap and skips a word without any dirty page
  without closing the block it has open.  The results below say exactly what
  that does: the blocks are the maximal runs of dirty pages if and only if no
  skew occurs, where a skew is a word with its last page dirty, then one or more
  clean words, then a word with its first page dirty. */
module DirtyBlocks {
  import opened Addresses
  import opened Arithmetic

  /** A 64-bit word of a bitmap as its bits, least significant first. */
  type Word = w: seq<bool> | |w| == 64 witness seq(64, _ => false)

  predicate Clean(w: Word) {
    forall b :: 0 <= b < 64 ==> !w[b]
  }

  predicate Bit(words: seq<Word>, n: int)
    requires 0 <= n < 64 * |words|
  {
    words[n / 64][n % 64]
  }

  /** Page `n` is dirty. */
  predicate Dirty(words: seq<Word>, n: int) {
    0 <= n < 64 * |words| && Bit(words, n)
  }

  /** Number of dirty pages below `n`. */
  function DirtyBelow(words: seq<Word>, n: nat): nat {
    if n == 0 then 0 else DirtyBelow(words, n - 1) + (if Dirty(words, n - 1) then 1 else 0)
  }

  /** A run of pages. */
  datatype Run = Run(start: nat, count: nat) {
    function End(): nat {
      start + count
    }
  }

  datatype MemBlock = MemBlock(gpa: nat, len: nat)

  /** The block of guest memory that a run of a slot at `addr` stands for. */
  function BlockOf(r: Run, addr: nat, pageSize: nat): MemBlock {
    MemBlock(addr + r.start * pageSize, r.count * pageSize)
  }

  function BlocksOf(runs: seq<Run>, addr: nat, pageSize: nat): (blocks: seq<MemBlock>)
    ensures |blocks| == |runs|
    ensures forall i :: 0 <= i < |runs| ==> blocks[i] == BlockOf(runs[i], addr, pageSize)
  {
    seq(|runs|, i requires 0 <= i < |runs| => BlockOf(runs[i], addr, pageSize))
  }

  ghost predicate Covers(runs: seq<Run>, n: int) {
    exists i :: 0 <= i < |runs| && runs[i].start <= n < runs[i].End()
  }

  function TotalPages(runs: seq<Run>): nat {
    if runs == [] then 0 else TotalPages(runs[..|runs| - 1]) + runs[|runs| - 1].count
  }

  /** Ascending, non-empty, with a gap between any two. */
  ghost predicate Separated(runs: seq<Run>) {
    && (forall i :: 0 <= i < |runs| ==> runs[i].count > 0)
    && (forall i, j :: 0 <= i < j < |runs| ==> runs[i].End() < runs[j].start)
  }

  /** The runs are the maximal runs of dirty pages, in ascending order. */
  ghost predicate MaximalRuns(runs: seq<Run>, words: seq<Word>) {
    Separated(runs) && forall n: int :: Dirty(words, n) <==> Covers(runs, n)
  }

  /** Word `i` ends dirty, word `j` begins dirty, and all words between, at least one, are clean. */
  ghost predicate SkewAt(words: seq<Word>, i: int, j: int) {
    && 0 <= i && i + 1 < j < |words|
    && words[i][63] && words[j][0]
    && forall k :: i < k < j ==> Clean(words[k])
  }

  ghost predicate HasSkew(words: seq<Word>) {
    exists i, j :: SkewAt(words, i, j)
  }

  /** The blocks pushed so far and the block still open. */
  datatype Scan = Scan(closed: seq<Run>, open: Option<Run>) {
    function Runs(): seq<Run> {
      if open.Some? then closed + [open.value] else closed
    }
  }

  function Step(s: Scan, n: nat, dirty: bool): Scan {
    if !dirty then
      if s.open.Some? then Scan(s.closed + [s.open.value], None) else s
    else if s.open.Some? then
      s.(open := Some(Run(s.open.value.start, s.open.value.count + 1)))
    else
      s.(open := Some(Run(n, 1)))
  }

  /** The scan has reached page `p` and has found the maximal runs below `p`. */
  ghost predicate Faithful(words: seq<Word>, p: int, s: Scan) {
    && 0 <= p <= 64 * |words|
    && Separated(s.Runs())
    && (forall n: int :: Covers(s.Runs(), n) <==> n < p && Dirty(words, n))
    && (s.open.Some? ==> OpenReaches(words, p, s.open.value.End()))
    && (s.open.None? ==> p == 0 || !Dirty(words, p - 1))
    && (s.open.None? ==> NoneOpen(words, p))
  }

  /** The open block ends at `e`: at `p`, or before a stretch of clean words that ends at `p`. */
  ghost predicate OpenReaches(words: seq<Word>, p: int, e: int) {
    e == p || (0 < e < p <= 64 * |words| && p % 64 == 0 && e % 64 == 0 &&
               words[e / 64 - 1][63] && forall k :: e / 64 <= k < p / 64 ==> Clean(words[k]))
  }

  /** No word with its last page dirty is followed, up to `p`, by clean words only. */
  ghost predicate NoneOpen(words: seq<Word>, p: int) {
    forall i :: 0 <= i < |words| && 64 * i + 63 < p && words[i][63] ==>
      exists k :: i < k < |words| && 64 * k < p && !Clean(words[k])
  }

  /** No skew has shown up below `p`. */
  ghost predicate NoSkewBelow(words: seq<Word>, p: int) {
    forall i, j :: SkewAt(words, i, j) ==> p <= 64 * j
  }

  /** Some page below `p` is covered without being dirty. */
  ghost predicate Stray(words: seq<Word>, p: int, runs: seq<Run>) {
    exists n: int :: 0 <= n < p && Covers(runs, n) && !Dirty(words, n)
  }

  /** The scan is faithful so far, or a skew has led it astray. */
  ghost predicate Scanned(words: seq<Word>, p: int, s: Scan) {
    && 0 <= p <= 64 * |words|
    && TotalPages(s.Runs()) == DirtyBelow(words, p)
    && ((Faithful(words, p, s) && NoSkewBelow(words, p)) || (Stray(words, p, s.Runs()) && HasSkew(words)))
  }

  lemma {:induction false} ScanStart(words: seq<Word>)
    ensures Scanned(words, 0, Scan([], None))
  {
  }

  /** Closing the open block changes no run. */
  lemma {:induction false} StepCovers(s: Scan, p: nat, dirty: bool)
    requires s.open.Some? ==> s.open.value.start <= s.open.value.End()
    ensures var n := if s.open.Some? then s.open.value.End() else p;
            forall m: int :: Covers(Step(s, p, dirty).Runs(), m) <==> Covers(s.Runs(), m) || (dirty && m == n)
    ensures TotalPages(Step(s, p, dirty).Runs()) == TotalPages(s.Runs()) + (if dirty then 1 else 0)
  {
    var s' := Step(s, p, dirty);
    if s.open.Some? && dirty {
      assert s.Runs()[..|s.closed|] == s.closed && s'.Runs()[..|s.closed|] == s.closed;
      forall m: int ensures Covers(s'.Runs(), m) <==> Covers(s.Runs(), m) || m == s.open.value.End() {
        CoversAppend(s.closed, s.open.value, m);
        CoversAppend(s.closed, s'.open.value, m);
      }
    } else if dirty {
      assert s'.Runs()[..|s.closed|] == s.closed;
      forall m: int ensures Covers(s'.Runs(), m) <==> Covers(s.Runs(), m) || m == p {
        CoversAppend(s.closed, Run(p, 1), m);
      }
    }
  }

  lemma {:induction false} CoversAppend(runs: seq<Run>, r: Run, m: int)
    ensures Covers(runs + [r], m) <==> Covers(runs, m) || r.start <= m < r.End()
  {
    if Covers(runs, m) {
      var i :| 0 <= i < |runs| && runs[i].start <= m < runs[i].End();
      assert (runs + [r])[i] == runs[i];
    }
    if r.start <= m < r.End() {
      assert (runs + [r])[|runs|] == r;
    }
  }

  /** A skew shows up at page `p` only behind a word that ended dirty and was
      followed by clean words only. */
  lemma {:induction false} NoSkewNext(words: seq<Word>, p: nat)
    requires p < 64 * |words| && NoSkewBelow(words, p)
    requires !Bit(words, p) || NoneOpen(words, p) || (p > 0 && Dirty(words, p - 1))
    ensures NoSkewBelow(words, p + 1)
  {
    forall i, j | SkewAt(words, i, j) ensures p != 64 * j {
      assert Clean(words[j - 1]) && words[j][0];
    }
  }

  lemma {:induction false} NoneOpenNext(words: seq<Word>, p: nat)
    requires p < 64 * |words| && !Bit(words, p) && !Clean(words[p / 64])
    ensures NoneOpen(words, p + 1)
  {
    forall i | 0 <= i < |words| && 64 * i + 63 < p + 1 && words[i][63]
      ensures exists k :: i < k < |words| && 64 * k < p + 1 && !Clean(words[k])
    {
      assert i < p / 64 && 64 * (p / 64) < p + 1 && !Clean(words[p / 64]);
    }
  }

  /** A clean page closes the open block. */
  lemma {:induction false} CleanPage(words: seq<Word>, p: nat, s: Scan)
    requires p < 64 * |words| && !Bit(words, p) && !Clean(words[p / 64])
    requires Faithful(words, p, s)
    ensures Faithful(words, p + 1, Step(s, p, false))
  {
    hide Separated, Covers, OpenReaches, NoneOpen, Clean, Dirty, Bit;
    assert Step(s, p, false).Runs() == s.Runs();
    NoneOpenNext(words, p);
    BitIsDirty(words, p);
  }

  /** A dirty page with no block open opens one. */
  lemma {:induction false} OpensBlock(words: seq<Word>, p: nat, s: Scan)
    requires p < 64 * |words| && Bit(words, p) && s.open.None?
    requires Faithful(words, p, s)
    ensures Faithful(words, p + 1, Step(s, p, true))
  {
    hide NoneOpen, Separated, Covers, Clean, Dirty;
    var s' := Step(s, p, true);
    assert s.Runs() == s.closed && s'.Runs() == s.closed + [Run(p, 1)];
    ClosedBefore(words, p, s);
    SeparatedSnoc(s.closed, Run(p, 1));
    BitIsDirty(words, p);
    forall n: int ensures Covers(s'.Runs(), n) <==> n < p + 1 && Dirty(words, n) {
      CoversAppend(s.closed, Run(p, 1), n);
    }
  }

  lemma {:induction false} BitIsDirty(words: seq<Word>, p: nat)
    requires p < 64 * |words|
    ensures Dirty(words, p) <==> Bit(words, p)
  {
  }

  /** The closed blocks end before a clean page. */
  lemma {:induction false} ClosedBefore(words: seq<Word>, p: nat, s: Scan)
    requires Faithful(words, p, s) && s.open.None?
    ensures forall i :: 0 <= i < |s.closed| ==> s.closed[i].End() < p
  {
    hide NoneOpen, OpenReaches;
    forall i | 0 <= i < |s.closed| ensures s.closed[i].End() < p {
      assert Covers(s.Runs(), s.closed[i].End() - 1);
    }
  }

  lemma {:induction false} SeparatedSnoc(runs: seq<Run>, r: Run)
    requires Separated(runs) && r.count > 0
    requires forall i :: 0 <= i < |runs| ==> runs[i].End() < r.start
    ensures Separated(runs + [r])
  {
    var longer := runs + [r];
    assert longer[|runs|] == r;
    assert forall i :: 0 <= i < |runs| ==> longer[i] == runs[i];
  }

  /** A dirty page next to the open block extends it. */
  lemma {:induction false} ExtendsBlock(words: seq<Word>, p: nat, s: Scan)
    requires p < 64 * |words| && Bit(words, p) && s.open.Some? && s.open.value.End() == p
    requires Faithful(words, p, s)
    ensures Faithful(words, p + 1, Step(s, p, true))
    ensures p > 0 && Dirty(words, p - 1)
  {
    hide NoneOpen, Separated, Covers, Clean;
    OpenEndsDirty(words, p, s);
    SeparatedExtend(s.closed, s.open.value);
    StepCovers(s, p, true);
  }

  /** The last page of the open block is dirty. */
  lemma {:induction false} OpenEndsDirty(words: seq<Word>, p: nat, s: Scan)
    requires Faithful(words, p, s) && s.open.Some?
    ensures s.open.value.count > 0 && Dirty(words, s.open.value.End() - 1)
  {
    assert s.Runs()[|s.closed|] == s.open.value;
    assert Covers(s.Runs(), s.open.value.End() - 1);
  }

  lemma {:induction false} SeparatedExtend(runs: seq<Run>, r: Run)
    requires Separated(runs + [r])
    ensures Separated(runs + [Run(r.start, r.count + 1)])
  {
    var longer := runs + [Run(r.start, r.count + 1)];
    assert (runs + [r])[|runs|] == r && longer[|runs|] == Run(r.start, r.count + 1);
    assert forall i :: 0 <= i < |runs| ==> longer[i] == (runs + [r])[i];
  }

  /** A dirty page behind skipped words is appended to the wrong block. */
  lemma {:induction false} GoesAstray(words: seq<Word>, p: nat, s: Scan)
    requires p < 64 * |words| && Bit(words, p) && s.open.Some? && s.open.value.End() != p
    requires Faithful(words, p, s)
    ensures Stray(words, p + 1, Step(s, p, true).Runs()) && HasSkew(words)
  {
    var e := s.open.value.End();
    OpenOf(words, p, s);
    SkewBehind(words, p, e);
    hide Faithful, OpenReaches, Clean, Dirty, HasSkew;
    StepCovers(s, p, true);
    assert Covers(Step(s, p, true).Runs(), e);
  }

  /** A dirty page behind skipped words closes a skew, and the page behind the open block is clean. */
  lemma {:induction false} SkewBehind(words: seq<Word>, p: nat, e: nat)
    requires p < 64 * |words| && Bit(words, p) && OpenReaches(words, p, e) && e != p
    ensures HasSkew(words) && 0 <= e < p && !Dirty(words, e)
  {
    assert Clean(words[e / 64]);
    assert p / 64 > e / 64;
    assert SkewAt(words, e / 64 - 1, p / 64);
  }

  lemma {:induction false} StrayStays(words: seq<Word>, p: nat, s: Scan)
    requires p < 64 * |words| && Stray(words, p, s.Runs())
    ensures Stray(words, p + 1, Step(s, p, Bit(words, p)).Runs())
  {
    StepCovers(s, p, Bit(words, p));
    var n: int :| 0 <= n < p && Covers(s.Runs(), n) && !Dirty(words, n);
    assert Covers(Step(s, p, Bit(words, p)).Runs(), n);
  }

  /** One scanned page keeps the scan in step. */
  lemma {:induction false} StepScanned(words: seq<Word>, p: nat, s: Scan)
    requires p < 64 * |words| && !Clean(words[p / 64]) && Scanned(words, p, s)
    ensures Scanned(words, p + 1, Step(s, p, Bit(words, p)))
  {
    hide Stray, Covers, NoSkewBelow, Clean, NoneOpen, OpenReaches, Separated, HasSkew;
    StepCovers(s, p, Bit(words, p));
    if Faithful(words, p, s) && NoSkewBelow(words, p) {
      if !Bit(words, p) {
        CleanPage(words, p, s);
        NoSkewNext(words, p);
      } else if s.open.None? {
        OpensBlock(words, p, s);
        NoSkewNext(words, p);
      } else if s.open.value.End() == p {
        ExtendsBlock(words, p, s);
        NoSkewNext(words, p);
      } else {
        GoesAstray(words, p, s);
      }
    } else {
      StrayStays(words, p, s);
    }
  }

  lemma {:induction false} CleanStretch(words: seq<Word>, p: nat, q: nat)
    requires p <= q && forall n :: p <= n < q ==> !Dirty(words, n)
    ensures DirtyBelow(words, q) == DirtyBelow(words, p)
  {
    if p < q {
      CleanStretch(words, p, q - 1);
    }
  }

  /** No page of a clean word is dirty. */
  lemma {:induction false} CleanWord(words: seq<Word>, k: nat, n: int)
    requires k < |words| && Clean(words[k]) && 64 * k <= n < 64 * k + 64
    ensures !Dirty(words, n)
  {
    assert n / 64 == k;
  }

  lemma {:induction false} StaysClosed(words: seq<Word>, k: nat)
    requires k < |words| && Clean(words[k]) && NoneOpen(words, 64 * k)
    ensures NoneOpen(words, 64 * k + 64)
  {
    forall i | 0 <= i < |words| && 64 * i + 63 < 64 * k + 64 && words[i][63]
      ensures exists m :: i < m < |words| && 64 * m < 64 * k + 64 && !Clean(words[m])
    {
      assert i < k;
      var m :| i < m < |words| && 64 * m < 64 * k && !Clean(words[m]);
    }
  }

  lemma {:induction false} StaysUnskewed(words: seq<Word>, k: nat)
    requires k < |words| && Clean(words[k]) && NoSkewBelow(words, 64 * k)
    ensures NoSkewBelow(words, 64 * k + 64)
  {
    assert !words[k][0];
  }

  lemma {:induction false} StaysOpen(words: seq<Word>, k: nat, s: Scan)
    requires k < |words| && Clean(words[k]) && Faithful(words, 64 * k, s) && s.open.Some?
    ensures OpenReaches(words, 64 * k + 64, s.open.value.End())
  {
    hide Faithful, Clean;
    var e := s.open.value.End();
    OpenEndsDirty(words, 64 * k, s);
    assert OpenReaches(words, 64 * k, e) by { OpenOf(words, 64 * k, s); }
    if e == 64 * k {
      assert (e - 1) / 64 == k - 1 && (e - 1) % 64 == 63;
    }
  }

  lemma {:induction false} OpenOf(words: seq<Word>, p: nat, s: Scan)
    requires Faithful(words, p, s) && s.open.Some?
    ensures OpenReaches(words, p, s.open.value.End())
  {
    hide OpenReaches, Separated, Covers, NoneOpen, Dirty;
  }

  lemma {:induction false} SkipsFaithfully(words: seq<Word>, k: nat, s: Scan)
    requires k < |words| && Clean(words[k]) && Faithful(words, 64 * k, s) && NoSkewBelow(words, 64 * k)
    ensures Faithful(words, 64 * k + 64, s) && NoSkewBelow(words, 64 * k + 64)
  {
    hide Clean, NoSkewBelow, Dirty, Covers, Separated, NoneOpen, OpenReaches;
    StaysUnskewed(words, k);
    forall n: int | 64 * k <= n < 64 * k + 64 ensures !Dirty(words, n) {
      CleanWord(words, k, n);
    }
    if s.open.Some? {
      StaysOpen(words, k, s);
    } else {
      StaysClosed(words, k);
    }
  }

  /** A skipped clean word keeps the scan in step. */
  lemma {:induction false} SkipScanned(words: seq<Word>, k: nat, s: Scan)
    requires k < |words| && Clean(words[k]) && Scanned(words, 64 * k, s)
    ensures Scanned(words, 64 * k + 64, s)
  {
    assert forall n :: 64 * k <= n < 64 * k + 64 ==> n / 64 == k;
    CleanStretch(words, 64 * k, 64 * k + 64);
    if Faithful(words, 64 * k, s) && NoSkewBelow(words, 64 * k) {
      SkipsFaithfully(words, k, s);
    }
  }

  /** What the scan of a whole bitmap yields: always as many pages as are dirty;
      the maximal runs if there is no skew, a page too many if there is one. */
  ghost predicate ScanResult(words: seq<Word>, runs: seq<Run>) {
    && TotalPages(runs) == DirtyBelow(words, 64 * |words|)
    && (!HasSkew(words) ==> MaximalRuns(runs, words))
    && (HasSkew(words) ==> Stray(words, 64 * |words|, runs))
  }

  lemma {:induction false} ScanEnd(words: seq<Word>, s: Scan)
    requires Scanned(words, 64 * |words|, s)
    ensures ScanResult(words, s.Runs())
  {
    if Faithful(words, 64 * |words|, s) && NoSkewBelow(words, 64 * |words|) {
      assert !HasSkew(words);
    }
  }

  /** The scan of the bits of a word from bit `b` on; its first page is `p`. */
  function ScanBits(w: Word, p: nat, b: nat, s: Scan): Scan
    requires b <= 64
    decreases 64 - b
  {
    if b == 64 then s else ScanBits(w, p, b + 1, Step(s, p + b, w[b]))
  }

  /** The scan of the words from word `k` on; clean words are skipped. */
  function ScanWords(words: seq<Word>, k: nat, s: Scan): Scan
    requires k <= |words|
    decreases |words| - k
  {
    if k == |words| then s
    else ScanWords(words, k + 1, if Clean(words[k]) then s else ScanBits(words[k], 64 * k, 0, s))
  }

  /** The runs that the scan of a whole bitmap yields. */
  function ScannedRuns(words: seq<Word>): seq<Run> {
    ScanWords(words, 0, Scan([], None)).Runs()
  }

  lemma {:induction false} BitsScanned(words: seq<Word>, k: nat, b: nat, s: Scan)
    requires k < |words| && !Clean(words[k]) && b <= 64 && Scanned(words, 64 * k + b, s)
    ensures Scanned(words, 64 * k + 64, ScanBits(words[k], 64 * k, b, s))
    decreases 64 - b
  {
    hide Scanned, Clean;
    if b < 64 {
      var p := 64 * k + b;
      assert p / 64 == k && p % 64 == b;
      StepScanned(words, p, s);
      BitsScanned(words, k, b + 1, Step(s, p, words[k][b]));
    }
  }

  lemma {:induction false} WordsScanned(words: seq<Word>, k: nat, s: Scan)
    requires k <= |words| && Scanned(words, 64 * k, s)
    ensures Scanned(words, 64 * |words|, ScanWords(words, k, s))
    decreases |words| - k
  {
    hide Scanned, Clean;
    if k < |words| {
      if Clean(words[k]) {
        SkipScanned(words, k, s);
        WordsScanned(words, k + 1, s);
      } else {
        BitsScanned(words, k, 0, s);
        WordsScanned(words, k + 1, ScanBits(words[k], 64 * k, 0, s));
      }
    }
  }

  lemma {:induction false} ScanYields(words: seq<Word>)
    ensures ScanResult(words, ScannedRuns(words))
  {
    hide Scanned, ScanResult, ScanWords;
    ScanStart(words);
    WordsScanned(words, 0, Scan([], None));
    ScanEnd(words, ScanWords(words, 0, Scan([], None)));
  }

  /** Convert the dirty bitmap of a slot at `addr` to memory blocks. */
  method SyncDirtyBitmap(bitmap: seq<Word>, addr: nat, pageSize: nat) returns (blocks: seq<MemBlock>)
    ensures blocks == BlocksOf(ScannedRuns(bitmap), addr, pageSize) && ScanResult(bitmap, ScannedRuns(bitmap))
  {
    hide ScanResult, Clean;
    blocks := [];
    var block: Option<MemBlock> := None;
    ghost var s := Scan([], None);
    for idx := 0 to |bitmap|
      invariant ScanWords(bitmap, idx, s) == ScanWords(bitmap, 0, Scan([], None))
      invariant Tracks(s, blocks, block, addr, pageSize)
    {
      if Clean(bitmap[idx]) {
        continue;
      }
      for bit := 0 to 64
        invariant ScanWords(bitmap, idx + 1, ScanBits(bitmap[idx], 64 * idx, bit, s)) ==
                  ScanWords(bitmap, 0, Scan([], None))
        invariant Tracks(s, blocks, block, addr, pageSize)
      {
        ghost var p := 64 * idx + bit;
        TracksStep(s, blocks, block, addr, pageSize, p);
        s := Step(s, p, bitmap[idx][bit]);
        if !bitmap[idx][bit] {
          if block.Some? {
            blocks := blocks + [block.value];
            block := None;
          }
          continue;
        }
        if block.Some? {
          block := Some(MemBlock(block.value.gpa, block.value.len + pageSize));
        } else {
          var offset := (64 * idx + bit) * pageSize;
          block := Some(MemBlock(addr + offset, pageSize));
        }
      }
    }
    ScanYields(bitmap);
    if block.Some? {
      blocks := blocks + [block.value];
    }
    assert blocks == BlocksOf(s.Runs(), addr, pageSize);
  }

  /** The blocks of the method are those of the scan. */
  ghost predicate Tracks(s: Scan, blocks: seq<MemBlock>, block: Option<MemBlock>, addr: nat, pageSize: nat) {
    && blocks == BlocksOf(s.closed, addr, pageSize)
    && (block.Some? <==> s.open.Some?)
    && (block.Some? ==> block.value == BlockOf(s.open.value, addr, pageSize))
  }

  lemma {:induction false} TracksStep(s: Scan, blocks: seq<MemBlock>, block: Option<MemBlock>, addr: nat,
                                      pageSize: nat, p: nat)
    requires Tracks(s, blocks, block, addr, pageSize)
    ensures block.Some? ==> Tracks(Step(s, p, false), blocks + [block.value], None, addr, pageSize)
    ensures block.None? ==> Tracks(Step(s, p, false), blocks, None, addr, pageSize)
    ensures Tracks(Step(s, p, true), blocks,
                   Some(if block.Some? then MemBlock(block.value.gpa, block.value.len + pageSize)
                        else MemBlock(addr + p * pageSize, pageSize)), addr, pageSize)
  {
    if block.Some? {
      assert (s.open.value.count + 1) * pageSize == s.open.value.count * pageSize + pageSize;
      assert BlocksOf(s.closed + [s.open.value], addr, pageSize) == blocks + [block.value];
    }
  }

  function Interval(lo: nat, hi: nat): (s: set<int>)
    requires lo <= hi
    ensures |s| == hi - lo
    ensures forall n: int :: n in s <==> lo <= n < hi
  {
    if lo == hi then {} else Interval(lo, hi - 1) + {hi - 1}
  }

  function CoveredSet(runs: seq<Run>): set<int> {
    if runs == [] then {}
    else CoveredSet(runs[..|runs| - 1]) + Interval(runs[|runs| - 1].start, runs[|runs| - 1].End())
  }

  lemma {:induction false} CoveredSetExact(runs: seq<Run>, n: int)
    ensures n in CoveredSet(runs) <==> Covers(runs, n)
  {
    hide Covers, Interval;
    if runs == [] {
      CoversNothing(n);
    } else {
      var k := |runs| - 1;
      CoveredSetExact(runs[..k], n);
      assert runs == runs[..k] + [runs[k]];
      CoversAppend(runs[..k], runs[k], n);
    }
  }

  lemma {:induction false} CoversNothing(n: int)
    ensures !Covers([], n)
  {
  }

  lemma {:induction false} CoveredSetSize(runs: seq<Run>)
    ensures |CoveredSet(runs)| <= TotalPages(runs)
  {
    hide Interval;
    if runs != [] {
      CoveredSetSize(runs[..|runs| - 1]);
    }
  }

  function DirtySet(words: seq<Word>, n: nat): set<int> {
    set m: int | 0 <= m < n && Dirty(words, m)
  }

  lemma {:induction false} DirtySetSize(words: seq<Word>, n: nat)
    ensures |DirtySet(words, n)| == DirtyBelow(words, n)
  {
    hide Dirty;
    if n > 0 {
      DirtySetSize(words, n - 1);
      var before := DirtySet(words, n - 1);
      assert n - 1 !in before;
      if Dirty(words, n - 1) {
        assert DirtySet(words, n) == before + {n - 1};
      } else {
        assert DirtySet(words, n) == before;
      }
    }
  }

  /** Every dirty page is sent if and only if the bitmap has no skew. */
  lemma {:induction false} AllSentIffNoSkew(words: seq<Word>)
    ensures (forall n: int :: Dirty(words, n) ==> Covers(ScannedRuns(words), n)) <==> !HasSkew(words)
  {
    hide ScannedRuns;
    var runs := ScannedRuns(words);
    ScanYields(words);
    if HasSkew(words) && forall n: int :: Dirty(words, n) ==> Covers(runs, n) {
      var stray: int :| 0 <= stray < 64 * |words| && Covers(runs, stray) && !Dirty(words, stray);
      forall n: int ensures n in CoveredSet(runs) <==> Covers(runs, n) {
        CoveredSetExact(runs, n);
      }
      CoveredSetSize(runs);
      DirtySetSize(words, 64 * |words|);
      SmallerSubset(DirtySet(words, 64 * |words|), CoveredSet(runs), stray);
      assert false;
    }
  }

  lemma {:induction false} SmallerSubset(a: set<int>, b: set<int>, x: int)
    requires a <= b && x in b && x !in a
    ensures |a| < |b|
  {
    SubsetSize(a, b - {x});
  }

  lemma {:induction false} SubsetSize(a: set<int>, b: set<int>)
    requires a <= b
    ensures |a| <= |b|
  {
    assert b == a + (b - a);
  }

  /** Without a skew exactly the dirty pages are covered. */
  lemma {:induction false} ScanCovers(words: seq<Word>, n: int)
    requires !HasSkew(words)
    ensures Covers(ScannedRuns(words), n) <==> Dirty(words, n)
  {
    hide ScannedRuns, Covers, HasSkew, Dirty;
    ScanYields(words);
  }

  /** Some block holds guest address `a`. */
  ghost predicate InBlocks(blocks: seq<MemBlock>, a: nat) {
    exists i :: 0 <= i < |blocks| && blocks[i].gpa <= a < blocks[i].gpa + blocks[i].len
  }

  lemma {:induction false} InBlock(r: Run, addr: nat, pageSize: nat, a: nat)
    requires pageSize > 0
    ensures BlockOf(r, addr, pageSize).gpa <= a < BlockOf(r, addr, pageSize).gpa + BlockOf(r, addr, pageSize).len <==>
            a >= addr && r.start <= (a - addr) / pageSize < r.End()
  {
    if a >= addr {
      FloorExact(a - addr, r.start, pageSize);
      FloorExact(a - addr, r.End(), pageSize);
      assert r.End() * pageSize == r.start * pageSize + r.count * pageSize;
    }
  }

  /** The blocks hold exactly the guest addresses of the pages that the scan covers; of the
      dirty pages, if the bitmap has no skew. */
  lemma {:induction false} BlocksHold(words: seq<Word>, addr: nat, pageSize: nat, a: nat)
    requires pageSize > 0
    ensures InBlocks(BlocksOf(ScannedRuns(words), addr, pageSize), a) <==>
            a >= addr && Covers(ScannedRuns(words), (a - addr) / pageSize)
    ensures !HasSkew(words) ==>
              (InBlocks(BlocksOf(ScannedRuns(words), addr, pageSize), a) <==>
               a >= addr && Dirty(words, (a - addr) / pageSize))
  {
    hide ScannedRuns, HasSkew, Dirty, BlockOf, BlocksOf;
    var runs := ScannedRuns(words);
    var blocks := BlocksOf(runs, addr, pageSize);
    forall i | 0 <= i < |runs|
      ensures blocks[i].gpa <= a < blocks[i].gpa + blocks[i].len <==>
              a >= addr && runs[i].start <= (a - addr) / pageSize < runs[i].End()
    {
      InBlock(runs[i], addr, pageSize, a);
    }
    if a >= addr && !HasSkew(words) {
      ScanCovers(words, (a - addr) / pageSize);
    }
  }

  /** The word with only bit `b` set. */
  function Only(b: nat): Word {
    seq(64, i => i == b)
  }

  /** The bitmap with exactly pages 63 and 128 dirty. */
  const SKEWED := [Only(63), Only(64), Only(0)]

  /** Clean bits leave a scan without an open block as it is. */
  lemma {:induction false} CleanBits(w: Word, p: nat, b: nat, c: nat, s: Scan)
    requires b <= c <= 64 && s.open.None? && forall i :: b <= i < c ==> !w[i]
    ensures ScanBits(w, p, b, s) == ScanBits(w, p, c, s)
    decreases c - b
  {
    if b < c {
      CleanBits(w, p, b + 1, c, s);
    }
  }

  /** The block opened at page 63 is still open at page 128, and takes that for its second page. */
  lemma {:induction false} SkewedWords()
    ensures ScanBits(Only(63), 0, 0, Scan([], None)) == Scan([], Some(Run(63, 1)))
    ensures ScanBits(Only(0), 128, 0, Scan([], Some(Run(63, 1)))) == Scan([Run(63, 2)], None)
    ensures !Clean(Only(63)) && Clean(Only(64)) && !Clean(Only(0))
  {
    assert Only(63)[63] && Only(0)[0];
    CleanBits(Only(63), 0, 0, 63, Scan([], None));
    assert [] + [Run(63, 2)] == [Run(63, 2)];
    CleanBits(Only(0), 128, 2, 64, Scan([Run(63, 2)], None));
  }

  lemma {:induction false} SkewedRuns()
    ensures ScannedRuns(SKEWED) == [Run(63, 2)]
  {
    hide ScanBits, Clean, Only;
    SkewedWords();
    var first, second := Scan([], Some(Run(63, 1))), Scan([Run(63, 2)], None);
    assert ScanWords(SKEWED, 2, first) == ScanWords(SKEWED, 3, second);
    assert ScanWords(SKEWED, 1, first) == ScanWords(SKEWED, 2, first);
    assert ScanWords(SKEWED, 0, Scan([], None)) == ScanWords(SKEWED, 1, first);
  }

  /** Pages 63 and 64 are sent for pages 63 and 128: page 128 is missed. */
  lemma {:induction false} SkewExample()
    ensures forall n: int :: Dirty(SKEWED, n) <==> n == 63 || n == 128
    ensures forall n: int :: Covers(ScannedRuns(SKEWED), n) <==> n == 63 || n == 64
    ensures HasSkew(SKEWED)
  {
    assert forall n: int :: Dirty(SKEWED, n) <==> n == 63 || n == 128;
    assert SkewAt(SKEWED, 0, 2);
    hide Dirty, SkewAt, ScannedRuns, Covers;
    SkewedRuns();
    forall n: int ensures Covers([Run(63, 2)], n) <==> n == 63 || n == 64 {
      CoversAppend([], Run(63, 2), n);
      CoversNothing(n);
      assert [] + [Run(63, 2)] == [Run(63, 2)];
    }
  }
}
