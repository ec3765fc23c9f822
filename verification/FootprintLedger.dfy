/**
 The footprint of one process, page by page, as the project's README defines it: anonymous pages
 that are dirty (internal) plus those that are compressed (internal_compressed). Clean pages can be
 discarded and read again; a private file page becomes anonymous when it is written; a shared file
 page never counts.

 The ledger keeps two running counters the way a kernel does. The recount is the meaning.
 */
module FootprintLedger {
  import opened Division
  import opened StrideLoop
  import opened Words

  /** Anonymous stands for both private and shared anonymous memory: the footprint counts either. */
  datatype Backing = Anonymous | PrivateFile | SharedFile
  datatype Place = Absent | Clean | Dirty | Compressed
  datatype Page = Page(backing: Backing, place: Place)
  type Pages = map<nat, Page>

  datatype Op =
    | Map(page: nat, backing: Backing)
    | Read(page: nat)
    | Write(page: nat)
    | Compress(page: nat)
    | WriteBack(page: nat)
    | Discard(page: nat)
    | Unmap(page: nat)

  /** Where a page is after an operation on it. An access to a compressed page decompresses it first.
      Only dirty anonymous pages are compressed, only shared file pages are written back, only clean
      pages are discarded. */
  function Moved(p: Page, op: Op): Place {
    match op
    case Read(_) => if p.place == Absent then Clean else if p.place == Compressed then Dirty else p.place
    case Write(_) => Dirty
    case Compress(_) => if p.place == Dirty && p.backing != SharedFile then Compressed else p.place
    case WriteBack(_) => if p.place == Dirty && p.backing == SharedFile then Clean else p.place
    case Discard(_) => if p.place == Clean then Absent else p.place
    case _ => p.place
  }

  /** An operation on a page that is not mapped faults and changes nothing. */
  function AfterOp(pages: Pages, op: Op): Pages {
    if op.Map? then (if op.page in pages then pages else pages[op.page := Page(op.backing, Absent)])
    else if op.page !in pages then pages
    else if op.Unmap? then pages - {op.page}
    else pages[op.page := pages[op.page].(place := Moved(pages[op.page], op))]
  }

  function AfterOps(pages: Pages, ops: seq<Op>): Pages {
    if ops == [] then pages else AfterOp(AfterOps(pages, ops[..|ops| - 1]), ops[|ops| - 1])
  }

  // The recount

  predicate Counts(pages: Pages, place: Place, n: nat) {
    n in pages && pages[n].backing != SharedFile && pages[n].place == place
  }

  function PagesIn(pages: Pages, place: Place): set<nat> {
    set n | n in pages && Counts(pages, place, n)
  }

  /** The footprint is the number of these. */
  predicate Charged(p: Page) {
    p.backing != SharedFile && (p.place == Dirty || p.place == Compressed)
  }

  function ChargedPages(pages: Pages): set<nat> {
    set n | n in pages && Charged(pages[n])
  }

  lemma {:induction false} FootprintIsCharged(pages: Pages)
    ensures |ChargedPages(pages)| == |PagesIn(pages, Dirty)| + |PagesIn(pages, Compressed)|
  {
    assert ChargedPages(pages) == PagesIn(pages, Dirty) + PagesIn(pages, Compressed);
    assert PagesIn(pages, Dirty) !! PagesIn(pages, Compressed);
  }

  /** Two sets that differ at n at most. */
  lemma {:induction false} SizeAround(s: set<nat>, t: set<nat>, n: nat)
    requires s - {n} == t - {n}
    ensures |t| + (if n in s then 1 else 0) == |s| + if n in t then 1 else 0
    ensures n in s ==> 0 < |s|
  {
    assert s == (s - {n}) + if n in s then {n} else {};
    assert t == (t - {n}) + if n in t then {n} else {};
  }

  lemma {:induction false} CountAround(was: Pages, now: Pages, n: nat, place: Place)
    requires now - {n} == was - {n}
    ensures |PagesIn(now, place)| + (if Counts(was, place, n) then 1 else 0)
         == |PagesIn(was, place)| + if Counts(now, place, n) then 1 else 0
    ensures Counts(was, place, n) ==> 0 < |PagesIn(was, place)|
  {
    forall q ensures q in PagesIn(now, place) - {n} <==> q in PagesIn(was, place) - {n} {
      assert q in now - {n} <==> q in was - {n};
      assert q in now - {n} ==> (now - {n})[q] == (was - {n})[q];
    }
    SizeAround(PagesIn(was, place), PagesIn(now, place), n);
  }

  /** The footprint moves by at most one page, and exactly in these two cases: the first write to a
      page of anonymous or private file memory, and the unmapping of a page already charged. */
  lemma {:induction false} FootprintDelta(pages: Pages, op: Op)
    ensures |ChargedPages(AfterOp(pages, op))|
         == |ChargedPages(pages)|
            + (if op.Write? && op.page in pages && pages[op.page].backing != SharedFile && !Charged(pages[op.page])
               then 1 else 0)
            - (if op.Unmap? && op.page in pages && Charged(pages[op.page]) then 1 else 0)
  {
    var was, now := ChargedPages(pages), ChargedPages(AfterOp(pages, op));
    assert was - {op.page} == now - {op.page};
    SizeAround(was, now, op.page);
  }

  /** Compression and the access that undoes it move one page between the two terms; the sum stays,
      and the pages come back exactly. */
  lemma {:induction false} CompressionMovesOnePage(pages: Pages, n: nat)
    requires Counts(pages, Dirty, n)
    ensures var squeezed := AfterOp(pages, Compress(n));
            && |PagesIn(squeezed, Dirty)| == |PagesIn(pages, Dirty)| - 1
            && |PagesIn(squeezed, Compressed)| == |PagesIn(pages, Compressed)| + 1
            && |ChargedPages(squeezed)| == |ChargedPages(pages)|
            && AfterOp(squeezed, Read(n)) == pages
            && AfterOp(squeezed, Write(n)) == pages
  {
    var squeezed := AfterOp(pages, Compress(n));
    CountAround(pages, squeezed, n, Dirty);
    CountAround(pages, squeezed, n, Compressed);
    FootprintDelta(pages, Compress(n));
  }

  /** Over every run of operations, a shared file page is never charged, however often it is written. */
  lemma {:induction false} SharedFileNeverCharged(pages: Pages, ops: seq<Op>, n: nat)
    requires n in pages && pages[n].backing == SharedFile
    requires forall op | op in ops :: !(op.Unmap? && op.page == n)
    ensures n in AfterOps(pages, ops) && AfterOps(pages, ops)[n].backing == SharedFile
    ensures n !in ChargedPages(AfterOps(pages, ops))
  {
    if ops != [] {
      SharedFileNeverCharged(pages, ops[..|ops| - 1], n);
      assert ops[|ops| - 1] in ops;
    }
  }

  // The dirtying loop

  /** The pages base, base + 1, ... written, those of them that are mapped. */
  function DirtyRange(pages: Pages, base: nat, count: nat): Pages {
    map n | n in pages :: if base <= n < base + count then pages[n].(place := Dirty) else pages[n]
  }

  function RoundUp(k: nat, m: nat): nat
    requires 0 < m
  {
    (k + m - 1) / m
  }

  /** The page of the byte at i, in pages of m strides. */
  function PageOfByte(i: nat, m: nat): nat
    requires 0 < m
  {
    i / (STRIDE * m)
  }

  lemma {:induction false} QuotientIs(n: nat, d: nat, q: nat, r: nat)
    requires n == d * q + r && r < d
    ensures n / d == q
  {
    SharesAndRemainder(n, d);
    var p := n / d;
    if p < q {
      MulMonotone(p + 1, q, d);
    } else if q < p {
      MulMonotone(q + 1, p, d);
    }
  }

  /** Stride k falls on page k / m. */
  lemma {:induction false} PageOfStride(k: nat, m: nat)
    requires 0 < m
    ensures PageOfByte(STRIDE * k, m) == k / m
  {
    SharesAndRemainder(k, m);
    var q, r := k / m, k % m;
    assert STRIDE * k == (STRIDE * m) * q + STRIDE * r;
    QuotientIs(STRIDE * k, STRIDE * m, q, STRIDE * r);
  }

  lemma {:induction false} RoundUpMeans(k: nat, m: nat, q: nat)
    requires 0 < m
    ensures RoundUp(k, m) == q <==> m * q < k + m <= m * q + m
  {
    SharesAndRemainder(k + m - 1, m);
    var r := RoundUp(k, m);
    if q < r {
      MulMonotone(q + 1, r, m);
    } else if r < q {
      MulMonotone(r + 1, q, m);
    }
  }

  lemma {:induction false} PagesOfStrides(size: nat, m: nat)
    requires 0 < m
    ensures RoundUp(Strides(size), m) == RoundUp(size, STRIDE * m)
  {
    var k := Strides(size);
    var q := RoundUp(k, m);
    StridesCover(size);
    RoundUpMeans(k, m, q);
    assert STRIDE * (m * q) == (STRIDE * m) * q;
    RoundUpMeans(size, STRIDE * m, q);
  }

  /** The page of stride k is the next page or one already counted. */
  lemma {:induction false} PageCounted(k: nat, m: nat)
    requires 0 < m
    ensures RoundUp(k, m) == k / m || RoundUp(k, m) == k / m + 1
    ensures RoundUp(k + 1, m) == k / m + 1
  {
    SharesAndRemainder(k, m);
    RoundUpMeans(k + 1, m, k / m + 1);
    RoundUpMeans(k, m, if k % m == 0 then k / m else k / m + 1);
  }

  lemma {:induction false} DirtyNext(pages: Pages, base: nat, count: nat, q: nat)
    requires count == q || count == q + 1
    ensures AfterOp(DirtyRange(pages, base, count), Write(base + q)) == DirtyRange(pages, base, q + 1)
  {
  }

  lemma {:induction false} DirtyOneMore(pages: Pages, base: nat, k: nat, m: nat)
    requires 0 < m
    ensures AfterOp(DirtyRange(pages, base, RoundUp(k, m)), Write(base + k / m))
         == DirtyRange(pages, base, RoundUp(k + 1, m))
  {
    PageCounted(k, m);
    var q, before := k / m, RoundUp(k, m);
    DirtyNext(pages, base, before, q);
  }

  // The running counters

  class Ledger {
    var pages: Pages
    var internal: nat
    var internalCompressed: nat

    ghost predicate Valid()
      reads this
    {
      internal == |PagesIn(pages, Dirty)| && internalCompressed == |PagesIn(pages, Compressed)|
    }

    /** A process that has mapped nothing. */
    constructor ()
      ensures Valid() && pages == map[] && Footprint() == 0
    {
      pages, internal, internalCompressed := map[], 0, 0;
      assert PagesIn(map[], Dirty) == {} && PagesIn(map[], Compressed) == {};
      assert ChargedPages(map[]) == {};
    }

    function Footprint(): (f: nat)
      requires Valid()
      reads this
      ensures f == |ChargedPages(pages)|
    {
      FootprintIsCharged(pages);
      internal + internalCompressed
    }

    /** Replace what is known of one page, moving each counter by that page alone. */
    method Recharge(n: nat, now: Pages)
      requires Valid() && now - {n} == pages - {n}
      modifies this
      ensures Valid() && pages == now
    {
      CountAround(pages, now, n, Dirty);
      CountAround(pages, now, n, Compressed);
      if Counts(pages, Dirty, n) {
        internal := internal - 1;
      } else if Counts(pages, Compressed, n) {
        internalCompressed := internalCompressed - 1;
      }
      if Counts(now, Dirty, n) {
        internal := internal + 1;
      } else if Counts(now, Compressed, n) {
        internalCompressed := internalCompressed + 1;
      }
      pages := now;
    }

    method Perform(op: Op)
      requires Valid()
      modifies this
      ensures Valid() && pages == AfterOp(old(pages), op)
    {
      if op.Map? {
        if op.page !in pages {
          Recharge(op.page, pages[op.page := Page(op.backing, Absent)]);
        }
      } else if op.page in pages {
        if op.Unmap? {
          Recharge(op.page, pages - {op.page});
        } else {
          Recharge(op.page, pages[op.page := pages[op.page].(place := Moved(pages[op.page], op))]);
        }
      }
    }

    /** Any run: the counters never drift from the recount. */
    method PerformAll(ops: seq<Op>)
      requires Valid()
      modifies this
      ensures Valid() && pages == AfterOps(old(pages), ops)
      ensures Footprint() == |ChargedPages(AfterOps(old(pages), ops))|
    {
      for k := 0 to |ops|
        invariant Valid() && pages == AfterOps(old(pages), ops[..k])
      {
        Perform(ops[k]);
        assert ops[..k + 1][..k] == ops[..k];
      }
      assert ops[..|ops|] == ops;
    }

    /** buffer[i] = c for the k-th stride, the strides before it written since the ledger was at before. */
    method DirtyStride(base: nat, i: nat, m: nat, ghost before: Pages, ghost k: nat)
      requires Valid() && 0 < m && i == STRIDE * k && pages == DirtyRange(before, base, RoundUp(k, m))
      modifies this
      ensures Valid() && pages == DirtyRange(before, base, RoundUp(k + 1, m))
    {
      PageOfStride(k, m);
      DirtyOneMore(before, base, k, m);
      Perform(Write(base + PageOfByte(i, m)));
    }

    /** for (size_t i = 0; i < size; i += 4096) buffer[i] = c; over a mapping that starts at page base
        and whose pages are m strides long. */
    method DirtyMapping(base: nat, size: u64, m: nat) returns (writes: nat)
      requires Valid() && 0 < m && size <= TWO_64 - STRIDE
      modifies this
      ensures Valid() && pages == DirtyRange(old(pages), base, RoundUp(size, STRIDE * m))
      ensures writes == Strides(size)
    {
      var i: u64 := 0;
      writes := 0;
      while i < size
        invariant i == STRIDE * writes && (i <= size || i < size + STRIDE)
        invariant Valid() && pages == DirtyRange(old(pages), base, RoundUp(writes, m))
        decreases size - i
      {
        DirtyStride(base, i, m, old(pages), writes);
        i := Wrap64(i + STRIDE);
        writes := writes + 1;
      }
      StridesCover(size);
      PagesOfStrides(size, m);
    }
  }

  // What the dirtying loop costs

  /** The loop dirties as many pages as it takes to hold the size, and no more, for pages of m * 4096 bytes. */
  lemma {:induction false} PagesHoldSize(size: nat, m: nat)
    requires 0 < m
    ensures var count, page := RoundUp(size, STRIDE * m), 4096 * m;
            size <= page * count && (0 < count ==> page * (count - 1) < size)
  {
    var page := STRIDE * m;
    RoundUpMeans(size, page, RoundUp(size, page));
    if 0 < RoundUp(size, page) {
      assert page * (RoundUp(size, page) - 1) == page * RoundUp(size, page) - page;
    }
  }

  /** The pages of the range that the loop is the first to write, and that count. */
  function FirstWritten(pages: Pages, base: nat, count: nat): set<nat> {
    set n | n in pages && base <= n < base + count && pages[n].backing != SharedFile && !Charged(pages[n])
  }

  lemma {:induction false} SizeOfUnion(s: set<nat>, a: set<nat>, b: set<nat>)
    requires a !! b && forall n :: n in s <==> n in a || n in b
    ensures |s| == |a| + |b|
  {
    assert s == a + b;
  }

  lemma {:induction false} ChargedInRange(pages: Pages, base: nat, count: nat, n: nat)
    ensures n in ChargedPages(DirtyRange(pages, base, count))
       <==> n in ChargedPages(pages) || n in FirstWritten(pages, base, count)
  {
  }

  /** The footprint grows by one page for each page first written, not for each write, and a second
      pass changes nothing. */
  lemma {:induction false} DirtyRangeCost(pages: Pages, base: nat, count: nat)
    ensures |ChargedPages(DirtyRange(pages, base, count))|
         == |ChargedPages(pages)| + |FirstWritten(pages, base, count)|
    ensures DirtyRange(DirtyRange(pages, base, count), base, count) == DirtyRange(pages, base, count)
  {
    var m := DirtyRange(pages, base, count);
    forall n
      ensures n in ChargedPages(m) <==> n in ChargedPages(pages) || n in FirstWritten(pages, base, count)
    {
      ChargedInRange(pages, base, count, n);
    }
    SizeOfUnion(ChargedPages(m), ChargedPages(pages), FirstWritten(pages, base, count));
  }

  lemma {:induction false} RangeSize(s: set<nat>, base: nat, count: nat)
    requires forall n :: n in s <==> base <= n < base + count
    ensures |s| == count
  {
    if count == 0 {
      assert s == {};
    } else {
      RangeSize(s - {base + count - 1}, base, count - 1);
    }
  }

  /** A mapping of count pages not written before: dirtying it all adds count pages if it is private
      or anonymous, and nothing at all if it is a shared file. */
  lemma {:induction false} DirtyMappingCost(pages: Pages, base: nat, count: nat, backing: Backing)
    requires forall n | base <= n < base + count ::
               n in pages && pages[n].backing == backing && (pages[n].place == Absent || pages[n].place == Clean)
    ensures |ChargedPages(DirtyRange(pages, base, count))|
         == |ChargedPages(pages)| + if backing == SharedFile then 0 else count
  {
    DirtyRangeCost(pages, base, count);
    if backing == SharedFile {
      assert FirstWritten(pages, base, count) == {};
    } else {
      RangeSize(FirstWritten(pages, base, count), base, count);
    }
  }

  // From the mapping on

  /** A page that has just been mapped and is not unmapped again is charged, whatever else happens to it
      and to others, exactly if it is not a shared file's and has been written: reading it, compressing,
      writing back or discarding it charges nobody, and nothing short of unmapping takes a charge away. */
  lemma {:induction false} ChargedIffWritten(pages: Pages, n: nat, backing: Backing, ops: seq<Op>)
    requires n !in pages && Unmap(n) !in ops
    ensures var after := AfterOps(AfterOp(pages, Map(n, backing)), ops);
            && n in after && after[n].backing == backing
            && (n in ChargedPages(after) <==> backing != SharedFile && Write(n) in ops)
            && (Write(n) !in ops ==> after[n].place == Absent || after[n].place == Clean)
            && (Write(n) in ops && backing != SharedFile ==> after[n].place == Dirty || after[n].place == Compressed)
  {
    if ops != [] {
      var front, op := ops[..|ops| - 1], ops[|ops| - 1];
      assert ops == front + [op];
      ChargedIffWritten(pages, n, backing, front);
    }
  }

  function Maps(base: nat, count: nat, backing: Backing): seq<Op> {
    if count == 0 then [] else Maps(base, count - 1, backing) + [Map(base + count - 1, backing)]
  }

  function Writes(base: nat, count: nat): seq<Op> {
    if count == 0 then [] else Writes(base, count - 1) + [Write(base + count - 1)]
  }

  lemma {:induction false} OpsPush(pages: Pages, ops: seq<Op>, op: Op)
    ensures AfterOps(pages, ops + [op]) == AfterOp(AfterOps(pages, ops), op)
  {
    assert (ops + [op])[..|ops|] == ops;
  }

  lemma {:induction false} AfterMaps(pages: Pages, base: nat, count: nat, backing: Backing)
    requires forall n | base <= n < base + count :: n !in pages
    ensures var mapped := AfterOps(pages, Maps(base, count, backing));
            && (forall n :: n in mapped <==> n in pages || base <= n < base + count)
            && (forall n | n in pages :: mapped[n] == pages[n])
            && (forall n: nat | base <= n < base + count :: mapped[n] == Page(backing, Absent))
  {
    if count > 0 {
      AfterMaps(pages, base, count - 1, backing);
      OpsPush(pages, Maps(base, count - 1, backing), Map(base + count - 1, backing));
    }
  }

  lemma {:induction false} DirtyNone(pages: Pages, base: nat)
    ensures DirtyRange(pages, base, 0) == pages
  {
  }

  /** Writing the pages of a range one after the other is what the loop does. */
  lemma {:induction false} WritesDirtyRange(pages: Pages, base: nat, count: nat)
    ensures AfterOps(pages, Writes(base, count)) == DirtyRange(pages, base, count)
  {
    if count == 0 {
      DirtyNone(pages, base);
    } else {
      var q := count - 1;
      WritesDirtyRange(pages, base, q);
      OpsPush(pages, Writes(base, q), Write(base + q));
      DirtyNext(pages, base, q, q);
    }
  }

  /** Mapping count pages costs nothing. Writing them all costs count pages of anonymous memory or of a
      private file mapping, and nothing at all of a shared one. */
  lemma {:induction false} MapAndDirtyCost(pages: Pages, base: nat, count: nat, backing: Backing)
    requires forall n | base <= n < base + count :: n !in pages
    ensures var mapped := AfterOps(pages, Maps(base, count, backing));
            && |ChargedPages(mapped)| == |ChargedPages(pages)|
            && |ChargedPages(AfterOps(mapped, Writes(base, count)))|
               == |ChargedPages(pages)| + if backing == SharedFile then 0 else count
  {
    var mapped := AfterOps(pages, Maps(base, count, backing));
    AfterMaps(pages, base, count, backing);
    assert ChargedPages(mapped) == ChargedPages(pages);
    WritesDirtyRange(mapped, base, count);
    DirtyMappingCost(mapped, base, count, backing);
  }

  // Real memory

  /** Clean and dirty pages are resident, whatever backs them; compressed ones are not. */
  function ResidentPages(pages: Pages): set<nat> {
    set n | n in pages && (pages[n].place == Clean || pages[n].place == Dirty)
  }

  predicate Accesses(op: Op) {
    op.Read? || op.Write?
  }

  /** The operation takes a resident page out of memory: compressing a dirty page no file backs, dropping a
      clean one, or unmapping it. */
  predicate Evicts(p: Page, op: Op) {
    match op
    case Compress(_) => p.place == Dirty && p.backing != SharedFile
    case Discard(_) => p.place == Clean
    case Unmap(_) => true
    case _ => false
  }

  /** Real memory grows by a page at an access to one that is not resident, file memory included, and
      shrinks by one where one is evicted. */
  lemma {:induction false} ResidentDelta(pages: Pages, op: Op)
    ensures var n, was := op.page, ResidentPages(pages);
            |ResidentPages(AfterOp(pages, op))|
              == |was| + (if Accesses(op) && n in pages && n !in was then 1 else 0)
                       - (if n in was && Evicts(pages[n], op) then 1 else 0)
  {
    var was, now := ResidentPages(pages), ResidentPages(AfterOp(pages, op));
    assert was - {op.page} == now - {op.page};
    SizeAround(was, now, op.page);
  }

  /** A dirty page of a shared file cannot be dropped until it has been written back. */
  lemma {:induction false} WrittenBackFirst(pages: Pages, n: nat)
    requires n in pages && pages[n] == Page(SharedFile, Dirty)
    ensures AfterOp(pages, Discard(n)) == pages
    ensures n !in ResidentPages(AfterOp(AfterOp(pages, WriteBack(n)), Discard(n)))
    ensures AfterOp(AfterOp(AfterOp(pages, WriteBack(n)), Discard(n)), Write(n)) == pages
  {
    assert pages[n := pages[n]] == pages;
  }
}
