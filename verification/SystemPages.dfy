/**
 System-wide page accounting: macos/system/test.cc and GetSystemMemoryMetrics of
 macos/system/activity_monitor_demo.mm, over a machine whose kernel keeps the page counters
 incrementally while pages move between states.
 */
module SystemPages {
  import opened Division
  import opened Sums
  import opened Words

  datatype Queue = Active | Inactive | Speculative
  datatype Backing = Internal | External

  /** Every physical page is in one of these states; a pageable one is on a queue and has a backing. */
  datatype Page = Free | Pageable(queue: Queue, backing: Backing, purgeable: bool) | Wired | Compressor

  /** The counters of vm_statistics64 that the programs read. */
  datatype Stat = Stat(
    active: int, inactive: int, speculative: int, wire: int, compressor: int, free: int,
    internal: int, external: int, purgeable: int)

  datatype Machine = Machine(pages: seq<Page>, stat: Stat)

  // The recount

  function Holds(p: Page -> bool): Page -> nat {
    (page: Page) => if p(page) then 1 else 0
  }

  function Count(pages: seq<Page>, p: Page -> bool): nat {
    Sum(pages, Holds(p))
  }

  function OnQueue(q: Queue): Page -> bool {
    (page: Page) => page.Pageable? && page.queue == q
  }

  function BackedBy(b: Backing): Page -> bool {
    (page: Page) => page.Pageable? && page.backing == b
  }

  function IsPurgeable(): Page -> bool {
    (page: Page) => page.Pageable? && page.purgeable
  }

  function Is(kind: Page): Page -> bool {
    (page: Page) => page == kind
  }

  function Recount(pages: seq<Page>): Stat {
    Stat(Count(pages, OnQueue(Active)), Count(pages, OnQueue(Inactive)), Count(pages, OnQueue(Speculative)),
         Count(pages, Is(Wired)), Count(pages, Is(Compressor)), Count(pages, Is(Free)),
         Count(pages, BackedBy(Internal)), Count(pages, BackedBy(External)), Count(pages, IsPurgeable()))
  }

  /** Only internal pages are purgeable. */
  predicate WellFormed(page: Page) {
    page.Pageable? && page.purgeable ==> page.backing == Internal
  }

  ghost predicate Inv(m: Machine) {
    m.stat == Recount(m.pages) && forall page | page in m.pages :: WellFormed(page)
  }

  // Page transitions

  datatype Step =
    | Fault(page: nat, backing: Backing)
    | ReadAhead(page: nat)
    | Enqueue(page: nat, queue: Queue)
    | MarkPurgeable(page: nat, on: bool)
    | Reclaim(page: nat)
    | Wire(page: nat)
    | Unwire(page: nat, backing: Backing)
    | GrowCompressor(page: nat)
    | ShrinkCompressor(page: nat)

  /** The state a step takes its page to; a step that does not apply leaves it alone. */
  function Target(page: Page, step: Step): Page {
    match (page, step)
    case (Free, Fault(_, backing)) => Pageable(Active, backing, false)
    case (Free, ReadAhead(_)) => Pageable(Speculative, External, false)
    case (Pageable(_, backing, purgeable), Enqueue(_, queue)) => Pageable(queue, backing, purgeable)
    case (Pageable(queue, Internal, _), MarkPurgeable(_, on)) => Pageable(queue, Internal, on)
    case (Pageable(_, _, _), Reclaim(_)) => Free
    case (Free, Wire(_)) => Wired
    case (Pageable(_, _, _), Wire(_)) => Wired
    case (Wired, Unwire(_, backing)) => Pageable(Active, backing, false)
    case (Free, GrowCompressor(_)) => Compressor
    case (Compressor, ShrinkCompressor(_)) => Free
    case _ => page
  }

  /** The counters a page of this state contributes to, moved by d. */
  function Bump(s: Stat, page: Page, d: int): Stat {
    match page
    case Free => s.(free := s.free + d)
    case Wired => s.(wire := s.wire + d)
    case Compressor => s.(compressor := s.compressor + d)
    case Pageable(queue, backing, purgeable) =>
      var s1 := match queue
        case Active => s.(active := s.active + d)
        case Inactive => s.(inactive := s.inactive + d)
        case Speculative => s.(speculative := s.speculative + d);
      var s2 := if backing == Internal then s1.(internal := s1.internal + d) else s1.(external := s1.external + d);
      if purgeable then s2.(purgeable := s2.purgeable + d) else s2
  }

  function Apply(m: Machine, step: Step): Machine {
    if step.page < |m.pages| then
      var before := m.pages[step.page];
      var after := Target(before, step);
      Machine(m.pages[step.page := after], Bump(Bump(m.stat, before, -1), after, 1))
    else m
  }

  function Run(m: Machine, steps: seq<Step>): Machine {
    if steps == [] then m else Apply(Run(m, steps[..|steps| - 1]), steps[|steps| - 1])
  }

  /** All pages free. */
  function Boot(pages: nat): Machine {
    Machine(seq(pages, _ => Free), Stat(0, 0, 0, 0, 0, pages, 0, 0, 0))
  }

  lemma {:induction false} CountUpdate(pages: seq<Page>, i: nat, page: Page, p: Page -> bool)
    requires i < |pages|
    ensures Count(pages[i := page], p) == Count(pages, p) - Holds(p)(pages[i]) + Holds(p)(page)
  {
    SumUpdate(pages, i, page, Holds(p));
  }

  /** What one page is counted as, field by field. */
  function Counts(page: Page): Stat {
    Stat(Holds(OnQueue(Active))(page), Holds(OnQueue(Inactive))(page), Holds(OnQueue(Speculative))(page),
         Holds(Is(Wired))(page), Holds(Is(Compressor))(page), Holds(Is(Free))(page),
         Holds(BackedBy(Internal))(page), Holds(BackedBy(External))(page), Holds(IsPurgeable())(page))
  }

  function Plus(s: Stat, t: Stat): Stat {
    Stat(s.active + t.active, s.inactive + t.inactive, s.speculative + t.speculative, s.wire + t.wire,
         s.compressor + t.compressor, s.free + t.free, s.internal + t.internal, s.external + t.external,
         s.purgeable + t.purgeable)
  }

  lemma {:induction false} BumpIsPlus(s: Stat, page: Page)
    ensures Bump(s, page, 1) == Plus(s, Counts(page))
    ensures s == Plus(Bump(s, page, -1), Counts(page))
  {
  }

  lemma {:induction false} RecountUpdate(pages: seq<Page>, i: nat, page: Page)
    requires i < |pages|
    ensures Plus(Recount(pages[i := page]), Counts(pages[i])) == Plus(Recount(pages), Counts(page))
  {
    CountUpdate(pages, i, page, OnQueue(Active));
    CountUpdate(pages, i, page, OnQueue(Inactive));
    CountUpdate(pages, i, page, OnQueue(Speculative));
    CountUpdate(pages, i, page, Is(Wired));
    CountUpdate(pages, i, page, Is(Compressor));
    CountUpdate(pages, i, page, Is(Free));
    CountUpdate(pages, i, page, BackedBy(Internal));
    CountUpdate(pages, i, page, BackedBy(External));
    CountUpdate(pages, i, page, IsPurgeable());
  }

  lemma {:induction false} PlusCancels(s: Stat, t: Stat, u: Stat)
    requires Plus(s, u) == Plus(t, u)
    ensures s == t
  {
  }

  lemma {:induction false} PlusCommutes(s: Stat, t: Stat, u: Stat)
    ensures Plus(Plus(s, t), u) == Plus(Plus(s, u), t)
  {
  }

  lemma {:induction false} MoveIsPlus(s: Stat, before: Page, after: Page)
    ensures Plus(Bump(Bump(s, before, -1), after, 1), Counts(before)) == Plus(s, Counts(after))
  {
    var without := Bump(s, before, -1);
    BumpIsPlus(s, before);
    BumpIsPlus(without, after);
    PlusCommutes(without, Counts(after), Counts(before));
  }

  lemma {:induction false} MoveIsRecount(pages: seq<Page>, i: nat, after: Page)
    requires i < |pages|
    ensures Bump(Bump(Recount(pages), pages[i], -1), after, 1) == Recount(pages[i := after])
  {
    MoveIsPlus(Recount(pages), pages[i], after);
    RecountUpdate(pages, i, after);
    PlusCancels(Recount(pages[i := after]), Bump(Bump(Recount(pages), pages[i], -1), after, 1), Counts(pages[i]));
  }

  lemma {:induction false} TargetWellFormed(page: Page, step: Step)
    requires WellFormed(page)
    ensures WellFormed(Target(page, step))
  {
  }

  /** Every transition keeps every counter equal to the recount. */
  lemma {:induction false} StepKeepsInv(m: Machine, step: Step)
    requires Inv(m)
    ensures Inv(Apply(m, step)) && |Apply(m, step).pages| == |m.pages|
  {
    if step.page < |m.pages| {
      assert m.pages[step.page] in m.pages;
      TargetWellFormed(m.pages[step.page], step);
      MoveIsRecount(m.pages, step.page, Target(m.pages[step.page], step));
    }
  }

  lemma {:induction false} AllCount(n: nat, p: Page -> bool)
    ensures Count(seq(n, _ => Free), p) == if p(Free) then n else 0
  {
    if n > 0 {
      AllCount(n - 1, p);
      assert seq(n, _ => Free)[..n - 1] == seq(n - 1, _ => Free);
    }
  }

  lemma {:induction false} RunKeepsInv(n: nat, steps: seq<Step>)
    ensures Inv(Run(Boot(n), steps)) && |Run(Boot(n), steps).pages| == n
  {
    if steps == [] {
      AllCount(n, OnQueue(Active));
      AllCount(n, OnQueue(Inactive));
      AllCount(n, OnQueue(Speculative));
      AllCount(n, Is(Wired));
      AllCount(n, Is(Compressor));
      AllCount(n, Is(Free));
      AllCount(n, BackedBy(Internal));
      AllCount(n, BackedBy(External));
      AllCount(n, IsPurgeable());
    } else {
      RunKeepsInv(n, steps[..|steps| - 1]);
      StepKeepsInv(Run(Boot(n), steps[..|steps| - 1]), steps[|steps| - 1]);
    }
  }

  /** The pageable pages counted by queue are the pageable pages counted by backing, purgeable pages
      are among the internal ones, and the states together are all of memory. */
  ghost predicate TwoViews(s: Stat, pages: nat) {
    && s.active + s.inactive + s.speculative == s.internal + s.external
    && 0 <= s.purgeable <= s.internal
    && 0 <= s.active && 0 <= s.inactive && 0 <= s.speculative && 0 <= s.external
    && 0 <= s.wire && 0 <= s.compressor && 0 <= s.free
    && s.internal + s.external + s.wire + s.compressor + s.free == pages
  }

  lemma {:induction false} RecountPush(pages: seq<Page>)
    requires pages != []
    ensures Recount(pages) == Plus(Recount(pages[..|pages| - 1]), Counts(pages[|pages| - 1]))
  {
  }

  lemma {:induction false} OnePageHasTwoViews(page: Page)
    requires WellFormed(page)
    ensures TwoViews(Counts(page), 1)
  {
  }

  lemma {:induction false} TwoViewsAdd(s: Stat, m: nat, t: Stat, n: nat)
    requires TwoViews(s, m) && TwoViews(t, n)
    ensures TwoViews(Plus(s, t), m + n)
  {
  }

  lemma {:induction false} RecountHasTwoViews(pages: seq<Page>)
    requires forall page | page in pages :: WellFormed(page)
    ensures TwoViews(Recount(pages), |pages|)
  {
    if pages != [] {
      var last := |pages| - 1;
      RecountHasTwoViews(pages[..last]);
      RecountPush(pages);
      assert pages[last] in pages;
      OnePageHasTwoViews(pages[last]);
      TwoViewsAdd(Recount(pages[..last]), last, Counts(pages[last]), 1);
    }
  }

  lemma {:induction false} EveryRunHasTwoViews(n: nat, steps: seq<Step>)
    ensures TwoViews(Run(Boot(n), steps).stat, n)
  {
    RunKeepsInv(n, steps);
    RecountHasTwoViews(Run(Boot(n), steps).pages);
  }

  // What each transition does to the counters

  /** The counters with one page more, or one less, on queue q. */
  function OnQueueBy(s: Stat, q: Queue, d: int): Stat {
    match q
    case Active => s.(active := s.active + d)
    case Inactive => s.(inactive := s.inactive + d)
    case Speculative => s.(speculative := s.speculative + d)
  }

  function BackedByBy(s: Stat, b: Backing, d: int): Stat {
    if b == Internal then s.(internal := s.internal + d) else s.(external := s.external + d)
  }

  /** A free page faulted in goes on the active queue with its backing; read ahead, it is speculative and
      external. */
  lemma {:induction false} FreePageMoves(m: Machine, i: nat, b: Backing)
    requires i < |m.pages| && m.pages[i] == Free
    ensures var s := m.stat.(free := m.stat.free - 1);
            && Apply(m, Fault(i, b)).stat == BackedByBy(s.(active := s.active + 1), b, 1)
            && Apply(m, ReadAhead(i)).stat == s.(speculative := s.speculative + 1, external := s.external + 1)
            && Apply(m, Wire(i)).stat == s.(wire := s.wire + 1)
            && Apply(m, GrowCompressor(i)).stat == s.(compressor := s.compressor + 1)
  {
  }

  /** A pageable page changes queue and keeps its backing; is reclaimed or wired, and counts as neither any
      more; and, if no file backs it, is marked purgeable or not. */
  lemma {:induction false} PageablePageMoves(m: Machine, i: nat, q: Queue, on: bool)
    requires i < |m.pages| && m.pages[i].Pageable?
    ensures var page := m.pages[i];
            var off := BackedByBy(OnQueueBy(m.stat, page.queue, -1), page.backing, -1);
            var gone := if page.purgeable then off.(purgeable := off.purgeable - 1) else off;
            && Apply(m, Enqueue(i, q)).stat == OnQueueBy(OnQueueBy(m.stat, page.queue, -1), q, 1)
            && Apply(m, Reclaim(i)).stat == gone.(free := gone.free + 1)
            && Apply(m, Wire(i)).stat == gone.(wire := gone.wire + 1)
            && Apply(m, MarkPurgeable(i, on)).stat ==
                 if page.backing == External || page.purgeable == on then m.stat
                 else m.stat.(purgeable := m.stat.purgeable + if on then 1 else -1)
  {
  }

  /** A wired page is let go onto the active queue; a compressor page becomes free. */
  lemma {:induction false} KernelPageMoves(m: Machine, i: nat, b: Backing)
    requires i < |m.pages|
    ensures m.pages[i] == Wired ==>
              Apply(m, Unwire(i, b)).stat
                == BackedByBy(m.stat.(wire := m.stat.wire - 1, active := m.stat.active + 1), b, 1)
    ensures m.pages[i] == Compressor ==>
              Apply(m, ShrinkCompressor(i)).stat
                == m.stat.(compressor := m.stat.compressor - 1, free := m.stat.free + 1)
  {
  }

  /** The transition is one that pages in this state make. */
  predicate Applies(page: Page, step: Step) {
    match step
    case Fault(_, _) => page == Free
    case ReadAhead(_) => page == Free
    case GrowCompressor(_) => page == Free
    case Wire(_) => page == Free || page.Pageable?
    case Enqueue(_, _) => page.Pageable?
    case Reclaim(_) => page.Pageable?
    case MarkPurgeable(_, _) => page.Pageable? && page.backing == Internal
    case Unwire(_, _) => page == Wired
    case ShrinkCompressor(_) => page == Compressor
  }

  lemma {:induction false} BumpBack(s: Stat, page: Page)
    ensures Bump(Bump(s, page, -1), page, 1) == s
  {
  }

  /** Any other, or one of a page that does not exist, changes nothing. */
  lemma {:induction false} OtherwiseNothing(m: Machine, step: Step)
    requires step.page < |m.pages| ==> !Applies(m.pages[step.page], step)
    ensures Apply(m, step) == m
  {
    if step.page < |m.pages| {
      assert Target(m.pages[step.page], step) == m.pages[step.page];
      assert m.pages[step.page := m.pages[step.page]] == m.pages;
      BumpBack(m.stat, m.pages[step.page]);
    }
  }

  // The programs' figures

  /** Every counter is a 32-bit word (natural_t). */
  ghost predicate Words32(s: Stat) {
    && 0 <= s.active < TWO_32 && 0 <= s.inactive < TWO_32 && 0 <= s.speculative < TWO_32
    && 0 <= s.wire < TWO_32 && 0 <= s.compressor < TWO_32 && 0 <= s.free < TWO_32
    && 0 <= s.internal < TWO_32 && 0 <= s.external < TWO_32 && 0 <= s.purgeable < TWO_32
  }

  ghost predicate GoodPageSize(pageSize: nat) {
    0 < pageSize <= 0x1_0000
  }

  /** A 32-bit count expression, widened and multiplied in 64 bits. */
  function Bytes(count: int, pageSize: nat): u64 {
    Wrap64(Wrap32(count) * pageSize)
  }

  /** How often a count expression runs over its 32-bit word; negative when it runs under. */
  function Carry(count: int): int {
    count / 0x1_0000_0000
  }

  /** The word a count expression is stored as. */
  function Word(count: int): (w: nat)
    ensures w < TWO_32
    ensures Carry(count) == 0 ==> w == count
  {
    count - Carry(count) * 0x1_0000_0000
  }

  lemma {:induction false} SmallWord(count: int)
    requires 0 <= count < TWO_32
    ensures Carry(count) == 0 && Word(count) == count
  {
  }

  /** The product never wraps; only the count before it can. */
  lemma {:induction false} BytesExact(count: int, pageSize: nat)
    requires GoodPageSize(pageSize)
    ensures Bytes(count, pageSize) == Word(count) * pageSize
  {
    MulMonotone(Word(count), TWO_32, pageSize);
    MulMonotone(pageSize, 0x1_0000, TWO_32);
  }

  lemma {:induction false} ScaleInjective(a: nat, b: nat, k: nat)
    requires 0 < k
    ensures a * k == b * k <==> a == b
  {
    if a < b {
      MulMonotone(1, b - a, k);
      assert b * k == a * k + (b - a) * k;
    } else if b < a {
      MulMonotone(1, a - b, k);
      assert a * k == b * k + (a - b) * k;
    }
  }

  /** The figure of a counter. */
  lemma {:induction false} CounterBytes(count: int, pageSize: nat)
    requires GoodPageSize(pageSize) && 0 <= count < TWO_32
    ensures Bytes(count, pageSize) == count * pageSize
  {
    SmallWord(count);
    BytesExact(count, pageSize);
  }

  lemma {:induction false} SumsScale(a: nat, b: nat, c: nat, d: nat, k: nat)
    requires 0 < k
    ensures a * k + b * k == c * k + d * k <==> a + b == c + d
  {
    assert a * k + b * k == (a + b) * k && c * k + d * k == (c + d) * k;
    ScaleInjective(a + b, c + d, k);
  }

  lemma {:induction false} PartsScale(a: nat, b: nat, c: nat, d: nat, e: nat, total: nat, k: nat)
    requires 0 < k
    ensures a * k + b * k + c * k + d * k + e * k == total * k <==> a + b + c + d + e == total
  {
    assert a * k + b * k + c * k + d * k + e * k == (a + b + c + d + e) * k;
    ScaleInjective(a + b + c + d + e, total, k);
  }

  /** Two counts, in bytes, make up a third exactly when their words do. */
  lemma {:induction false} BytesAddIff(a: int, b: int, c: int, pageSize: nat)
    requires GoodPageSize(pageSize)
    ensures Bytes(a, pageSize) + Bytes(b, pageSize) == Bytes(c, pageSize) <==> Word(a) + Word(b) == Word(c)
  {
    BytesExact(a, pageSize);
    BytesExact(b, pageSize);
    BytesExact(c, pageSize);
    SumsScale(Word(a), Word(b), Word(c), 0, pageSize);
  }

  // The page counts the figures are made of

  function AppPages(s: Stat): int {
    s.internal - s.purgeable
  }

  function CachedPages(s: Stat): int {
    s.external + s.purgeable
  }

  function BackedPages(s: Stat): int {
    s.internal + s.external + s.free + s.compressor + s.wire
  }

  function QueuedPages(s: Stat): int {
    s.inactive + s.active + s.free + s.compressor + s.wire
  }

  function UsedAndCachedPages(s: Stat): int {
    s.active + s.inactive + s.speculative + s.wire + s.compressor
  }

  function PrintedUsedPages(s: Stat): int {
    s.internal - s.purgeable + s.wire + s.compressor
  }

  datatype MemoryMetrics = MemoryMetrics(
    appMemory: int, wiredMemory: int, compressedMemory: int, cachedFiles: int, freeMemory: int,
    swapUsed: int, totalMemory: int)
  {
    function Parts(): int {
      appMemory + wiredMemory + compressedMemory + cachedFiles + freeMemory
    }
  }

  /** The five parts of the metrics. */
  function PartBytes(s: Stat, pageSize: nat): nat {
    Bytes(AppPages(s), pageSize) + Bytes(s.wire, pageSize) + Bytes(s.compressor, pageSize)
    + Bytes(CachedPages(s), pageSize) + Bytes(s.free, pageSize)
  }

  /** The overflows on the two sides of the total cancel. */
  predicate PartsCancel(s: Stat) {
    Carry(BackedPages(s)) == Carry(AppPages(s)) + Carry(CachedPages(s))
  }

  lemma {:induction false} FiguresExact(s: Stat, pageSize: nat)
    requires Words32(s) && GoodPageSize(pageSize)
    ensures Bytes(AppPages(s), pageSize) == Word(AppPages(s)) * pageSize
    ensures Bytes(CachedPages(s), pageSize) == Word(CachedPages(s)) * pageSize
    ensures Bytes(BackedPages(s), pageSize) == Word(BackedPages(s)) * pageSize
    ensures Bytes(s.wire, pageSize) == s.wire * pageSize
    ensures Bytes(s.compressor, pageSize) == s.compressor * pageSize
    ensures Bytes(s.free, pageSize) == s.free * pageSize
  {
    BytesExact(AppPages(s), pageSize);
    BytesExact(CachedPages(s), pageSize);
    BytesExact(BackedPages(s), pageSize);
    CounterBytes(s.wire, pageSize);
    CounterBytes(s.compressor, pageSize);
    CounterBytes(s.free, pageSize);
  }

  lemma {:induction false} WordsOfParts(s: Stat)
    ensures Word(AppPages(s)) + s.wire + s.compressor + Word(CachedPages(s)) + s.free == Word(BackedPages(s))
       <==> PartsCancel(s)
  {
  }

  lemma {:induction false} PartsMakeTotalIff(s: Stat, pageSize: nat)
    requires Words32(s) && GoodPageSize(pageSize)
    ensures PartBytes(s, pageSize) == Bytes(BackedPages(s), pageSize) <==> PartsCancel(s)
  {
    FiguresExact(s, pageSize);
    PartsScale(Word(AppPages(s)), s.wire, s.compressor, Word(CachedPages(s)), s.free, Word(BackedPages(s)), pageSize);
    WordsOfParts(s);
  }

  /** A sum of counters, in its 32-bit word, times the page size. */
  ghost predicate IsWordOf(figure: int, count: int, pageSize: nat) {
    figure == (count % 0x1_0000_0000) * pageSize
  }

  lemma {:induction false} BytesAreWord(count: int, pageSize: nat)
    requires GoodPageSize(pageSize)
    ensures IsWordOf(Bytes(count, pageSize), count, pageSize)
  {
    BytesExact(count, pageSize);
  }

  /** What each figure of the metrics is, in counters. */
  ghost predicate AreFigures(metrics: MemoryMetrics, s: Stat, pageSize: nat) {
    && IsWordOf(metrics.appMemory, s.internal - s.purgeable, pageSize)
    && IsWordOf(metrics.wiredMemory, s.wire, pageSize)
    && IsWordOf(metrics.compressedMemory, s.compressor, pageSize)
    && IsWordOf(metrics.cachedFiles, s.external + s.purgeable, pageSize)
    && IsWordOf(metrics.freeMemory, s.free, pageSize)
    && IsWordOf(metrics.totalMemory, s.internal + s.external + s.free + s.compressor + s.wire, pageSize)
  }

  lemma {:induction false} FiguresMean(metrics: MemoryMetrics, s: Stat, pageSize: nat)
    requires Words32(s) && GoodPageSize(pageSize)
    requires metrics.appMemory == Bytes(AppPages(s), pageSize) && metrics.wiredMemory == Bytes(s.wire, pageSize)
    requires metrics.compressedMemory == Bytes(s.compressor, pageSize)
    requires metrics.cachedFiles == Bytes(CachedPages(s), pageSize) && metrics.freeMemory == Bytes(s.free, pageSize)
    requires metrics.totalMemory == Bytes(BackedPages(s), pageSize)
    ensures AreFigures(metrics, s, pageSize)
    ensures metrics.Parts() == metrics.totalMemory <==> PartsCancel(s)
  {
    PartsMakeTotalIff(s, pageSize);
    BytesAreWord(AppPages(s), pageSize);
    BytesAreWord(s.wire, pageSize);
    BytesAreWord(s.compressor, pageSize);
    BytesAreWord(CachedPages(s), pageSize);
    BytesAreWord(s.free, pageSize);
    BytesAreWord(BackedPages(s), pageSize);
  }

  /** GetSystemMemoryMetrics. A failed query leaves the zeroed struct. Each figure is its word of pages;
      the five parts make up the total exactly when the 32-bit overflows on the two sides cancel. */
  method GetSystemMemoryMetrics(queryOk: bool, s: Stat, pageSize: nat, swapOk: bool, swap: u64)
    returns (metrics: MemoryMetrics)
    requires Words32(s) && GoodPageSize(pageSize)
    ensures !queryOk ==> metrics == MemoryMetrics(0, 0, 0, 0, 0, 0, 0)
    ensures queryOk ==> (metrics.Parts() == metrics.totalMemory <==> PartsCancel(s))
    ensures queryOk ==> AreFigures(metrics, s, pageSize) && metrics.swapUsed == if swapOk then swap else 0
  {
    metrics := MemoryMetrics(0, 0, 0, 0, 0, 0, 0);
    if queryOk {
      metrics := metrics.(appMemory := Bytes(s.internal - s.purgeable, pageSize));
      metrics := metrics.(wiredMemory := Bytes(s.wire, pageSize));
      metrics := metrics.(compressedMemory := Bytes(s.compressor, pageSize));
      metrics := metrics.(cachedFiles := Bytes(s.external + s.purgeable, pageSize));
      metrics := metrics.(freeMemory := Bytes(s.free, pageSize));
      metrics := metrics.(totalMemory := Bytes(s.internal + s.external + s.free + s.compressor + s.wire, pageSize));
      if swapOk {
        metrics := metrics.(swapUsed := swap);
      }
      FiguresMean(metrics, s, pageSize);
    }
  }

  // test.cc: the figures of GetSystemMemoryPressure, on one snapshot

  function UseAndCache(s: Stat, pageSize: nat): u64 {
    Bytes(UsedAndCachedPages(s), pageSize)
  }

  function Cache(s: Stat, pageSize: nat): u64 {
    Bytes(CachedPages(s), pageSize)
  }

  /** Signed, like the source's long long. */
  function Used(s: Stat, pageSize: nat): int {
    UseAndCache(s, pageSize) - Cache(s, pageSize)
  }

  function FreeBytes(s: Stat, pageSize: nat): int {
    UseAndCache(s, pageSize) + Bytes(s.free, pageSize) - Used(s, pageSize)
  }

  function PressureBytes(s: Stat, pageSize: nat): u64 {
    Bytes(s.wire + s.compressor, pageSize)
  }

  /** App, wired and compressed, printed as the used figure. */
  function PrintedUsed(s: Stat, pageSize: nat): u64 {
    Bytes(PrintedUsedPages(s), pageSize)
  }

  /** The first of the two printed totals. */
  function TotalByQueue(s: Stat, pageSize: nat): u64 {
    Bytes(QueuedPages(s), pageSize)
  }

  /** The second, which is also totalMemory of the metrics. */
  function TotalByBacking(s: Stat, pageSize: nat): u64 {
    Bytes(BackedPages(s), pageSize)
  }

  /** By how many pages the view by queue exceeds the view by backing. */
  function ViewGap(s: Stat): int {
    (s.active + s.inactive + s.speculative) - (s.internal + s.external)
  }

  /** The used figure computed from the queues equals the one printed from the backings exactly when the
      gap between the views is what the 32-bit overflows of the three sums leave. */
  lemma {:induction false} UsedAgreesIff(s: Stat, pageSize: nat)
    requires GoodPageSize(pageSize)
    ensures Used(s, pageSize) == PrintedUsed(s, pageSize)
       <==> ViewGap(s)
            == (Carry(UsedAndCachedPages(s)) - Carry(CachedPages(s)) - Carry(PrintedUsedPages(s))) * 0x1_0000_0000
  {
    BytesAddIff(PrintedUsedPages(s), CachedPages(s), UsedAndCachedPages(s), pageSize);
  }

  lemma {:induction false} FreeCancelsUsed(s: Stat, pageSize: nat)
    ensures FreeBytes(s, pageSize) + Used(s, pageSize)
         == Bytes(UsedAndCachedPages(s), pageSize) + Bytes(s.free, pageSize)
  {
  }

  lemma {:induction false} Distribute(a: int, b: int, k: int)
    ensures a * k + b * k == (a + b) * k
  {
  }

  /** Free and used together are the word of used and cached pages and the free pages, whatever is cached. */
  lemma {:induction false} FreePlusUsed(s: Stat, pageSize: nat)
    requires Words32(s) && GoodPageSize(pageSize)
    ensures FreeBytes(s, pageSize) + Used(s, pageSize) == (Word(UsedAndCachedPages(s)) + s.free) * pageSize
  {
    FreeCancelsUsed(s, pageSize);
    BytesExact(UsedAndCachedPages(s), pageSize);
    CounterBytes(s.free, pageSize);
    Distribute(Word(UsedAndCachedPages(s)), s.free, pageSize);
  }

  lemma {:induction false} SameSumIff(a: int, b: int, c: int, d: int, pageSize: nat)
    requires GoodPageSize(pageSize)
    ensures Bytes(a, pageSize) + Bytes(b, pageSize) == Bytes(c, pageSize) + Bytes(d, pageSize)
       <==> Word(a) + Word(b) == Word(c) + Word(d)
  {
    BytesExact(a, pageSize);
    BytesExact(b, pageSize);
    BytesExact(c, pageSize);
    BytesExact(d, pageSize);
    SumsScale(Word(a), Word(b), Word(c), Word(d), pageSize);
  }

  /** Free and used together are the total by backing exactly when the gap is what the overflows leave, and
      the total by queue with the speculative pages exactly when the two sums overflow alike. */
  lemma {:induction false} TotalsAgreeIff(s: Stat, pageSize: nat)
    requires Words32(s) && GoodPageSize(pageSize)
    ensures FreeBytes(s, pageSize) + Used(s, pageSize) == TotalByBacking(s, pageSize)
       <==> ViewGap(s) == (Carry(UsedAndCachedPages(s)) - Carry(BackedPages(s))) * 0x1_0000_0000
    ensures FreeBytes(s, pageSize) + Used(s, pageSize) == TotalByQueue(s, pageSize) + Bytes(s.speculative, pageSize)
       <==> Carry(UsedAndCachedPages(s)) == Carry(QueuedPages(s))
  {
    FreeCancelsUsed(s, pageSize);
    SmallWord(s.free);
    SmallWord(s.speculative);
    BytesAddIff(UsedAndCachedPages(s), s.free, BackedPages(s), pageSize);
    SameSumIff(UsedAndCachedPages(s), s.free, QueuedPages(s), s.speculative, pageSize);
  }

  function Percent(part: nat, all: nat): nat
    requires 0 < all
  {
    part * 100 / all
  }

  /** The returned percentage over exact rationals, truncated. A snapshot whose sum of pages is 0, which
      would divide by zero, has none. */
  function MemoryPressure(s: Stat, pageSize: nat): int
    requires 0 < FreeBytes(s, pageSize) + Used(s, pageSize)
  {
    Percent(PressureBytes(s, pageSize), FreeBytes(s, pageSize) + Used(s, pageSize))
  }

  /** The whole part of part in a hundred of all. */
  ghost predicate IsPercent(percent: int, part: nat, all: nat) {
    0 <= percent && percent * all <= part * 100 < (percent + 1) * all
  }

  lemma {:induction false} PercentBounds(part: nat, all: nat)
    requires 0 < all
    ensures IsPercent(Percent(part, all), part, all)
    ensures Percent(part, all) <= 100 <==> part * 100 < 101 * all
  {
    var percent := Percent(part, all);
    SharesAndRemainder(part * 100, all);
    assert percent * all == all * percent;
    assert (percent + 1) * all == percent * all + all;
    if percent <= 100 {
      MulMonotone(percent + 1, 101, all);
    } else {
      MulMonotone(101, percent, all);
    }
  }

  lemma {:induction false} PressureWithin(s: Stat, pageSize: nat)
    requires Words32(s) && GoodPageSize(pageSize) && Carry(UsedAndCachedPages(s)) == 0
    ensures PressureBytes(s, pageSize) <= FreeBytes(s, pageSize) + Used(s, pageSize)
  {
    FreePlusUsed(s, pageSize);
    BytesExact(s.wire + s.compressor, pageSize);
    MulMonotone(Word(s.wire + s.compressor), Word(UsedAndCachedPages(s)) + s.free, pageSize);
  }

  /** The returned figure is the whole part of pressure in a hundred of free plus used; it exceeds 100
      only if the used and cached pages overflow their word. */
  lemma {:induction false} PressureIsPercent(s: Stat, pageSize: nat)
    requires Words32(s) && GoodPageSize(pageSize)
    requires 0 < FreeBytes(s, pageSize) + Used(s, pageSize)
    ensures var part, all := PressureBytes(s, pageSize), FreeBytes(s, pageSize) + Used(s, pageSize);
            && IsPercent(MemoryPressure(s, pageSize), part, all)
            && (MemoryPressure(s, pageSize) <= 100 <==> part * 100 < 101 * all)
    ensures Carry(UsedAndCachedPages(s)) == 0 ==> MemoryPressure(s, pageSize) <= 100
  {
    PercentBounds(PressureBytes(s, pageSize), FreeBytes(s, pageSize) + Used(s, pageSize));
    if Carry(UsedAndCachedPages(s)) == 0 {
      PressureWithin(s, pageSize);
    }
  }

  lemma {:induction false} QuotientBelow(part: nat, all: nat, p: nat, q: nat, k: nat)
    requires 0 < k && part * 100 < (p + 1) * all && q * (all * k) <= (part * k) * 100
    ensures q <= p
  {
    assert k * (q * all) == q * (all * k) && k * (part * 100) == (part * k) * 100;
    MulCancel(k, q * all, part * 100 + 1);
    assert all * q == q * all && all * (p + 1) == (p + 1) * all;
    MulCancel(all, q, p + 1);
  }

  lemma {:induction false} QuotientAbove(part: nat, all: nat, p: nat, q: nat, k: nat)
    requires 0 < k && p * all <= part * 100 && (part * k) * 100 < (q + 1) * (all * k)
    ensures p <= q
  {
    assert k * ((q + 1) * all) == (q + 1) * (all * k) && k * (part * 100) == (part * k) * 100;
    MulCancel(k, part * 100, (q + 1) * all);
    assert all * p == p * all && all * (q + 1) == (q + 1) * all;
    MulCancel(all, p, q + 1);
  }

  lemma {:induction false} PercentScales(part: nat, all: nat, k: nat)
    requires 0 < all && 0 < k
    ensures 0 < all * k && Percent(part * k, all * k) == Percent(part, all)
  {
    MulMonotone(1, all, k);
    PercentBounds(part, all);
    PercentBounds(part * k, all * k);
    QuotientBelow(part, all, Percent(part, all), Percent(part * k, all * k), k);
    QuotientAbove(part, all, Percent(part, all), Percent(part * k, all * k), k);
  }

  /** The source divides by zero for exactly these snapshots. */
  lemma {:induction false} NoPressureIff(s: Stat, pageSize: nat)
    requires Words32(s) && GoodPageSize(pageSize)
    ensures FreeBytes(s, pageSize) + Used(s, pageSize) == 0 <==> Word(UsedAndCachedPages(s)) == 0 && s.free == 0
  {
    FreePlusUsed(s, pageSize);
    ScaleInjective(Word(UsedAndCachedPages(s)) + s.free, 0, pageSize);
  }

  /** In counters: the returned figure is the whole part of the wired and compressor pages in a hundred of
      the pages in use, the cached and the free ones, each sum in its 32-bit word; the page size is of no
      account. */
  lemma {:induction false} PressureInPages(s: Stat, pageSize: nat)
    requires Words32(s) && GoodPageSize(pageSize)
    requires 0 < FreeBytes(s, pageSize) + Used(s, pageSize)
    ensures var part := (s.wire + s.compressor) % 0x1_0000_0000;
            var all := (s.active + s.inactive + s.speculative + s.wire + s.compressor) % 0x1_0000_0000 + s.free;
            0 < all && IsPercent(MemoryPressure(s, pageSize), part, all)
  {
    var part, all := Word(s.wire + s.compressor), Word(UsedAndCachedPages(s)) + s.free;
    FreePlusUsed(s, pageSize);
    BytesExact(s.wire + s.compressor, pageSize);
    NoPressureIff(s, pageSize);
    PercentScales(part, all, pageSize);
    PercentBounds(part, all);
  }

  /** The figures test.cc computes and prints, in counters: none is lost beyond the 32 bits its sum is
      added in. */
  lemma {:induction false} FiguresInPages(s: Stat, pageSize: nat)
    requires GoodPageSize(pageSize)
    ensures IsWordOf(UseAndCache(s, pageSize), s.active + s.inactive + s.speculative + s.wire + s.compressor, pageSize)
    ensures IsWordOf(Cache(s, pageSize), s.purgeable + s.external, pageSize)
    ensures IsWordOf(PressureBytes(s, pageSize), s.wire + s.compressor, pageSize)
    ensures IsWordOf(PrintedUsed(s, pageSize), s.internal - s.purgeable + s.wire + s.compressor, pageSize)
    ensures IsWordOf(TotalByQueue(s, pageSize), s.inactive + s.active + s.free + s.compressor + s.wire, pageSize)
    ensures IsWordOf(TotalByBacking(s, pageSize), s.internal + s.external + s.free + s.compressor + s.wire, pageSize)
    ensures Used(s, pageSize) == UseAndCache(s, pageSize) - Cache(s, pageSize)
    ensures IsWordOf(FreeBytes(s, pageSize) - Cache(s, pageSize), s.free, pageSize)
  {
    BytesAreWord(s.free, pageSize);
    BytesAreWord(UsedAndCachedPages(s), pageSize);
    BytesAreWord(CachedPages(s), pageSize);
    BytesAreWord(s.wire + s.compressor, pageSize);
    BytesAreWord(PrintedUsedPages(s), pageSize);
    BytesAreWord(QueuedPages(s), pageSize);
    BytesAreWord(BackedPages(s), pageSize);
  }

  /** What host_statistics64 reports of a machine: its free count may or may not already contain the
      speculative pages. */
  function Snapshot(m: Machine, freeHasSpeculative: bool): Stat {
    if freeHasSpeculative then m.stat.(free := m.stat.free + m.stat.speculative) else m.stat
  }

  lemma {:induction false} SnapshotViews(n: nat, steps: seq<Step>, freeHasSpeculative: bool)
    ensures var s := Snapshot(Run(Boot(n), steps), freeHasSpeculative);
            && ViewGap(s) == 0 && 0 <= AppPages(s)
            && BackedPages(s) == n + (if freeHasSpeculative then s.speculative else 0)
            && QueuedPages(s) == n - (if freeHasSpeculative then 0 else s.speculative)
            && 0 <= CachedPages(s) <= n && 0 <= PrintedUsedPages(s) <= n && 0 <= UsedAndCachedPages(s) <= n
            && 0 <= s.speculative <= n && 0 <= QueuedPages(s)
  {
    EveryRunHasTwoViews(n, steps);
  }

  /** In every reachable state whose counters are words: which figures agree depends on the 32-bit
      overflows alone. */
  lemma {:induction false} EveryRunAgreesIff(n: nat, steps: seq<Step>, freeHasSpeculative: bool, pageSize: nat)
    requires Words32(Snapshot(Run(Boot(n), steps), freeHasSpeculative)) && GoodPageSize(pageSize)
    ensures var s := Snapshot(Run(Boot(n), steps), freeHasSpeculative);
            && (PartBytes(s, pageSize) == TotalByBacking(s, pageSize) <==> PartsCancel(s))
            && (Used(s, pageSize) == PrintedUsed(s, pageSize) <==>
                Carry(UsedAndCachedPages(s)) == Carry(CachedPages(s)) + Carry(PrintedUsedPages(s)))
            && (FreeBytes(s, pageSize) + Used(s, pageSize) == TotalByBacking(s, pageSize) <==>
                Carry(UsedAndCachedPages(s)) == Carry(BackedPages(s)))
            && (FreeBytes(s, pageSize) + Used(s, pageSize)
                  == TotalByQueue(s, pageSize) + Bytes(s.speculative, pageSize) <==>
                Carry(UsedAndCachedPages(s)) == Carry(QueuedPages(s)))
  {
    var s := Snapshot(Run(Boot(n), steps), freeHasSpeculative);
    SnapshotViews(n, steps, freeHasSpeculative);
    PartsMakeTotalIff(s, pageSize);
    UsedAgreesIff(s, pageSize);
    TotalsAgreeIff(s, pageSize);
  }

  lemma {:induction false} NoCarry(s: Stat)
    requires Words32(s) && 0 <= AppPages(s) && 0 <= s.active && ViewGap(s) == 0 && BackedPages(s) < TWO_32
    ensures Carry(BackedPages(s)) == Carry(AppPages(s)) == Carry(CachedPages(s)) == Carry(PrintedUsedPages(s)) == 0
    ensures Carry(UsedAndCachedPages(s)) == Carry(QueuedPages(s)) == 0
  {
    SmallWord(BackedPages(s));
    SmallWord(AppPages(s));
    SmallWord(CachedPages(s));
    SmallWord(PrintedUsedPages(s));
    SmallWord(UsedAndCachedPages(s));
    SmallWord(QueuedPages(s));
  }

  lemma {:induction false} BytesEqualIff(a: int, b: int, pageSize: nat)
    requires GoodPageSize(pageSize) && 0 <= a < TWO_32 && 0 <= b < TWO_32
    ensures Bytes(a, pageSize) == Bytes(b, pageSize) <==> a == b
  {
    SmallWord(a);
    SmallWord(b);
    BytesExact(a, pageSize);
    BytesExact(b, pageSize);
    ScaleInjective(a, b, pageSize);
  }

  /** All the figures agree as long as the snapshot's counters together stay below 2^32. Of the two printed
      totals the one by backing is then the machine's memory if the free count leaves the speculative
      pages out, the one by queue if it does not, and both only if there are none. */
  lemma {:induction false} EveryRunAddsUp(n: nat, steps: seq<Step>, freeHasSpeculative: bool, pageSize: nat)
    requires BackedPages(Snapshot(Run(Boot(n), steps), freeHasSpeculative)) < TWO_32 && GoodPageSize(pageSize)
    ensures var s := Snapshot(Run(Boot(n), steps), freeHasSpeculative);
            && PartBytes(s, pageSize) == TotalByBacking(s, pageSize)
            && Used(s, pageSize) == PrintedUsed(s, pageSize)
            && FreeBytes(s, pageSize) + Used(s, pageSize) == TotalByBacking(s, pageSize)
            && TotalByBacking(s, pageSize) == TotalByQueue(s, pageSize) + Bytes(s.speculative, pageSize)
            && (TotalByBacking(s, pageSize) == Bytes(n, pageSize) <==> !freeHasSpeculative || s.speculative == 0)
            && (TotalByQueue(s, pageSize) == Bytes(n, pageSize) <==> freeHasSpeculative || s.speculative == 0)
  {
    var s := Snapshot(Run(Boot(n), steps), freeHasSpeculative);
    SnapshotViews(n, steps, freeHasSpeculative);
    EveryRunHasTwoViews(n, steps);
    EveryRunAgreesIff(n, steps, freeHasSpeculative, pageSize);
    NoCarry(s);
    BytesEqualIff(BackedPages(s), n, pageSize);
    BytesEqualIff(QueuedPages(s), n, pageSize);
  }

  lemma {:induction false} ReadAheadCounts(m: Machine, page: nat)
    requires page < |m.pages| && m.pages[page] == Free
    ensures Apply(m, ReadAhead(page)).stat
         == m.stat.(free := m.stat.free - 1, speculative := m.stat.speculative + 1, external := m.stat.external + 1)
  {
  }

  lemma {:induction false} RunOne(m: Machine, step: Step)
    ensures Run(m, [step]) == Apply(m, step)
  {
    assert [step][..0] == [];
  }

  lemma {:induction false} OnePageReadAhead()
    ensures Run(Boot(1), [ReadAhead(0)]).stat == Stat(0, 0, 1, 0, 0, 0, 0, 1, 0)
  {
    ReadAheadCounts(Boot(1), 0);
    RunOne(Boot(1), ReadAhead(0));
  }

  /** The two printed totals differ on a machine whose only page is read ahead. */
  lemma {:induction false} TotalsDifferExample(pageSize: nat)
    requires GoodPageSize(pageSize)
    ensures var s := Snapshot(Run(Boot(1), [ReadAhead(0)]), false);
            TotalByBacking(s, pageSize) != TotalByQueue(s, pageSize)
  {
    var s := Snapshot(Run(Boot(1), [ReadAhead(0)]), false);
    OnePageReadAhead();
    BytesEqualIff(BackedPages(s), QueuedPages(s), pageSize);
  }

  /** Half of 2^32 pages are internal and the other half external: the counters are words and the views
      agree, but the sum for the total overflows. */
  lemma {:induction false} OverflowExample() returns (s: Stat)
    ensures Words32(s) && ViewGap(s) == 0 && !PartsCancel(s)
  {
    s := Stat(0x8000_0000, 0x8000_0000, 0, 0, 0, 0, 0x8000_0000, 0x8000_0000, 0);
  }

  /** ... so the parts do not make it up. */
  lemma {:induction false} PartsDifferExample(pageSize: nat) returns (s: Stat)
    requires GoodPageSize(pageSize)
    ensures Words32(s) && ViewGap(s) == 0 && PartBytes(s, pageSize) != TotalByBacking(s, pageSize)
  {
    s := OverflowExample();
    PartsMakeTotalIff(s, pageSize);
  }
}
