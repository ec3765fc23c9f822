/**
 The walk's accounting over the copy-on-write machine, one page at a time: what RegionWalk charges a
 process for each page it maps, after any run of mapping, forking, writing and unmapping. The
 reference count a walk sees is the machine's stored count, less the references files hold.
 */
module PageShares {
  import opened CopyOnWrite
  import opened Division
  import opened FrameHistory
  import opened Sums
  import opened Words
  import W = RegionWalk

  // Sums over finite sets

  ghost function SumOver<T(!new)>(s: set<T>, f: T -> nat): nat {
    if s == {} then 0
    else
      var x :| x in s;
      f(x) + SumOver(s - {x}, f)
  }

  lemma {:induction false} SumOverRemove<T(!new)>(s: set<T>, f: T -> nat, x: T)
    requires x in s
    ensures SumOver(s, f) == f(x) + SumOver(s - {x}, f)
  {
    var y :| y in s && SumOver(s, f) == f(y) + SumOver(s - {y}, f);
    if y != x {
      SumOverRemove(s - {y}, f, x);
      SumOverRemove(s - {x}, f, y);
      assert s - {y} - {x} == s - {x} - {y};
    }
  }

  lemma {:induction false} SumOverUnion<T(!new)>(a: set<T>, b: set<T>, f: T -> nat)
    requires a !! b
    ensures SumOver(a + b, f) == SumOver(a, f) + SumOver(b, f)
  {
    if a == {} {
      assert a + b == b;
    } else {
      var x :| x in a;
      SumOverUnion(a - {x}, b, f);
      SumOverRemove(a, f, x);
      SumOverRemove(a + b, f, x);
      assert a + b - {x} == (a - {x}) + b;
    }
  }

  lemma {:induction false} SumOverConstant<T(!new)>(s: set<T>, f: T -> nat, c: nat)
    requires forall x | x in s :: f(x) == c
    ensures SumOver(s, f) == |s| * c
  {
    if s != {} {
      var x :| x in s;
      SumOverConstant(s - {x}, f, c);
      SumOverRemove(s, f, x);
      assert |s| * c == |s - {x}| * c + c;
    }
  }

  function OnFrames(ptes: map<Key, Pte>, frames: set<nat>): set<Key> {
    set k | k in ptes && ptes[k].frame in frames
  }

  function OfProcesses(ptes: map<Key, Pte>, pids: set<nat>): set<Key> {
    set k | k in ptes && k.0 in pids
  }

  lemma {:induction false} ByFrame(ptes: map<Key, Pte>, frames: set<nat>, f: Key -> nat, g: nat -> nat)
    requires forall x | x in frames :: SumOver(KeysOn(ptes, x), f) == g(x)
    ensures SumOver(OnFrames(ptes, frames), f) == SumOver(frames, g)
  {
    if frames == {} {
      assert OnFrames(ptes, frames) == {};
    } else {
      var x :| x in frames;
      ByFrame(ptes, frames - {x}, f, g);
      SumOverUnion(KeysOn(ptes, x), OnFrames(ptes, frames - {x}), f);
      SumOverRemove(frames, g, x);
      assert OnFrames(ptes, frames) == KeysOn(ptes, x) + OnFrames(ptes, frames - {x});
    }
  }

  lemma {:induction false} ByProcess(ptes: map<Key, Pte>, pids: set<nat>, f: Key -> nat, g: nat -> nat)
    requires forall p | p in pids :: SumOver(OfProcess(ptes, p), f) == g(p)
    ensures SumOver(OfProcesses(ptes, pids), f) == SumOver(pids, g)
  {
    if pids == {} {
      assert OfProcesses(ptes, pids) == {};
    } else {
      var p :| p in pids;
      ByProcess(ptes, pids - {p}, f, g);
      SumOverUnion(OfProcess(ptes, p), OfProcesses(ptes, pids - {p}), f);
      SumOverRemove(pids, g, p);
      assert OfProcesses(ptes, pids) == OfProcess(ptes, p) + OfProcesses(ptes, pids - {p});
    }
  }

  // What a walk is told about one page

  /** The stored count, without the files' own references; Inv makes it the number of mappings. */
  function RefCount(l: Lazy, f: nat): nat {
    if f in l.frames && |FilesOn(l.files, f)| <= l.frames[f].refs
    then l.frames[f].refs - |FilesOn(l.files, f)| else 0
  }

  lemma {:induction false} RefCountIsMappings(l: Lazy, f: nat)
    requires Inv(l) && f in l.frames
    ensures RefCount(l, f) == |KeysOn(l.ptes, f)|
  {
    assert l.frames[f].refs == Holders(l.ptes, l.files, f);
  }

  /** How many pages of a frame are resident: a file's page is cached, anonymous memory is resident once
      it has been touched. */
  function Resident(l: Lazy, f: nat): nat {
    if f in l.frames && (FilesOn(l.files, f) != {} || l.frames[f].touched) then 1 else 0
  }

  function PageBytes(l: Lazy, f: nat): nat {
    Resident(l, f) * PAGE_SIZE
  }

  function PageRegion(l: Lazy, k: Key): W.Region
    requires k in l.ptes
  {
    var n, resident := RefCount(l, l.ptes[k].frame), Resident(l, l.ptes[k].frame);
    W.Region(k.1 * PAGE_SIZE, PAGE_SIZE,
             if l.ptes[k].kind == Private then W.Cow else if n <= 1 then W.Private else W.Shared,
             n, if n <= 1 then resident else 0, if n <= 1 then 0 else resident)
  }

  function ChargedPrivate(l: Lazy, k: Key): nat {
    if k in l.ptes then W.PrivateBytes(PAGE_SIZE)(PageRegion(l, k)) else 0
  }

  function ChargedShared(l: Lazy, k: Key): nat {
    if k in l.ptes then W.SharedBytes(PAGE_SIZE)(PageRegion(l, k)) else 0
  }

  function PrivatePart(l: Lazy): Key -> nat {
    (k: Key) => ChargedPrivate(l, k)
  }

  function SharedPart(l: Lazy): Key -> nat {
    (k: Key) => ChargedShared(l, k)
  }

  /** The two figures of a process. */
  ghost function RealPrivate(l: Lazy): nat -> nat {
    (p: nat) => SumOver(OfProcess(l.ptes, p), PrivatePart(l))
  }

  ghost function RealShared(l: Lazy): nat -> nat {
    (p: nat) => SumOver(OfProcess(l.ptes, p), SharedPart(l))
  }

  // The figures are what the walk returns

  predicate Ascending(pages: seq<nat>) {
    forall i, j | 0 <= i < j < |pages| :: pages[i] < pages[j]
  }

  /** These are the process's pages, in address order. */
  ghost predicate Listed(l: Lazy, p: nat, pages: seq<nat>) {
    Ascending(pages) && forall v: nat :: v in pages <==> (p, v) in l.ptes
  }

  function PageKeys(p: nat, pages: seq<nat>): set<Key> {
    set v | v in pages :: (p, v)
  }

  /** The regions a walk is handed, page by page. */
  function Regions(l: Lazy, p: nat, pages: seq<nat>): (rs: seq<W.Region>)
    requires PageKeys(p, pages) <= l.ptes.Keys
    ensures |rs| == |pages|
    ensures forall i: nat | i < |pages| :: (p, pages[i]) in PageKeys(p, pages) && rs[i] == PageRegion(l, (p, pages[i]))
  {
    if pages == [] then []
    else
      var last := |pages| - 1;
      assert PageKeys(p, pages[..last]) <= PageKeys(p, pages) && (p, pages[last]) in PageKeys(p, pages);
      Regions(l, p, pages[..last]) + [PageRegion(l, (p, pages[last]))]
  }

  lemma {:induction false} SumOfRegions(l: Lazy, p: nat, pages: seq<nat>, bytes: W.Region -> nat, part: Key -> nat)
    requires PageKeys(p, pages) <= l.ptes.Keys && Ascending(pages)
    requires forall k | k in l.ptes :: part(k) == bytes(PageRegion(l, k))
    ensures Sum(Regions(l, p, pages), bytes) == SumOver(PageKeys(p, pages), part)
  {
    if pages == [] {
      assert PageKeys(p, pages) == {};
    } else {
      var last := |pages| - 1;
      var front, k := pages[..last], (p, pages[last]);
      assert k in PageKeys(p, pages) && PageKeys(p, front) == PageKeys(p, pages) - {k};
      SumOfRegions(l, p, front, bytes, part);
      SumOverRemove(PageKeys(p, pages), part, k);
      assert Regions(l, p, pages)[..last] == Regions(l, p, front);
    }
  }

  /** Page v, below the top of the address space. */
  ghost predicate IsPage(r: W.Region, v: nat) {
    && r.start == v * PAGE_SIZE && r.size == PAGE_SIZE && r.End() < TWO_64
    && r.privatePages * PAGE_SIZE <= r.size && r.sharedPages * PAGE_SIZE <= r.size
  }

  lemma {:induction false} PageRegionIsPage(l: Lazy, k: Key)
    requires k in l.ptes && (k.1 + 1) * PAGE_SIZE < TWO_64
    ensures IsPage(PageRegion(l, k), k.1)
  {
  }

  lemma {:induction false} PagesAreValid(rs: seq<W.Region>, pages: seq<nat>, floor: nat)
    requires |rs| == |pages| && forall i: nat | i < |rs| :: IsPage(rs[i], pages[i])
    requires Ascending(pages) && (pages != [] ==> floor <= pages[0] * PAGE_SIZE)
    ensures W.ValidFrom(rs, floor)
  {
    if rs != [] {
      forall i: nat | i < |rs| - 1 ensures IsPage(rs[1..][i], pages[1..][i]) {
        assert IsPage(rs[i + 1], pages[i + 1]);
      }
      assert IsPage(rs[0], pages[0]);
      PagesAreValid(rs[1..], pages[1..], rs[0].End());
    }
  }

  /** A process's pages, in address order, are a map the walk can be run on. */
  lemma {:induction false} PagesAreWalkable(l: Lazy, p: nat, pages: seq<nat>)
    requires PageKeys(p, pages) <= l.ptes.Keys && Ascending(pages)
    requires forall v | v in pages :: (v + 1) * PAGE_SIZE < TWO_64
    ensures var rs := Regions(l, p, pages);
            W.ValidMap(rs) && W.EndsBelowTop(rs) && W.ResidentFits(rs, PAGE_SIZE)
  {
    var rs := Regions(l, p, pages);
    forall i: nat | i < |rs| ensures IsPage(rs[i], pages[i]) {
      assert pages[i] in pages;
      PageRegionIsPage(l, (p, pages[i]));
    }
    PagesAreValid(rs, pages, 0);
  }

  /** The walk over a process's pages returns its two figures. */
  method AccountProcess(l: Lazy, p: nat, pages: seq<nat>) returns (realPrivate: u64, realShared: u64)
    requires Listed(l, p, pages) && forall v | v in pages :: (v + 1) * PAGE_SIZE < TWO_64
    ensures realPrivate == RealPrivate(l)(p) && realShared == RealShared(l)(p)
  {
    assert PageKeys(p, pages) == OfProcess(l.ptes, p);
    PagesAreWalkable(l, p, pages);
    SumOfRegions(l, p, pages, W.PrivateBytes(PAGE_SIZE), PrivatePart(l));
    SumOfRegions(l, p, pages, W.SharedBytes(PAGE_SIZE), SharedPart(l));
    var address;
    ghost var visited;
    realPrivate, realShared, address, visited := W.AccountRegions(Regions(l, p, pages), PAGE_SIZE);
  }

  lemma {:induction false} Largest(s: set<nat>) returns (m: nat)
    requires s != {}
    ensures m in s && forall v | v in s :: v <= m
  {
    var any :| any in s;
    m := any;
    if s != {any} {
      m := Largest(s - {any});
      m := if m < any then any else m;
      assert forall v | v in s :: v in s - {any} || v == any;
    }
  }

  lemma {:induction false} InOrder(s: set<nat>) returns (pages: seq<nat>)
    ensures Ascending(pages) && forall v: nat :: v in pages <==> v in s
  {
    if s == {} {
      pages := [];
    } else {
      var m := Largest(s);
      var front := InOrder(s - {m});
      pages := front + [m];
      forall v: nat ensures v in pages <==> v in s {
        assert v in pages <==> v in front || v == m;
      }
      forall i: nat | i < |front| ensures front[i] < m {
        assert front[i] in front;
      }
    }
  }

  /** Every process has such a list. */
  lemma {:induction false} CanBeListed(l: Lazy, p: nat) returns (pages: seq<nat>)
    ensures Listed(l, p, pages)
  {
    var s := set k | k in OfProcess(l.ptes, p) :: k.1;
    pages := InOrder(s);
    forall v: nat ensures v in s <==> (p, v) in l.ptes {
      if (p, v) in l.ptes {
        assert (p, v) in OfProcess(l.ptes, p) && (p, v).1 == v;
      }
    }
  }

  /** One mapping's charge, for n mappings of a page with that many resident bytes. */
  ghost predicate Charged(l: Lazy, k: Key, bytes: nat, n: nat) {
    && 0 < n
    && ChargedPrivate(l, k) == (if n == 1 then bytes else 0)
    && ChargedShared(l, k) == if n == 1 then 0 else bytes / n
  }

  /** A page one mapping refers to is charged whole, as private; any other, in equal parts. */
  lemma {:induction false} PartOf(l: Lazy, k: Key)
    requires Inv(l) && k in l.ptes
    ensures Charged(l, k, PageBytes(l, l.ptes[k].frame), |KeysOn(l.ptes, l.ptes[k].frame)|)
  {
    var r := PageRegion(l, k);
    RefCountIsMappings(l, l.ptes[k].frame);
    assert k in KeysOn(l.ptes, l.ptes[k].frame);
    assert 1 < r.refCount ==> r.sharedPages * PAGE_SIZE == PageBytes(l, l.ptes[k].frame);
  }

  /** Of a page, what its mappings are charged together. */
  function PrivateOnce(l: Lazy): nat -> nat {
    (f: nat) => if |KeysOn(l.ptes, f)| == 1 then PageBytes(l, f) else 0
  }

  function Divided(l: Lazy): nat -> nat {
    (f: nat) => var n := |KeysOn(l.ptes, f)|; if 1 < n then PageBytes(l, f) - PageBytes(l, f) % n else 0
  }

  lemma {:induction false} FrameParts(l: Lazy, f: nat)
    requires Inv(l) && f in l.frames
    ensures SumOver(KeysOn(l.ptes, f), PrivatePart(l)) == PrivateOnce(l)(f)
    ensures SumOver(KeysOn(l.ptes, f), SharedPart(l)) == Divided(l)(f)
  {
    var keys, bytes := KeysOn(l.ptes, f), PageBytes(l, f);
    var n := |keys|;
    forall k | k in keys
      ensures PrivatePart(l)(k) == (if n == 1 then bytes else 0)
      ensures SharedPart(l)(k) == if n <= 1 then 0 else bytes / n
    {
      PartOf(l, k);
    }
    SumOverConstant(keys, PrivatePart(l), if n == 1 then bytes else 0);
    SumOverConstant(keys, SharedPart(l), if n <= 1 then 0 else bytes / n);
    if 1 < n {
      SharesAndRemainder(bytes, n);
    }
  }

  lemma {:induction false} AllKeys(l: Lazy)
    requires Closed(l)
    ensures OfProcesses(l.ptes, l.procs) == OnFrames(l.ptes, l.frames.Keys)
  {
  }

  /** Over all processes the private figures add up to the pages with one mapping, whole, and the
      shared figures to those with several, each less one remainder. */
  lemma {:induction false} SharesAddUp(l: Lazy)
    requires Inv(l)
    ensures SumOver(l.procs, RealPrivate(l)) == SumOver(l.frames.Keys, PrivateOnce(l))
    ensures SumOver(l.procs, RealShared(l)) == SumOver(l.frames.Keys, Divided(l))
  {
    forall f | f in l.frames.Keys
      ensures SumOver(KeysOn(l.ptes, f), PrivatePart(l)) == PrivateOnce(l)(f)
      ensures SumOver(KeysOn(l.ptes, f), SharedPart(l)) == Divided(l)(f)
    {
      FrameParts(l, f);
    }
    ByFrame(l.ptes, l.frames.Keys, PrivatePart(l), PrivateOnce(l));
    ByFrame(l.ptes, l.frames.Keys, SharedPart(l), Divided(l));
    ByProcess(l.ptes, l.procs, PrivatePart(l), RealPrivate(l));
    ByProcess(l.ptes, l.procs, SharedPart(l), RealShared(l));
    AllKeys(l);
  }

  /** ... in every reachable state, copy-on-write included. */
  lemma {:induction false} EveryRunSharesAddUp(snapshot: bool, steps: seq<Step>)
    ensures var l := LazyRun(Boot(snapshot), steps);
            && SumOver(l.procs, RealPrivate(l)) == SumOver(l.frames.Keys, PrivateOnce(l))
            && SumOver(l.procs, RealShared(l)) == SumOver(l.frames.Keys, Divided(l))
  {
    SharesAddUp(LazyRun(Boot(snapshot), steps));
  }

  /** The writer moves to a resident frame of its own; the others stay with the old page. */
  lemma {:induction false} WriterLeaves(l: Lazy, k: Key, i: nat, b: char)
    requires Inv(l) && k in l.ptes && i < PAGE_SIZE && l.frames[l.ptes[k].frame].refs != 1
    ensures var f, m := l.ptes[k].frame, WritePrivate(l, k, i, b);
            && m.ptes == l.ptes[k := Pte(l.next, Private)]
            && |KeysOn(m.ptes, l.next)| == 1 && Resident(m, l.next) == 1
            && |KeysOn(m.ptes, f)| == |KeysOn(l.ptes, f)| - 1
            && (f in m.frames ==> Resident(m, f) == Resident(l, f))
  {
    var f := l.ptes[k].frame;
    UnusedFrame(l, l.next);
    KeysAfterReplace(l.ptes, k, Pte(l.next, Private), l.next);
    KeysAfterReplace(l.ptes, k, Pte(l.next, Private), f);
  }

  lemma {:induction false} TwoAtLeast(keys: set<Key>, k: Key, q: Key)
    requires k in keys && q in keys && k != q
    ensures 1 < |keys|
  {
    assert keys == {k, q} + (keys - {k, q});
  }

  lemma {:induction false} WriteLeavesOthers(l: Lazy, k: Key, i: nat, b: char, q: Key)
    requires Inv(l) && k in l.ptes && l.ptes[k].kind == Private && i < PAGE_SIZE
    requires q in l.ptes && q != k && l.ptes[q].frame == l.ptes[k].frame
    ensures var n, m := |KeysOn(l.ptes, l.ptes[k].frame)|, WritePrivate(l, k, i, b);
            && 1 < n && LazyStep(l, Write(k, i, b)) == m && Inv(m) && k in m.ptes && q in m.ptes
            && |KeysOn(m.ptes, m.ptes[k].frame)| == 1 && |KeysOn(m.ptes, m.ptes[q].frame)| == n - 1
            && PageBytes(m, m.ptes[k].frame) == PAGE_SIZE
            && PageBytes(m, m.ptes[q].frame) == PageBytes(l, l.ptes[q].frame)
  {
    var f := l.ptes[k].frame;
    StepKeepsInv(l, Write(k, i, b));
    TwoAtLeast(KeysOn(l.ptes, f), k, q);
    assert l.frames[f].refs == Holders(l.ptes, l.files, f);
    WriterLeaves(l, k, i, b);
  }

  /** A write to a private page that n mappings share charges the writer a whole page of its own and
      leaves the others dividing the old page by n - 1: the last of them has it as private again. */
  lemma {:induction false} WriteReclassifies(l: Lazy, k: Key, i: nat, b: char, q: Key)
    requires Inv(l) && k in l.ptes && l.ptes[k].kind == Private && i < PAGE_SIZE
    requires q in l.ptes && q != k && l.ptes[q].frame == l.ptes[k].frame
    ensures var n, m := |KeysOn(l.ptes, l.ptes[k].frame)|, LazyStep(l, Write(k, i, b));
            var bytes := PageBytes(l, l.ptes[k].frame);
            && 1 < n && Charged(l, k, bytes, n) && Charged(l, q, bytes, n)
            && Charged(m, k, PAGE_SIZE, 1) && Charged(m, q, bytes, n - 1)
  {
    WriteLeavesOthers(l, k, i, b, q);
    var m := WritePrivate(l, k, i, b);
    PartOf(l, k);
    PartOf(l, q);
    PartOf(m, k);
    PartOf(m, q);
  }

  // What a page is charged for, in the terms of the demos

  /** A page of a file is charged whole to its only mapping, and otherwise in equal parts, in every
      reachable state: it is resident without anyone having written it. */
  lemma {:induction false} FilePageCharged(snapshot: bool, steps: seq<Step>, k: Key, x: nat)
    requires var l := LazyRun(Boot(snapshot), steps);
             k in l.ptes && x in l.files && l.files[x] == l.ptes[k].frame
    ensures var l := LazyRun(Boot(snapshot), steps);
            Charged(l, k, PAGE_SIZE, |KeysOn(l.ptes, l.ptes[k].frame)|)
  {
    var l := LazyRun(Boot(snapshot), steps);
    assert x in FilesOn(l.files, l.ptes[k].frame);
    PartOf(l, k);
  }

  /** A page mapped anonymously is charged nothing until the first store into it, by whichever process;
      from then on whole to its only mapping, and otherwise in equal parts. */
  lemma {:induction false} AnonPageCharged(l: Lazy, k: Key, kind: Kind, rest: seq<Step>, q: Key)
    requires Inv(l) && k.0 in l.procs && k !in l.ptes
    requires var end := LazyRun(l, [MapAnon(k, kind)] + rest); q in end.ptes && end.ptes[q].frame == l.next
    ensures var steps := [MapAnon(k, kind)] + rest;
            var end := LazyRun(l, steps);
            Charged(end, q, if StoredIn(l, steps, l.next) then PAGE_SIZE else 0, |KeysOn(end.ptes, l.next)|)
  {
    AnonAfterRun(l, k, kind, rest, q);
    PartOf(LazyRun(l, [MapAnon(k, kind)] + rest), q);
  }

  /** A file's page that nobody has mapped yet is charged whole to the first process that maps it. */
  lemma {:induction false} FirstMapperCharged(l: Lazy, k: Key, x: nat, kind: Kind)
    requires Inv(l) && k.0 in l.procs && k !in l.ptes && x in l.files && KeysOn(l.ptes, l.files[x]) == {}
    ensures var m := LazyStep(l, MapFile(k, x, kind));
            Inv(m) && k in m.ptes && Charged(m, k, PAGE_SIZE, 1)
  {
    var m := LazyStep(l, MapFile(k, x, kind));
    StepKeepsInv(l, MapFile(k, x, kind));
    assert KeysOn(m.ptes, l.files[x]) == {k} && x in FilesOn(m.files, l.files[x]);
    PartOf(m, k);
  }
}
