/**
 The footprint of every process of the copy-on-write machine: the pages it maps that no file backs and
 that have been stored into or copied, which is when memory becomes dirty. The rules are those of the
 project's README; FootprintLedger has the same rules for one process, with compression.

 The meter is kept incrementally, step by step. The recount is the meaning.
 */
module ProcessFootprint {
  import opened CopyOnWrite
  import opened FrameHistory

  predicate Charged(l: Lazy, k: Key)
    requires Closed(l)
  {
    k in l.ptes && FilesOn(l.files, l.ptes[k].frame) == {} && l.frames[l.ptes[k].frame].touched
  }

  function FootprintPages(l: Lazy, p: nat): set<Key>
    requires Closed(l)
  {
    set k | k in l.ptes && k.0 == p && Charged(l, k)
  }

  // What a write costs

  /** A private write charges its page to its process, if it is not charged already, and nothing else
      to anyone: at the first write to anonymous memory, and whenever a page is copied, be it the file's
      or one left shared by fork. */
  ghost predicate ChargesOnly(l: Lazy, m: Lazy, k: Key)
    requires Closed(l) && Closed(m)
  {
    forall p :: FootprintPages(m, p) == FootprintPages(l, p) + if p == k.0 then {k} else {}
  }

  lemma {:induction false} ChargesOne(l: Lazy, m: Lazy, k: Key)
    requires Closed(l) && Closed(m) && m.ptes.Keys == l.ptes.Keys && k in l.ptes
    requires Charged(m, k) && forall q | q in l.ptes && q != k :: Charged(m, q) == Charged(l, q)
    ensures ChargesOnly(l, m, k)
  {
  }

  lemma {:induction false} InPlaceCost(l: Lazy, k: Key, i: nat, b: char)
    requires Closed(l) && k in l.ptes && i < PAGE_SIZE && Alone(l, k)
    ensures var m := l.(frames := Store(l.frames, l.ptes[k].frame, i, b));
            Closed(m) && ChargesOnly(l, m, k)
  {
    var m := l.(frames := Store(l.frames, l.ptes[k].frame, i, b));
    assert FilesOn(l.files, l.ptes[k].frame) == {};
    ChargesOne(l, m, k);
  }

  lemma {:induction false} CopyCost(l: Lazy, k: Key, i: nat, b: char)
    requires Closed(l) && k in l.ptes && i < PAGE_SIZE && l.frames[l.ptes[k].frame].refs != 1
    requires Closed(WritePrivate(l, k, i, b))
    ensures ChargesOnly(l, WritePrivate(l, k, i, b), k)
  {
    var m := WritePrivate(l, k, i, b);
    assert FilesOn(l.files, l.next) == {};
    forall q | q in l.ptes && q != k ensures Charged(m, q) == Charged(l, q) {
      assert m.ptes[q] == l.ptes[q];
    }
    ChargesOne(l, m, k);
  }

  lemma {:induction false} PrivateWriteCost(l: Lazy, k: Key, i: nat, b: char)
    requires Inv(l) && k in l.ptes && l.ptes[k].kind == Private && i < PAGE_SIZE
    ensures LazyStep(l, Write(k, i, b)) == WritePrivate(l, k, i, b) && Closed(WritePrivate(l, k, i, b))
    ensures ChargesOnly(l, WritePrivate(l, k, i, b), k)
  {
    WriteSteps(l, k, i, b);
    ReadyToWrite(l, k, i, b);
    if l.frames[l.ptes[k].frame].refs == 1 {
      InPlaceCost(l, k, i, b);
    } else {
      CopyCost(l, k, i, b);
    }
  }

  /** The pages of a process that a shared write to frame f charges: all its pages there if the memory
      is anonymous; if it is a file's, the private ones a snapshot kernel moves out of the way. */
  function ChargedByStore(l: Lazy, f: nat, p: nat): set<Key> {
    set k | k in l.ptes && k.0 == p && l.ptes[k].frame == f
            && (FilesOn(l.files, f) == {} || (l.snapshot && l.ptes[k].kind == Private))
  }

  lemma {:induction false} StoreCharge(l: Lazy, f: nat, i: nat, b: char, q: Key)
    requires Closed(l) && f in l.frames && i < PAGE_SIZE && q in l.ptes
    ensures var m := l.(frames := Store(l.frames, f, i, b));
            && Closed(m)
            && (Charged(m, q) <==> Charged(l, q) || (l.ptes[q].frame == f && FilesOn(l.files, f) == {}))
  {
  }

  lemma {:induction false} MoveCharge(l: Lazy, f: nat, q: Key)
    requires Closed(l) && f in l.frames && Closed(MovePrivate(l, f)) && q in l.ptes
    ensures var m := MovePrivate(l, f);
            && q in m.ptes && m.files == l.files
            && (q in PrivateKeysOn(l.ptes, f) ==> Charged(m, q) && m.ptes[q].frame != f)
            && (q !in PrivateKeysOn(l.ptes, f) ==> m.ptes[q] == l.ptes[q] && Charged(m, q) == Charged(l, q))
  {
    assert FilesOn(l.files, l.next) == {};
  }

  lemma {:induction false} SharedCharge(l: Lazy, k: Key, i: nat, b: char, q: Key)
    requires Inv(l) && k in l.ptes && l.ptes[k].kind == Shared && i < PAGE_SIZE && q in l.ptes
    ensures var m := WriteShared(l, k, i, b);
            && Closed(m) && m.ptes.Keys == l.ptes.Keys
            && (Charged(m, q) <==> Charged(l, q) || q in ChargedByStore(l, l.ptes[k].frame, q.0))
  {
    var f := l.ptes[k].frame;
    if l.snapshot {
      KeepsMovePrivate(l, k);
      MoveCharge(l, f, q);
      StoreCharge(MovePrivate(l, f), f, i, b, q);
    } else {
      StoreCharge(l, f, i, b, q);
    }
  }

  lemma {:induction false} ChargesMany(l: Lazy, m: Lazy, f: nat, p: nat)
    requires Closed(l) && Closed(m) && m.ptes.Keys == l.ptes.Keys
    requires forall q | q in l.ptes :: Charged(m, q) <==> Charged(l, q) || q in ChargedByStore(l, f, q.0)
    ensures FootprintPages(m, p) == FootprintPages(l, p) + ChargedByStore(l, f, p)
  {
  }

  lemma {:induction false} SharedWriteCost(l: Lazy, k: Key, i: nat, b: char, p: nat)
    requires Inv(l) && k in l.ptes && l.ptes[k].kind == Shared && i < PAGE_SIZE
    ensures LazyStep(l, Write(k, i, b)) == WriteShared(l, k, i, b) && Closed(WriteShared(l, k, i, b))
    ensures FootprintPages(WriteShared(l, k, i, b), p) == FootprintPages(l, p) + ChargedByStore(l, l.ptes[k].frame, p)
  {
    var m := WriteShared(l, k, i, b);
    SharedCharge(l, k, i, b, k);
    forall q | q in l.ptes ensures Charged(m, q) <==> Charged(l, q) || q in ChargedByStore(l, l.ptes[k].frame, q.0) {
      SharedCharge(l, k, i, b, q);
    }
    ChargesMany(l, m, l.ptes[k].frame, p);
  }

  /** A dirtying loop: the same byte stored at the same offset of a list of pages, repeats allowed. */
  function Dirty(p: nat, pages: seq<nat>, i: nat, b: char): seq<Step> {
    if pages == [] then [] else [Write((p, pages[0]), i, b)] + Dirty(p, pages[1..], i, b)
  }

  function Listed(p: nat, pages: seq<nat>): set<Key> {
    set v | v in pages :: (p, v)
  }

  ghost predicate AllPrivate(l: Lazy, p: nat, pages: seq<nat>) {
    forall v | v in pages :: (p, v) in l.ptes && l.ptes[(p, v)].kind == Private
  }

  lemma {:induction false} PrivateStaysMapped(l: Lazy, k: Key, i: nat, b: char, q: Key)
    requires Closed(l) && k in l.ptes && l.ptes[k].kind == Private && i < PAGE_SIZE && q in l.ptes
    ensures q in WritePrivate(l, k, i, b).ptes && WritePrivate(l, k, i, b).ptes[q].kind == l.ptes[q].kind
  {
  }

  lemma {:induction false} ListedFront(p: nat, pages: seq<nat>)
    requires pages != []
    ensures Listed(p, pages) == {(p, pages[0])} + Listed(p, pages[1..])
  {
    assert forall v :: v in pages <==> v == pages[0] || v in pages[1..];
  }

  lemma {:induction false} DirtyPages(l: Lazy, p: nat, pages: seq<nat>, i: nat, b: char, q: nat)
    requires Inv(l) && i < PAGE_SIZE && AllPrivate(l, p, pages)
    ensures FootprintPages(LazyRun(l, Dirty(p, pages, i, b)), q)
         == FootprintPages(l, q) + if q == p then Listed(p, pages) else {}
    decreases |pages|
  {
    if pages == [] {
      assert Listed(p, pages) == {};
    } else {
      var k, rest := (p, pages[0]), pages[1..];
      var m := LazyStep(l, Write(k, i, b));
      assert pages[0] in pages;
      StepKeepsInv(l, Write(k, i, b));
      PrivateWriteCost(l, k, i, b);
      forall v | v in rest ensures (p, v) in m.ptes && m.ptes[(p, v)].kind == Private {
        assert v in pages;
        PrivateStaysMapped(l, k, i, b, (p, v));
      }
      DirtyPages(m, p, rest, i, b, q);
      ListedFront(p, pages);
    }
  }

  lemma {:induction false} SizeOfUnion(a: set<Key>, b: set<Key>)
    ensures |a + b| == |a| + |b - a|
  {
    assert a + b == a + (b - a);
  }

  /** Dirtying private mappings adds one page to the footprint for each distinct page not charged before,
      however often the loop comes back to it, and nothing to any other process. */
  lemma {:induction false} DirtyLoopCost(l: Lazy, p: nat, pages: seq<nat>, i: nat, b: char)
    requires Inv(l) && i < PAGE_SIZE && AllPrivate(l, p, pages)
    ensures var m := LazyRun(l, Dirty(p, pages, i, b));
            && |FootprintPages(m, p)| == |FootprintPages(l, p)| + |Listed(p, pages) - FootprintPages(l, p)|
            && (forall q | q != p :: FootprintPages(m, q) == FootprintPages(l, q))
  {
    var m := LazyRun(l, Dirty(p, pages, i, b));
    forall q ensures FootprintPages(m, q) == FootprintPages(l, q) + if q == p then Listed(p, pages) else {} {
      DirtyPages(l, p, pages, i, b, q);
    }
    SizeOfUnion(FootprintPages(l, p), Listed(p, pages));
  }

  // The meter

  /** What a shared write adds to a process, from the frame's state and the process's own references. */
  function Gain(l: Lazy, f: nat, p: nat): nat
    requires Closed(l) && f in l.frames
  {
    if FilesOn(l.files, f) != {} then (if l.snapshot then |OfProcess(l.ptes, p) * PrivateKeysOn(l.ptes, f)| else 0)
    else if l.frames[f].touched then 0
    else RefsFrom(l.ptes, p, f)
  }

  /** One step of the meter: every process's charge moves by what the step does to it. */
  function MeterStep(meter: map<nat, nat>, l: Lazy, step: Step): map<nat, nat>
    requires Closed(l)
  {
    match step
    case Spawn(p) => if p in meter then meter else meter[p := 0]
    case Fork(p, c) => if p in meter && c !in meter then meter[c := meter[p]] else meter
    case Write(k, i, b) =>
      if k !in l.ptes || PAGE_SIZE <= i then meter
      else if l.ptes[k].kind == Shared then map p | p in meter :: meter[p] + Gain(l, l.ptes[k].frame, p)
      else if Charged(l, k) || k.0 !in meter then meter
      else meter[k.0 := meter[k.0] + 1]
    case Unmap(k) => if Charged(l, k) && k.0 in meter && 0 < meter[k.0] then meter[k.0 := meter[k.0] - 1] else meter
    case Exit(p) => meter - {p}
    case _ => meter
  }

  /** The meter of process p is the recount. */
  ghost predicate MeteredAt(meter: map<nat, nat>, l: Lazy, p: nat)
    requires Closed(l)
  {
    (p in meter <==> p in l.procs) && (p in meter ==> meter[p] == |FootprintPages(l, p)|)
  }

  ghost predicate Metered(meter: map<nat, nat>, l: Lazy)
    requires Closed(l)
  {
    forall p :: MeteredAt(meter, l, p)
  }

  lemma {:induction false} GainIsNew(l: Lazy, f: nat, p: nat)
    requires Closed(l) && f in l.frames
    ensures |ChargedByStore(l, f, p) - FootprintPages(l, p)| == Gain(l, f, p)
  {
    var added := ChargedByStore(l, f, p) - FootprintPages(l, p);
    if FilesOn(l.files, f) != {} {
      assert added == if l.snapshot then OfProcess(l.ptes, p) * PrivateKeysOn(l.ptes, f) else {};
    } else if l.frames[f].touched {
      assert added == {};
    } else {
      assert added == OfProcess(l.ptes, p) * KeysOn(l.ptes, f);
    }
  }

  lemma {:induction false} SharedWriteAdds(l: Lazy, k: Key, i: nat, b: char, p: nat)
    requires Inv(l) && k in l.ptes && l.ptes[k].kind == Shared && i < PAGE_SIZE
    ensures Closed(LazyStep(l, Write(k, i, b))) && LazyStep(l, Write(k, i, b)).procs == l.procs
    ensures |FootprintPages(LazyStep(l, Write(k, i, b)), p)| == |FootprintPages(l, p)| + Gain(l, l.ptes[k].frame, p)
  {
    SharedWriteCost(l, k, i, b, p);
    SizeOfUnion(FootprintPages(l, p), ChargedByStore(l, l.ptes[k].frame, p));
    GainIsNew(l, l.ptes[k].frame, p);
  }

  lemma {:induction false} NewlyCharged(l: Lazy, k: Key, p: nat)
    requires Closed(l) && k in l.ptes
    ensures (if p == k.0 then {k} else {}) - FootprintPages(l, p) == if p == k.0 && !Charged(l, k) then {k} else {}
  {
  }

  lemma {:induction false} PrivateWriteAdds(l: Lazy, k: Key, i: nat, b: char, p: nat)
    requires Inv(l) && k in l.ptes && l.ptes[k].kind == Private && i < PAGE_SIZE
    ensures Closed(LazyStep(l, Write(k, i, b))) && LazyStep(l, Write(k, i, b)).procs == l.procs
    ensures |FootprintPages(LazyStep(l, Write(k, i, b)), p)|
         == |FootprintPages(l, p)| + if p == k.0 && !Charged(l, k) then 1 else 0
  {
    var added := if p == k.0 then {k} else {};
    PrivateWriteCost(l, k, i, b);
    SizeOfUnion(FootprintPages(l, p), added);
    NewlyCharged(l, k, p);
  }

  lemma {:induction false} WriteMetered(meter: map<nat, nat>, l: Lazy, k: Key, i: nat, b: char, p: nat)
    requires Inv(l) && MeteredAt(meter, l, p) && Closed(LazyStep(l, Write(k, i, b)))
    ensures MeteredAt(MeterStep(meter, l, Write(k, i, b)), LazyStep(l, Write(k, i, b)), p)
  {
    if k in l.ptes && i < PAGE_SIZE {
      if l.ptes[k].kind == Shared {
        SharedWriteAdds(l, k, i, b, p);
      } else {
        PrivateWriteAdds(l, k, i, b, p);
      }
    }
  }

  /** After fork the child's pages are charged as the parent's are, and everyone else's as before. */
  lemma {:induction false} ForkCharge(l: Lazy, p: nat, c: nat, k: Key)
    requires Closed(l) && p in l.procs && c !in l.procs && Closed(LazyStep(l, Fork(p, c)))
    ensures Charged(LazyStep(l, Fork(p, c)), k) == if k.0 == c then Charged(l, (p, k.1)) else Charged(l, k)
  {
    assert OfProcess(l.ptes, c) == {};
    InheritMeans(l.ptes, p, c, k);
  }

  lemma {:induction false} Inherited(hers: set<Key>, theirs: set<Key>, p: nat, c: nat)
    requires forall k | k in theirs :: k.0 == p
    requires forall k :: k in hers <==> k.0 == c && (p, k.1) in theirs
    ensures |hers| == |theirs|
  {
    assert hers == set k | k in theirs :: (c, k.1) by {
      forall k | k in hers ensures k in set q | q in theirs :: (c, q.1) {
        assert k == (c, (p, k.1).1);
      }
    }
    Relabelled(theirs, c, p);
  }

  lemma {:induction false} ChildFootprint(l: Lazy, p: nat, c: nat)
    requires Closed(l) && p in l.procs && c !in l.procs && Closed(LazyStep(l, Fork(p, c)))
    ensures |FootprintPages(LazyStep(l, Fork(p, c)), c)| == |FootprintPages(l, p)|
  {
    var hers, theirs := FootprintPages(LazyStep(l, Fork(p, c)), c), FootprintPages(l, p);
    forall k ensures k in hers <==> k.0 == c && (p, k.1) in theirs {
      ForkCharge(l, p, c, k);
    }
    Inherited(hers, theirs, p, c);
  }

  lemma {:induction false} OthersAfterFork(l: Lazy, p: nat, c: nat, q: nat)
    requires Closed(l) && p in l.procs && c !in l.procs && Closed(LazyStep(l, Fork(p, c))) && q != c
    ensures FootprintPages(LazyStep(l, Fork(p, c)), q) == FootprintPages(l, q)
  {
    forall k ensures k in FootprintPages(LazyStep(l, Fork(p, c)), q) <==> k in FootprintPages(l, q) {
      ForkCharge(l, p, c, k);
    }
  }

  lemma {:induction false} ForkMetered(meter: map<nat, nat>, l: Lazy, p: nat, c: nat, q: nat)
    requires Closed(l) && MeteredAt(meter, l, p) && MeteredAt(meter, l, c) && MeteredAt(meter, l, q)
    requires Closed(LazyStep(l, Fork(p, c)))
    ensures MeteredAt(MeterStep(meter, l, Fork(p, c)), LazyStep(l, Fork(p, c)), q)
  {
    if p in l.procs && c !in l.procs {
      if q == c {
        ChildFootprint(l, p, c);
      } else {
        OthersAfterFork(l, p, c, q);
      }
    }
  }

  lemma {:induction false} UnmapFootprint(l: Lazy, k: Key, p: nat)
    requires Closed(l) && Closed(LazyStep(l, Unmap(k)))
    ensures FootprintPages(LazyStep(l, Unmap(k)), p) == FootprintPages(l, p) - {k}
  {
  }

  lemma {:induction false} UnmapMetered(meter: map<nat, nat>, l: Lazy, k: Key, p: nat)
    requires Closed(l) && MeteredAt(meter, l, p) && Closed(LazyStep(l, Unmap(k)))
    ensures MeteredAt(MeterStep(meter, l, Unmap(k)), LazyStep(l, Unmap(k)), p)
  {
    UnmapFootprint(l, k, p);
    assert k in FootprintPages(l, p) <==> Charged(l, k) && k.0 == p;
  }

  lemma {:induction false} ExitFootprint(l: Lazy, p: nat, q: nat)
    requires Closed(l) && Closed(LazyStep(l, Exit(p))) && q != p
    ensures FootprintPages(LazyStep(l, Exit(p)), q) == FootprintPages(l, q)
  {
  }

  lemma {:induction false} SameFiles(l: Lazy, m: Lazy, f: nat)
    requires f < l.next && (forall x | x in m.files && x !in l.files :: m.files[x] == l.next)
    requires forall x | x in l.files :: x in m.files && m.files[x] == l.files[x]
    ensures FilesOn(m.files, f) == FilesOn(l.files, f)
  {
  }

  lemma {:induction false} MapCharge(l: Lazy, step: Step, q: Key)
    requires Closed(l) && Closed(LazyStep(l, step)) && (step.NewFile? || step.MapFile? || step.MapAnon? || step.Spawn?)
    ensures q in l.ptes ==> q in LazyStep(l, step).ptes
    ensures q in LazyStep(l, step).ptes ==> Charged(LazyStep(l, step), q) == Charged(l, q)
  {
    var m := LazyStep(l, step);
    if q in l.ptes {
      SameFiles(l, m, l.ptes[q].frame);
    } else if q in m.ptes && step.MapFile? {
      assert step.file in FilesOn(m.files, m.ptes[q].frame);
    }
  }

  lemma {:induction false} MapFootprint(l: Lazy, step: Step, p: nat)
    requires Closed(l) && Closed(LazyStep(l, step)) && (step.NewFile? || step.MapFile? || step.MapAnon? || step.Spawn?)
    ensures FootprintPages(LazyStep(l, step), p) == FootprintPages(l, p)
  {
    forall q ensures q in FootprintPages(LazyStep(l, step), p) <==> q in FootprintPages(l, p) {
      MapCharge(l, step, q);
    }
  }

  lemma {:induction false} UnknownFootprint(l: Lazy, p: nat)
    requires Closed(l) && p !in l.procs
    ensures FootprintPages(l, p) == {}
  {
  }

  lemma {:induction false} StepKeepsMeterAt(meter: map<nat, nat>, l: Lazy, step: Step, p: nat)
    requires Inv(l) && Metered(meter, l) && Closed(LazyStep(l, step))
    ensures MeteredAt(MeterStep(meter, l, step), LazyStep(l, step), p)
  {
    assert MeteredAt(meter, l, p);
    match step
    case Fork(q, c) =>
      assert MeteredAt(meter, l, q) && MeteredAt(meter, l, c);
      ForkMetered(meter, l, q, c, p);
    case Write(k, i, b) => WriteMetered(meter, l, k, i, b, p);
    case Unmap(k) => UnmapMetered(meter, l, k, p);
    case Exit(q) =>
      if p != q {
        ExitFootprint(l, q, p);
      }
    case _ =>
      MapFootprint(l, step, p);
      if p !in l.procs {
        UnknownFootprint(l, p);
      }
  }

  /** Every step, fork, copying and exit included, moves every meter to the recount. */
  lemma {:induction false} StepKeepsMeter(meter: map<nat, nat>, l: Lazy, step: Step)
    requires Inv(l) && Metered(meter, l)
    ensures Inv(LazyStep(l, step)) && Metered(MeterStep(meter, l, step), LazyStep(l, step))
  {
    StepKeepsInv(l, step);
    forall p ensures MeteredAt(MeterStep(meter, l, step), LazyStep(l, step), p) {
      StepKeepsMeterAt(meter, l, step, p);
    }
  }

  function MeterRun(meter: map<nat, nat>, l: Lazy, steps: seq<Step>): map<nat, nat>
    requires Inv(l)
    decreases |steps|
  {
    if steps == [] then meter
    else
      StepKeepsInv(l, steps[0]);
      MeterRun(MeterStep(meter, l, steps[0]), LazyStep(l, steps[0]), steps[1..])
  }

  lemma {:induction false} RunKeepsMeter(meter: map<nat, nat>, l: Lazy, steps: seq<Step>)
    requires Inv(l) && Metered(meter, l)
    ensures Metered(MeterRun(meter, l, steps), LazyRun(l, steps))
    decreases |steps|
  {
    if steps != [] {
      StepKeepsMeter(meter, l, steps[0]);
      RunKeepsMeter(MeterStep(meter, l, steps[0]), LazyStep(l, steps[0]), steps[1..]);
    }
  }

  /** In every reachable state the footprint of every process, kept step by step, equals a recount. */
  lemma {:induction false} EveryRunIsMetered(snapshot: bool, steps: seq<Step>)
    ensures Metered(MeterRun(map[], Boot(snapshot), steps), LazyRun(Boot(snapshot), steps))
  {
    RunKeepsMeter(map[], Boot(snapshot), steps);
  }

  // What the meter counts, in the terms of the README

  /** A page of a file is in nobody's footprint, mapped either way and however often it is written,
      until the writer of a private mapping gets a copy. */
  lemma {:induction false} FileNeverCharged(snapshot: bool, steps: seq<Step>, k: Key, x: nat)
    requires var l := LazyRun(Boot(snapshot), steps);
             k in l.ptes && x in l.files && l.files[x] == l.ptes[k].frame
    ensures k !in FootprintPages(LazyRun(Boot(snapshot), steps), k.0)
  {
    var l := LazyRun(Boot(snapshot), steps);
    assert x in FilesOn(l.files, l.ptes[k].frame);
  }

  /** A page mapped anonymously, private or shared, is in the footprint of every process that maps it from
      the first store into it on, and not before. */
  lemma {:induction false} AnonChargedIff(l: Lazy, k: Key, kind: Kind, rest: seq<Step>, q: Key)
    requires Inv(l) && k.0 in l.procs && k !in l.ptes
    requires var end := LazyRun(l, [MapAnon(k, kind)] + rest); q in end.ptes && end.ptes[q].frame == l.next
    ensures var steps := [MapAnon(k, kind)] + rest;
            q in FootprintPages(LazyRun(l, steps), q.0) <==> StoredIn(l, steps, l.next)
  {
    AnonAfterRun(l, k, kind, rest, q);
  }
}
