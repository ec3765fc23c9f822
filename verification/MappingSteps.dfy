/**
 What every step but a write shows on the machine of CopyOnWrite: the mapping or the file it is about, and
 nothing of any other. What a write shows is in MappingEffects.
 */
module MappingSteps {
  import opened CopyOnWrite

  /** This mapping is in m what it is in l, and reads the same. */
  ghost predicate SameMapping(l: Lazy, m: Lazy, k: Key)
    requires Closed(l) && Closed(m)
  {
    && (k in m.ptes <==> k in l.ptes)
    && (k in l.ptes ==> m.ptes[k].kind == l.ptes[k].kind && LazyRead(m, k) == LazyRead(l, k))
  }

  ghost predicate SameFiles(l: Lazy, m: Lazy)
    requires Closed(l) && Closed(m)
  {
    m.files.Keys == l.files.Keys && forall x | x in l.files :: FileBytes(m, x) == FileBytes(l, x)
  }

  /** The entry itself is the same, or absent as before. */
  predicate SameEntry(l: Lazy, m: Lazy, k: Key) {
    (k in m.ptes <==> k in l.ptes) && (k in l.ptes ==> m.ptes[k] == l.ptes[k])
  }

  ghost predicate FramesKept(l: Lazy, m: Lazy) {
    forall f | f in l.frames && f in m.frames :: m.frames[f].data == l.frames[f].data
  }

  lemma {:induction false} EntriesShow(l: Lazy, m: Lazy, about: Key -> bool)
    requires Closed(l) && Closed(m) && FramesKept(l, m) && forall q | !about(q) :: SameEntry(l, m, q)
    ensures forall q | !about(q) :: SameMapping(l, m, q)
    ensures m.files == l.files ==> SameFiles(l, m)
  {
    forall q | !about(q) ensures SameMapping(l, m, q) {
      assert SameEntry(l, m, q);
    }
  }

  lemma {:induction false} NewFileEntries(l: Lazy, x: nat, contents: Page)
    requires Closed(l) && x !in l.files
    ensures var m := LazyStep(l, NewFile(x, contents));
            && m.procs == l.procs && m.ptes == l.ptes && m.files == l.files[x := l.next] && FramesKept(l, m)
            && l.next in m.frames && m.frames[l.next].data == contents
  {
  }

  lemma {:induction false} MapEntries(l: Lazy, step: Step)
    requires Closed(l) && (step.MapFile? || step.MapAnon?) && step.key.0 in l.procs && step.key !in l.ptes
    requires step.MapFile? ==> step.file in l.files
    ensures var m, f := LazyStep(l, step), if step.MapFile? then l.files[step.file] else l.next;
            && m.procs == l.procs && m.files == l.files && FramesKept(l, m)
            && m.ptes == l.ptes[step.key := Pte(f, step.kind)] && f in m.frames
            && m.frames[f].data == if step.MapFile? then l.frames[f].data else ZeroPage()
  {
  }

  lemma {:induction false} UnmapEntries(l: Lazy, k: Key)
    requires Closed(l)
    ensures var m := LazyStep(l, Unmap(k));
            m.procs == l.procs && m.files == l.files && FramesKept(l, m) && m.ptes == l.ptes - {k}
  {
    assert k !in l.ptes ==> l.ptes - {k} == l.ptes;
  }

  lemma {:induction false} ExitEntries(l: Lazy, p: nat)
    requires Closed(l)
    ensures var m := LazyStep(l, Exit(p));
            && m == Lazy(l.procs - {p}, l.ptes - OfProcess(l.ptes, p), ExitFrames(l, p), l.files, l.next, l.snapshot)
            && FramesKept(l, m)
  {
  }

  /** A new file holds its contents. */
  lemma {:induction false} NewFileShows(l: Lazy, x: nat, contents: Page)
    requires Inv(l) && x !in l.files
    ensures var m := LazyStep(l, NewFile(x, contents));
            && Inv(m) && m.procs == l.procs && m.files.Keys == l.files.Keys + {x} && FileBytes(m, x) == contents
            && (forall y | y in l.files :: FileBytes(m, y) == FileBytes(l, y))
            && (forall k :: SameMapping(l, m, k))
  {
    StepKeepsInv(l, NewFile(x, contents));
    NewFileEntries(l, x, contents);
    EntriesShow(l, LazyStep(l, NewFile(x, contents)), _ => false);
  }

  /** A new process maps nothing it did not map before. */
  lemma {:induction false} SpawnShows(l: Lazy, p: nat)
    requires Inv(l)
    ensures var m := LazyStep(l, Spawn(p));
            && Inv(m) && m.procs == l.procs + {p} && SameFiles(l, m)
            && (forall k :: SameMapping(l, m, k)) && (p !in l.procs ==> OfProcess(m.ptes, p) == {})
  {
    StepKeepsInv(l, Spawn(p));
  }

  /** A file mapped either way reads as the file does. */
  lemma {:induction false} MapFileShows(l: Lazy, k: Key, x: nat, kind: Kind)
    requires Inv(l) && k.0 in l.procs && k !in l.ptes && x in l.files
    ensures var m := LazyStep(l, MapFile(k, x, kind));
            && Inv(m) && m.procs == l.procs && SameFiles(l, m) && (forall q | q != k :: SameMapping(l, m, q))
            && k in m.ptes && m.ptes[k].kind == kind && LazyRead(m, k) == FileBytes(l, x)
  {
    StepKeepsInv(l, MapFile(k, x, kind));
    MapEntries(l, MapFile(k, x, kind));
    EntriesShow(l, LazyStep(l, MapFile(k, x, kind)), (q: Key) => q == k);
  }

  /** Anonymous memory reads 0. */
  lemma {:induction false} MapAnonShows(l: Lazy, k: Key, kind: Kind)
    requires Inv(l) && k.0 in l.procs && k !in l.ptes
    ensures var m := LazyStep(l, MapAnon(k, kind));
            && Inv(m) && m.procs == l.procs && SameFiles(l, m) && (forall q | q != k :: SameMapping(l, m, q))
            && k in m.ptes && m.ptes[k].kind == kind
            && (forall i: nat | i < PAGE_SIZE :: LazyRead(m, k)[i] == '\0')
  {
    StepKeepsInv(l, MapAnon(k, kind));
    MapEntries(l, MapAnon(k, kind));
    EntriesShow(l, LazyStep(l, MapAnon(k, kind)), (q: Key) => q == k);
  }

  lemma {:induction false} ForkLeavesOthers(l: Lazy, p: nat, c: nat, q: Key)
    requires Closed(l) && p in l.procs && c !in l.procs && Closed(LazyStep(l, Fork(p, c)))
    ensures q.0 != c ==> SameMapping(l, LazyStep(l, Fork(p, c)), q)
    ensures q.0 == c ==> (q in LazyStep(l, Fork(p, c)).ptes <==> (p, q.1) in l.ptes)
  {
    assert OfProcess(l.ptes, c) == {};
    InheritMeans(l.ptes, p, c, q);
  }

  /** The child maps just what the parent maps, and reads the same by MappingEffects.ChildReadsParent; no
      other mapping and no file changes. */
  lemma {:induction false} ForkShows(l: Lazy, p: nat, c: nat)
    requires Inv(l) && p in l.procs && c !in l.procs
    ensures var m := LazyStep(l, Fork(p, c));
            && Inv(m) && m.procs == l.procs + {c} && SameFiles(l, m)
            && (forall q: Key | q.0 != c :: SameMapping(l, m, q))
            && (forall v :: (c, v) in m.ptes <==> (p, v) in l.ptes)
  {
    var m := LazyStep(l, Fork(p, c));
    StepKeepsInv(l, Fork(p, c));
    forall q: Key
      ensures q.0 != c ==> SameMapping(l, m, q)
      ensures q.0 == c ==> (q in m.ptes <==> (p, q.1) in l.ptes)
    {
      ForkLeavesOthers(l, p, c, q);
    }
    forall v ensures (c, v) in m.ptes <==> (p, v) in l.ptes {
      assert (c, v).0 == c && (c, v).1 == v;
    }
  }

  /** What is unmapped is gone, and nothing else is. */
  lemma {:induction false} UnmapShows(l: Lazy, k: Key)
    requires Inv(l)
    ensures var m := LazyStep(l, Unmap(k));
            && Inv(m) && m.procs == l.procs && SameFiles(l, m)
            && k !in m.ptes && (forall q | q != k :: SameMapping(l, m, q))
  {
    StepKeepsInv(l, Unmap(k));
    UnmapEntries(l, k);
    EntriesShow(l, LazyStep(l, Unmap(k)), (q: Key) => q == k);
  }

  /** A process that exits takes all its mappings with it, and none of anyone else's. */
  lemma {:induction false} ExitShows(l: Lazy, p: nat)
    requires Inv(l)
    ensures var m := LazyStep(l, Exit(p));
            && Inv(m) && m.procs == l.procs - {p} && SameFiles(l, m)
            && (forall q: Key | q in m.ptes :: q.0 != p) && (forall q: Key | q.0 != p :: SameMapping(l, m, q))
  {
    StepKeepsInv(l, Exit(p));
    ExitEntries(l, p);
    EntriesShow(l, LazyStep(l, Exit(p)), (q: Key) => q.0 == p);
  }

  /** A step whose arguments name nothing, or something already there, changes nothing. */
  predicate Refused(l: Lazy, step: Step) {
    match step
    case NewFile(x, _) => x in l.files
    case Spawn(p) => p in l.procs
    case MapFile(k, x, _) => k.0 !in l.procs || k in l.ptes || x !in l.files
    case MapAnon(k, _) => k.0 !in l.procs || k in l.ptes
    case Fork(p, c) => p !in l.procs || c in l.procs
    case Write(k, i, _) => k !in l.ptes || PAGE_SIZE <= i
    case Unmap(k) => k !in l.ptes
    case Exit(p) => p !in l.procs
  }

  lemma {:induction false} FrameOfNobody(l: Lazy, p: nat, f: nat)
    requires f in l.frames ==> RefsFrom(l.ptes, p, f) == 0 < l.frames[f].refs
    ensures f in ExitFrames(l, p) <==> f in l.frames
    ensures f in l.frames ==> ExitFrames(l, p)[f] == l.frames[f]
  {
  }

  lemma {:induction false} SameFrames(was: map<nat, Frame>, now: map<nat, Frame>)
    requires forall f :: (f in now <==> f in was) && (f in was ==> now[f] == was[f])
    ensures now == was
  {
  }

  lemma {:induction false} NobodysEntries(l: Lazy, p: nat)
    requires Closed(l) && p !in l.procs
    ensures OfProcess(l.ptes, p) == {} && l.ptes - OfProcess(l.ptes, p) == l.ptes && l.procs - {p} == l.procs
    ensures forall f :: RefsFrom(l.ptes, p, f) == 0
  {
    assert OfProcess(l.ptes, p) == {};
    forall f ensures RefsFrom(l.ptes, p, f) == 0 {
      assert OfProcess(l.ptes, p) * KeysOn(l.ptes, f) == {};
    }
  }

  lemma {:induction false} ExitOfNobody(l: Lazy, p: nat)
    requires Inv(l) && p !in l.procs
    ensures LazyStep(l, Exit(p)) == l
  {
    ExitEntries(l, p);
    NobodysEntries(l, p);
    forall f
      ensures (f in ExitFrames(l, p) <==> f in l.frames) && (f in l.frames ==> ExitFrames(l, p)[f] == l.frames[f])
    {
      FrameOfNobody(l, p, f);
    }
    SameFrames(l.frames, ExitFrames(l, p));
  }

  lemma {:induction false} RefusedIsIgnored(l: Lazy, step: Step)
    requires Inv(l) && Refused(l, step)
    ensures LazyStep(l, step) == l
  {
    if step.Exit? {
      ExitOfNobody(l, step.pid);
    } else if step.Spawn? {
      assert l.procs + {step.pid} == l.procs;
    }
  }
}
