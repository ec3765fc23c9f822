/**
 What the mapping demos show, as properties of the machine of CopyOnWrite: who sees a write, and what
 becomes of the file.
 */
module MappingEffects {
  import opened CopyOnWrite

  /** A write through a private mapping is seen through that mapping and nowhere else. */
  ghost predicate OnlyWriterSees(l: Lazy, m: Lazy, k: Key, i: nat, b: char)
    requires Closed(l) && Closed(m) && k in l.ptes && i < PAGE_SIZE
  {
    && m.ptes.Keys == l.ptes.Keys && m.files == l.files
    && LazyRead(m, k) == LazyRead(l, k)[i := b]
    && (forall q | q in l.ptes && q != k :: LazyRead(m, q) == LazyRead(l, q))
    && (forall x | x in l.files :: FileBytes(m, x) == FileBytes(l, x))
  }

  lemma {:induction false} CopySeen(l: Lazy, k: Key, i: nat, b: char)
    requires Closed(l) && k in l.ptes && i < PAGE_SIZE && Closed(WritePrivate(l, k, i, b))
    requires l.frames[l.ptes[k].frame].refs == 1 ==> Alone(l, k)
    ensures OnlyWriterSees(l, WritePrivate(l, k, i, b), k, i, b)
  {
  }

  lemma {:induction false} PrivateWriteStaysPrivate(l: Lazy, k: Key, i: nat, b: char)
    requires Inv(l) && k in l.ptes && l.ptes[k].kind == Private && i < PAGE_SIZE
    ensures LazyStep(l, Write(k, i, b)) == WritePrivate(l, k, i, b) && Closed(WritePrivate(l, k, i, b))
    ensures OnlyWriterSees(l, WritePrivate(l, k, i, b), k, i, b)
  {
    WriteSteps(l, k, i, b);
    ReadyToWrite(l, k, i, b);
    CopySeen(l, k, i, b);
  }

  /** Does this step store into the file through a shared mapping of it? */
  predicate StoresInto(l: Lazy, step: Step, x: nat)
    requires Closed(l) && x in l.files
  {
    && step.Write? && step.key in l.ptes && step.offset < PAGE_SIZE
    && l.ptes[step.key] == Pte(l.files[x], Shared)
  }

  /** A write to frame f is seen through every shared mapping of it and in the file it caches, and through
      no shared mapping or file of another frame. */
  ghost predicate AllSharersSee(l: Lazy, m: Lazy, f: nat, i: nat, b: char)
    requires Closed(l) && Closed(m) && i < PAGE_SIZE
  {
    && m.ptes.Keys == l.ptes.Keys && m.files == l.files
    && (forall q | q in l.ptes && l.ptes[q].kind == Shared ::
          && m.ptes[q] == l.ptes[q]
          && LazyRead(m, q) == if l.ptes[q].frame == f then LazyRead(l, q)[i := b] else LazyRead(l, q))
    && (forall x | x in l.files ::
          FileBytes(m, x) == if l.files[x] == f then FileBytes(l, x)[i := b] else FileBytes(l, x))
  }

  lemma {:induction false} StoreSeen(l: Lazy, f: nat, i: nat, b: char)
    requires Closed(l) && f in l.frames && i < PAGE_SIZE
    ensures var m := l.(frames := Store(l.frames, f, i, b));
            Closed(m) && AllSharersSee(l, m, f, i, b)
  {
  }

  /** Moving the private mappings out of the way changes nothing anyone reads. */
  lemma {:induction false} MoveUnseen(l: Lazy, f: nat)
    requires Closed(l) && f in l.frames && Closed(MovePrivate(l, f))
    ensures var m := MovePrivate(l, f);
            && m.ptes.Keys == l.ptes.Keys && m.files == l.files
            && (forall q | q in l.ptes :: LazyRead(m, q) == LazyRead(l, q))
            && (forall q | q in l.ptes && l.ptes[q].kind == Shared :: m.ptes[q] == l.ptes[q])
            && (forall x | x in l.files :: FileBytes(m, x) == FileBytes(l, x))
  {
    if PrivateKeysOn(l.ptes, f) != {} {
      MovedFrames(l, f);
    }
  }

  lemma {:induction false} MoveThenStoreSeen(l: Lazy, f: nat, i: nat, b: char)
    requires Closed(l) && f in l.frames && i < PAGE_SIZE
    requires Closed(MovePrivate(l, f)) && f in MovePrivate(l, f).frames
    ensures var n := MovePrivate(l, f);
            var m := n.(frames := Store(n.frames, f, i, b));
            Closed(m) && AllSharersSee(l, m, f, i, b)
  {
    MoveUnseen(l, f);
    StoreSeen(MovePrivate(l, f), f, i, b);
  }

  lemma {:induction false} SharersRead(l: Lazy, k: Key, i: nat, b: char)
    requires Inv(l) && k in l.ptes && l.ptes[k].kind == Shared && i < PAGE_SIZE
    ensures Closed(WriteShared(l, k, i, b)) && AllSharersSee(l, WriteShared(l, k, i, b), l.ptes[k].frame, i, b)
  {
    if l.snapshot {
      KeepsMovePrivate(l, k);
      MoveThenStoreSeen(l, l.ptes[k].frame, i, b);
    } else {
      StoreSeen(l, l.ptes[k].frame, i, b);
    }
  }

  /** A private mapping that still reads the frame sees the write on a kernel that takes no snapshots, and
      on no other; one that reads another frame never does. */
  ghost predicate PrivateReadersSee(l: Lazy, m: Lazy, f: nat, i: nat, b: char)
    requires Closed(l) && Closed(m) && i < PAGE_SIZE
  {
    forall q | q in l.ptes && l.ptes[q].kind == Private ::
      && q in m.ptes
      && LazyRead(m, q) == if !l.snapshot && l.ptes[q].frame == f then LazyRead(l, q)[i := b] else LazyRead(l, q)
  }

  lemma {:induction false} StoreReaches(l: Lazy, f: nat, i: nat, b: char, q: Key)
    requires Closed(l) && f in l.frames && i < PAGE_SIZE && q in l.ptes
    ensures var m := l.(frames := Store(l.frames, f, i, b));
            Closed(m) && LazyRead(m, q) == if l.ptes[q].frame == f then LazyRead(l, q)[i := b] else LazyRead(l, q)
  {
  }

  lemma {:induction false} MovedAway(l: Lazy, f: nat, q: Key)
    requires Closed(l) && f in l.frames && q in l.ptes && l.ptes[q].kind == Private
    ensures q in MovePrivate(l, f).ptes && MovePrivate(l, f).ptes[q].frame != f
  {
    assert l.ptes[q].frame == f ==> q in PrivateKeysOn(l.ptes, f);
  }

  lemma {:induction false} PrivateReaders(l: Lazy, k: Key, i: nat, b: char, q: Key)
    requires Inv(l) && k in l.ptes && l.ptes[k].kind == Shared && i < PAGE_SIZE
    requires q in l.ptes && l.ptes[q].kind == Private && Closed(WriteShared(l, k, i, b))
    ensures var f, m := l.ptes[k].frame, WriteShared(l, k, i, b);
            && q in m.ptes
            && LazyRead(m, q) == if !l.snapshot && l.ptes[q].frame == f then LazyRead(l, q)[i := b] else LazyRead(l, q)
  {
    var f := l.ptes[k].frame;
    if l.snapshot {
      KeepsMovePrivate(l, k);
      MoveUnseen(l, f);
      MovedAway(l, f, q);
      StoreReaches(MovePrivate(l, f), f, i, b, q);
    } else {
      StoreReaches(l, f, i, b, q);
    }
  }

  lemma {:induction false} SharedWriteReachesAll(l: Lazy, k: Key, i: nat, b: char)
    requires Inv(l) && k in l.ptes && l.ptes[k].kind == Shared && i < PAGE_SIZE
    ensures LazyStep(l, Write(k, i, b)) == WriteShared(l, k, i, b) && Closed(WriteShared(l, k, i, b))
    ensures AllSharersSee(l, WriteShared(l, k, i, b), l.ptes[k].frame, i, b)
    ensures PrivateReadersSee(l, WriteShared(l, k, i, b), l.ptes[k].frame, i, b)
  {
    WriteSteps(l, k, i, b);
    SharersRead(l, k, i, b);
    forall q | q in l.ptes && l.ptes[q].kind == Private
      ensures var f, m := l.ptes[k].frame, WriteShared(l, k, i, b);
              && q in m.ptes
              && LazyRead(m, q) == if !l.snapshot && l.ptes[q].frame == f then LazyRead(l, q)[i := b] else LazyRead(l, q)
    {
      PrivateReaders(l, k, i, b, q);
    }
  }

  lemma {:induction false} FileAfterOtherStep(l: Lazy, step: Step, x: nat)
    requires Closed(l) && x in l.files && !step.Write? && Closed(LazyStep(l, step))
    ensures var m := LazyStep(l, step);
            x in m.files && m.files[x] == l.files[x] && FileBytes(m, x) == FileBytes(l, x)
  {
  }

  /** One step changes a file's page exactly when it is a store through a shared mapping of it. */
  lemma {:induction false} FileAfterStep(l: Lazy, step: Step, x: nat)
    requires Inv(l) && x in l.files
    ensures var m := LazyStep(l, step);
            && Inv(m) && x in m.files && m.files[x] == l.files[x]
            && FileBytes(m, x) ==
               if StoresInto(l, step, x) then FileBytes(l, x)[step.offset := step.byte] else FileBytes(l, x)
  {
    StepKeepsInv(l, step);
    if !step.Write? {
      FileAfterOtherStep(l, step, x);
    } else if step.key in l.ptes && step.offset < PAGE_SIZE {
      if l.ptes[step.key].kind == Private {
        PrivateWriteStaysPrivate(l, step.key, step.offset, step.byte);
      } else {
        SharedWriteReachesAll(l, step.key, step.offset, step.byte);
      }
    }
  }

  predicate NeverStores(l: Lazy, steps: seq<Step>, x: nat)
    requires Inv(l) && x in l.files
    decreases |steps|
  {
    steps != [] ==>
      && !StoresInto(l, steps[0], x)
      && (FileAfterStep(l, steps[0], x); NeverStores(LazyStep(l, steps[0]), steps[1..], x))
  }

  /** Whatever private mappings do, over any run by any processes, the file keeps its bytes. */
  lemma {:induction false} FileKeptByRun(l: Lazy, steps: seq<Step>, x: nat)
    requires Inv(l) && x in l.files && NeverStores(l, steps, x)
    ensures x in LazyRun(l, steps).files && FileBytes(LazyRun(l, steps), x) == FileBytes(l, x)
    decreases |steps|
  {
    if steps != [] {
      FileAfterStep(l, steps[0], x);
      FileKeptByRun(LazyStep(l, steps[0]), steps[1..], x);
    }
  }

  predicate MapsShared(step: Step, x: nat) {
    step.MapFile? && step.file == x && step.kind == Shared
  }

  /** If file x is there, its page is no other file's and is mapped privately alone. */
  ghost predicate MappedPrivately(l: Lazy, x: nat) {
    x in l.files ==>
      && (forall y | y in l.files && l.files[y] == l.files[x] :: y == x)
      && (forall k | k in l.ptes && l.ptes[k].frame == l.files[x] :: l.ptes[k].kind == Private)
  }

  lemma {:induction false} ForkKeepsMappedPrivately(l: Lazy, p: nat, c: nat, x: nat)
    requires Closed(l) && MappedPrivately(l, x)
    ensures MappedPrivately(LazyStep(l, Fork(p, c)), x)
  {
    var m := LazyStep(l, Fork(p, c));
    if p in l.procs && c !in l.procs {
      assert OfProcess(l.ptes, c) == {};
      forall k | k in m.ptes ensures (k in l.ptes && m.ptes[k] == l.ptes[k])
                                  || ((p, k.1) in l.ptes && m.ptes[k] == l.ptes[(p, k.1)])
      {
        InheritMeans(l.ptes, p, c, k);
      }
    }
  }

  lemma {:induction false} StepKeepsMappedPrivately(l: Lazy, step: Step, x: nat)
    requires Closed(l) && MappedPrivately(l, x) && !MapsShared(step, x)
    ensures MappedPrivately(LazyStep(l, step), x)
  {
    if step.Fork? {
      ForkKeepsMappedPrivately(l, step.parent, step.child, x);
    }
  }

  lemma {:induction false} RunKeepsMappedPrivately(l: Lazy, steps: seq<Step>, x: nat)
    requires Inv(l) && MappedPrivately(l, x) && forall step | step in steps :: !MapsShared(step, x)
    ensures MappedPrivately(LazyRun(l, steps), x)
    ensures x in l.files ==> NeverStores(l, steps, x)
    decreases |steps|
  {
    if steps != [] {
      StepKeepsInv(l, steps[0]);
      StepKeepsMappedPrivately(l, steps[0], x);
      if x in l.files {
        FileAfterStep(l, steps[0], x);
      }
      RunKeepsMappedPrivately(LazyStep(l, steps[0]), steps[1..], x);
    }
  }

  /** A file that no step maps shared keeps its bytes from wherever it appears in a run, on every kernel. */
  lemma {:induction false} PrivateFileKept(snapshot: bool, before: seq<Step>, after: seq<Step>, x: nat)
    requires forall step | step in before + after :: !MapsShared(step, x)
    ensures var l := LazyRun(Boot(snapshot), before);
            var m := LazyRun(l, after);
            x in l.files ==> x in m.files && FileBytes(m, x) == FileBytes(l, x)
  {
    var l := LazyRun(Boot(snapshot), before);
    RunKeepsMappedPrivately(Boot(snapshot), before, x);
    RunKeepsMappedPrivately(l, after, x);
    if x in l.files {
      FileKeptByRun(l, after, x);
    }
  }

  lemma {:induction false} InheritedReads(l: Lazy, p: nat, c: nat, v: nat)
    requires Closed(l) && p in l.procs && c !in l.procs && (p, v) in l.ptes
    requires Closed(LazyStep(l, Fork(p, c)))
    ensures var m := LazyStep(l, Fork(p, c));
            && (p, v) in m.ptes && (c, v) in m.ptes && m.ptes[(c, v)] == m.ptes[(p, v)] == l.ptes[(p, v)]
            && LazyRead(m, (c, v)) == LazyRead(m, (p, v)) == LazyRead(l, (p, v))
  {
    assert OfProcess(l.ptes, c) == {};
    InheritMeans(l.ptes, p, c, (p, v));
    InheritMeans(l.ptes, p, c, (c, v));
  }

  /** After fork the child maps what the parent maps and reads what the parent reads, page for page. */
  lemma {:induction false} ChildReadsParent(l: Lazy, p: nat, c: nat, v: nat)
    requires Inv(l) && p in l.procs && c !in l.procs && (p, v) in l.ptes
    ensures var m := LazyStep(l, Fork(p, c));
            && Inv(m) && (p, v) in m.ptes && (c, v) in m.ptes
            && m.ptes[(c, v)] == m.ptes[(p, v)] == l.ptes[(p, v)]
            && LazyRead(m, (c, v)) == LazyRead(m, (p, v)) == LazyRead(l, (p, v))
  {
    StepKeepsInv(l, Fork(p, c));
    InheritedReads(l, p, c, v);
  }

  lemma {:induction false} LeakLater(l: Lazy, steps: seq<Step>)
    requires Inv(l) && steps != [] && Inv(LazyStep(l, steps[0]))
    requires !NeverLeaks(LazyStep(l, steps[0]), steps[1..])
    ensures !NeverLeaks(l, steps)
  {
  }

  /** The refinement has its limit: on a kernel that takes no snapshots, one process mapping a file
      both ways already sees its private mapping change. */
  lemma {:induction false} LeakExample(contents: Page, b: char) returns (steps: seq<Step>)
    requires b != contents[0]
    ensures !NeverLeaks(Boot(false), steps)
    ensures NeverLeaks(Boot(true), steps)
  {
    steps := [NewFile(7, contents), Spawn(1), MapFile((1, 0), 7, Private), MapFile((1, 1), 7, Shared),
              Write((1, 1), 0, b)];
    SnapshotNeverLeaks(Boot(true), steps);
    var l1 := LazyStep(Boot(false), steps[0]);
    StepKeepsInv(Boot(false), steps[0]);
    var l2 := LazyStep(l1, steps[1]);
    StepKeepsInv(l1, steps[1]);
    var l3 := LazyStep(l2, steps[2]);
    StepKeepsInv(l2, steps[2]);
    var l4 := LazyStep(l3, steps[3]);
    StepKeepsInv(l3, steps[3]);
    assert Leaks(l4, steps[4]) by {
      assert (1, 0) in PrivateKeysOn(l4.ptes, l4.ptes[(1, 1)].frame);
    }
    LeakLater(l3, steps[3..]);
    LeakLater(l2, steps[2..]);
    LeakLater(l1, steps[1..]);
    LeakLater(Boot(false), steps);
  }
}
