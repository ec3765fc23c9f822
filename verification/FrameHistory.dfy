/**
 What becomes of one frame of the copy-on-write machine over a run: whose it is, and whether anything has
 been stored into it.
 */
module FrameHistory {
  import opened CopyOnWrite

  /** The step stores into frame f: through a shared mapping of it, or through the private mapping that
      is all that refers to it. Any other private write copies the page. */
  predicate StoresIn(l: Lazy, step: Step, f: nat) {
    && step.Write? && step.key in l.ptes && step.offset < PAGE_SIZE && l.ptes[step.key].frame == f
    && (l.ptes[step.key].kind == Shared || (KeysOn(l.ptes, f) == {step.key} && FilesOn(l.files, f) == {}))
  }

  lemma {:induction false} OneHolder(l: Lazy, k: Key)
    requires Inv(l) && k in l.ptes
    ensures var f := l.ptes[k].frame;
            l.frames[f].refs == 1 <==> KeysOn(l.ptes, f) == {k} && FilesOn(l.files, f) == {}
  {
    var f := l.ptes[k].frame;
    assert k in KeysOn(l.ptes, f) && KeysOn(l.ptes, f) == {k} + (KeysOn(l.ptes, f) - {k});
    assert l.frames[f].refs == Holders(l.ptes, l.files, f);
  }

  lemma {:induction false} FrameAfterPrivate(l: Lazy, k: Key, i: nat, b: char, f: nat)
    requires Closed(l) && k in l.ptes && i < PAGE_SIZE && f in l.frames
    ensures var m := WritePrivate(l, k, i, b);
            && m.files == l.files
            && (f in m.frames ==>
                  m.frames[f].touched == (l.frames[f].touched || (l.ptes[k].frame == f && l.frames[f].refs == 1)))
  {
  }

  lemma {:induction false} CopyIsOwn(l: Lazy, k: Key, i: nat, b: char)
    requires Closed(l) && k in l.ptes && i < PAGE_SIZE && 1 < l.frames[l.ptes[k].frame].refs
    requires KeysOn(l.ptes, l.next) == {}
    ensures var f, m := l.ptes[k].frame, WritePrivate(l, k, i, b);
            && k in m.ptes && m.ptes[k].frame == l.next && l.next !in l.frames && KeysOn(m.ptes, l.next) == {k}
            && f in m.frames && m.frames.Keys == l.frames.Keys + {l.next} && m.frames[f].data == l.frames[f].data
  {
    var m := WritePrivate(l, k, i, b);
    forall q ensures q in KeysOn(m.ptes, l.next) <==> q == k {
      assert q !in KeysOn(l.ptes, l.next);
    }
  }

  /** A private write copies the page if and only if something else refers to its frame: to a new frame, which
      is the writer's alone, while the old one keeps its contents. Otherwise the frame is written in place. */
  lemma {:induction false} CopiedIffShared(l: Lazy, k: Key, i: nat, b: char)
    requires Inv(l) && k in l.ptes && l.ptes[k].kind == Private && i < PAGE_SIZE
    ensures var f, m := l.ptes[k].frame, LazyStep(l, Write(k, i, b));
            && Inv(m) && k in m.ptes && f in m.frames
            && (m.ptes[k].frame == f <==> KeysOn(l.ptes, f) == {k} && FilesOn(l.files, f) == {})
            && (m.ptes[k].frame == f ==> m.frames.Keys == l.frames.Keys && m.ptes == l.ptes)
            && (m.ptes[k].frame != f ==>
                  && m.ptes[k].frame !in l.frames && KeysOn(m.ptes, m.ptes[k].frame) == {k}
                  && m.frames.Keys == l.frames.Keys + {m.ptes[k].frame} && m.frames[f].data == l.frames[f].data)
  {
    WriteSteps(l, k, i, b);
    StepKeepsInv(l, Write(k, i, b));
    OneHolder(l, k);
    UnusedFrame(l, l.next);
    if l.frames[l.ptes[k].frame].refs != 1 {
      CopyIsOwn(l, k, i, b);
    }
  }

  lemma {:induction false} MoveTouchesNothing(l: Lazy, g: nat, f: nat)
    requires Closed(l) && g in l.frames && f in l.frames
    ensures var m := MovePrivate(l, g);
            m.files == l.files && (f in m.frames ==> m.frames[f].touched == l.frames[f].touched)
  {
  }

  lemma {:induction false} StoreTouches(l: Lazy, g: nat, i: nat, b: char, f: nat)
    requires g in l.frames && i < PAGE_SIZE && f in l.frames
    ensures var m := l.(frames := Store(l.frames, g, i, b));
            m.files == l.files && f in m.frames && m.frames[f].touched == (l.frames[f].touched || f == g)
  {
  }

  lemma {:induction false} FrameAfterShared(l: Lazy, k: Key, i: nat, b: char, f: nat)
    requires Inv(l) && k in l.ptes && l.ptes[k].kind == Shared && i < PAGE_SIZE && f in l.frames
    ensures var m := WriteShared(l, k, i, b);
            && m.files == l.files
            && (f in m.frames ==> m.frames[f].touched == (l.frames[f].touched || l.ptes[k].frame == f))
  {
    var g := l.ptes[k].frame;
    if l.snapshot {
      KeepsMovePrivate(l, k);
      MoveTouchesNothing(l, g, f);
      if f in MovePrivate(l, g).frames {
        StoreTouches(MovePrivate(l, g), g, i, b, f);
      }
    } else {
      StoreTouches(l, g, i, b, f);
    }
  }

  lemma {:induction false} FrameAfterWrite(l: Lazy, k: Key, i: nat, b: char, f: nat)
    requires Inv(l) && k in l.ptes && i < PAGE_SIZE && f in l.frames
    ensures var m := LazyStep(l, Write(k, i, b));
            && m.files == l.files
            && (f in m.frames ==> m.frames[f].touched == (l.frames[f].touched || StoresIn(l, Write(k, i, b), f)))
  {
    WriteSteps(l, k, i, b);
    if l.ptes[k].kind == Private {
      OneHolder(l, k);
      FrameAfterPrivate(l, k, i, b, f);
    } else {
      FrameAfterShared(l, k, i, b, f);
    }
  }

  lemma {:induction false} FrameAfterOther(l: Lazy, step: Step, f: nat)
    requires Closed(l) && f in l.frames && !step.Write?
    ensures var m := LazyStep(l, step);
            f in m.frames ==> m.frames[f].touched == l.frames[f].touched && FilesOn(m.files, f) == FilesOn(l.files, f)
  {
  }

  /** A step touches a frame exactly if it stores into it, and gives it to no file. */
  lemma {:induction false} FrameAfterStep(l: Lazy, step: Step, f: nat)
    requires Inv(l) && f in l.frames
    ensures var m := LazyStep(l, step);
            f in m.frames ==>
              && m.frames[f].touched == (l.frames[f].touched || StoresIn(l, step, f))
              && FilesOn(m.files, f) == FilesOn(l.files, f)
  {
    if !step.Write? {
      FrameAfterOther(l, step, f);
    } else if step.key in l.ptes && step.offset < PAGE_SIZE {
      FrameAfterWrite(l, step.key, step.offset, step.byte, f);
    }
  }

  lemma {:induction false} FreedByStep(l: Lazy, step: Step, f: nat)
    requires Closed(l) && f < l.next && f !in l.frames
    ensures f !in LazyStep(l, step).frames && f < LazyStep(l, step).next
  {
  }

  /** A frame that has been freed does not come back. */
  lemma {:induction false} FreedStaysFreed(l: Lazy, steps: seq<Step>, f: nat)
    requires Inv(l) && f < l.next && f !in l.frames
    ensures f !in LazyRun(l, steps).frames
    decreases |steps|
  {
    if steps != [] {
      StepKeepsInv(l, steps[0]);
      FreedByStep(l, steps[0], f);
      FreedStaysFreed(LazyStep(l, steps[0]), steps[1..], f);
    }
  }

  lemma {:induction false} NextGrows(l: Lazy, step: Step)
    requires Closed(l)
    ensures l.next <= LazyStep(l, step).next
  {
  }

  /** Some step of the run stores into frame f. */
  predicate StoredIn(l: Lazy, steps: seq<Step>, f: nat)
    requires Inv(l)
    decreases |steps|
  {
    steps != [] &&
      (StoresIn(l, steps[0], f) || (StepKeepsInv(l, steps[0]); StoredIn(LazyStep(l, steps[0]), steps[1..], f)))
  }

  /** Over any run, a frame that is still there has been touched if it was at first or if the run stored
      into it, and for no other reason. */
  lemma {:induction false} FrameAfterRun(l: Lazy, steps: seq<Step>, f: nat)
    requires Inv(l) && f in l.frames && f in LazyRun(l, steps).frames
    ensures var m := LazyRun(l, steps);
            && m.frames[f].touched == (l.frames[f].touched || StoredIn(l, steps, f))
            && FilesOn(m.files, f) == FilesOn(l.files, f)
    decreases |steps|
  {
    if steps != [] {
      var m := LazyStep(l, steps[0]);
      StepKeepsInv(l, steps[0]);
      NextGrows(l, steps[0]);
      if f !in m.frames {
        FreedStaysFreed(m, steps[1..], f);
      }
      FrameAfterStep(l, steps[0], f);
      FrameAfterRun(m, steps[1..], f);
    }
  }

  /** Memory mapped anonymously gets a frame of its own, untouched and no file's. */
  lemma {:induction false} AnonFrame(l: Lazy, k: Key, kind: Kind)
    requires Inv(l) && k.0 in l.procs && k !in l.ptes
    ensures var m := LazyStep(l, MapAnon(k, kind));
            && Inv(m) && k in m.ptes && m.ptes[k] == Pte(l.next, kind) && l.next in m.frames
            && !m.frames[l.next].touched && FilesOn(m.files, l.next) == {} && KeysOn(m.ptes, l.next) == {k}
  {
    StepKeepsInv(l, MapAnon(k, kind));
    UnusedFrame(l, l.next);
  }

  /** From its mapping on, over any run, the frame of an anonymous page that is still mapped has been
      touched if and only if the run stored into it, and is no file's. */
  lemma {:induction false} AnonAfterRun(l: Lazy, k: Key, kind: Kind, rest: seq<Step>, q: Key)
    requires Inv(l) && k.0 in l.procs && k !in l.ptes
    requires var end := LazyRun(l, [MapAnon(k, kind)] + rest); q in end.ptes && end.ptes[q].frame == l.next
    ensures var steps := [MapAnon(k, kind)] + rest;
            var end := LazyRun(l, steps);
            && l.next in end.frames && FilesOn(end.files, l.next) == {}
            && end.frames[l.next].touched == StoredIn(l, steps, l.next)
  {
    var steps := [MapAnon(k, kind)] + rest;
    assert steps[1..] == rest;
    AnonFrame(l, k, kind);
    FrameAfterRun(LazyStep(l, MapAnon(k, kind)), rest, l.next);
  }
}
