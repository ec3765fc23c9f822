/**
 Private and shared mappings of files and anonymous memory, fork, and writes, one page at a time.

 Lazy is the machine of the README's copy-on-write section: mappings refer to frames, frames carry
 a stored reference count, and a private mapping's page is copied when it is first written while
 others refer to it. Eager is the meaning: a private mapping owns a copy from the start.

 The kernel is an environment model after the mmap() and fork() descriptions of POSIX.1-2017,
 System Interfaces. Those leave open whether a private mapping that has not been written sees later
 changes to the file; snapshot chooses. A snapshot kernel moves unwritten private mappings to a
 copy before a shared write changes the page, another kernel does not.
 */
module CopyOnWrite {
  const PAGE_SIZE: nat := 16384

  type Page = p: seq<char> | |p| == PAGE_SIZE witness seq(PAGE_SIZE, _ => '\0')

  function ZeroPage(): Page {
    seq(PAGE_SIZE, _ => '\0')
  }

  datatype Kind = Private | Shared

  /** A process and one of its virtual pages. */
  type Key = (nat, nat)

  datatype Step =
    | NewFile(file: nat, contents: Page)
    | Spawn(pid: nat)
    | MapFile(key: Key, file: nat, kind: Kind)
    | MapAnon(key: Key, kind: Kind)
    | Fork(parent: nat, child: nat)
    | Write(key: Key, offset: nat, byte: char)
    | Unmap(key: Key)
    | Exit(pid: nat)

  // The eager meaning

  datatype Cell = Own(data: Page) | Ref(obj: nat)

  datatype Eager = Eager(procs: set<nat>, cells: map<Key, Cell>, objs: map<nat, Page>, files: map<nat, nat>)

  ghost predicate EagerValid(e: Eager) {
    && (forall k | k in e.cells && e.cells[k].Ref? :: e.cells[k].obj in e.objs)
    && (forall f | f in e.files :: e.files[f] in e.objs)
  }

  function OfProcess<V>(m: map<Key, V>, pid: nat): set<Key> {
    set k | k in m && k.0 == pid
  }

  function ChildKeys<V>(m: map<Key, V>, parent: nat, child: nat): (keys: set<Key>)
    ensures forall k | k in keys :: k.0 == child && (parent, k.1) in m
    ensures forall k | k in m && k.0 == parent :: (child, k.1) in keys
  {
    set k | k in OfProcess(m, parent) :: (child, k.1)
  }

  /** The child starts with the parent's entries, page for page. */
  function Inherit<V>(m: map<Key, V>, parent: nat, child: nat): map<Key, V> {
    m + map k | k in ChildKeys(m, parent, child) :: m[(parent, k.1)]
  }

  function EagerWrite(e: Eager, k: Key, i: nat, b: char): Eager
    requires EagerValid(e) && k in e.cells && i < PAGE_SIZE
  {
    match e.cells[k]
    case Own(data) => e.(cells := e.cells[k := Own(data[i := b])])
    case Ref(o) => e.(objs := e.objs[o := e.objs[o][i := b]])
  }

  function EagerMapNew(e: Eager, k: Key, kind: Kind, page: Page, name: nat): Eager {
    if kind == Private then e.(cells := e.cells[k := Own(page)])
    else Eager(e.procs, e.cells[k := Ref(name)], e.objs[name := page], e.files)
  }

  /** One step of the meaning; name is the new object's, should the step make one. A step whose
      arguments name nothing, or something already there, fails and changes nothing. */
  function EagerStep(e: Eager, step: Step, name: nat): Eager
    requires EagerValid(e)
  {
    match step
    case NewFile(f, contents) =>
      if f in e.files then e
      else Eager(e.procs, e.cells, e.objs[name := contents], e.files[f := name])
    case Spawn(p) =>
      e.(procs := e.procs + {p})
    case MapFile(k, f, kind) =>
      if k.0 !in e.procs || k in e.cells || f !in e.files then e
      else e.(cells := e.cells[k := if kind == Private then Own(e.objs[e.files[f]]) else Ref(e.files[f])])
    case MapAnon(k, kind) =>
      if k.0 !in e.procs || k in e.cells then e
      else EagerMapNew(e, k, kind, ZeroPage(), name)
    case Fork(p, c) =>
      if p !in e.procs || c in e.procs then e
      else Eager(e.procs + {c}, Inherit(e.cells, p, c), e.objs, e.files)
    case Write(k, i, b) =>
      if k !in e.cells || PAGE_SIZE <= i then e else EagerWrite(e, k, i, b)
    case Unmap(k) =>
      e.(cells := e.cells - {k})
    case Exit(p) =>
      Eager(e.procs - {p}, e.cells - OfProcess(e.cells, p), e.objs, e.files)
  }

  function EagerRead(e: Eager, k: Key): Page
    requires EagerValid(e) && k in e.cells
  {
    match e.cells[k]
    case Own(data) => data
    case Ref(o) => e.objs[o]
  }

  // The lazy machine

  datatype Pte = Pte(frame: nat, kind: Kind)

  /** touched: has been stored into, or filled by copying. Anonymous memory is mapped untouched. */
  datatype Frame = Frame(data: Page, refs: nat, touched: bool)

  /** A file holds its cached page, so it counts as one reference to the frame. next is the first
      frame number never used. */
  datatype Lazy = Lazy(
    procs: set<nat>, ptes: map<Key, Pte>, frames: map<nat, Frame>, files: map<nat, nat>,
    next: nat, snapshot: bool)

  function KeysOn(ptes: map<Key, Pte>, f: nat): set<Key> {
    set k | k in ptes && ptes[k].frame == f
  }

  function FilesOn(files: map<nat, nat>, f: nat): set<nat> {
    set x | x in files && files[x] == f
  }

  function PrivateKeysOn(ptes: map<Key, Pte>, f: nat): set<Key> {
    set k | k in ptes && ptes[k] == Pte(f, Private)
  }

  /** The recount: everything that refers to a frame. */
  function Holders(ptes: map<Key, Pte>, files: map<nat, nat>, f: nat): nat {
    |KeysOn(ptes, f)| + |FilesOn(files, f)|
  }

  /** No dangling references. */
  ghost predicate Closed(l: Lazy) {
    && (forall k | k in l.ptes :: l.ptes[k].frame in l.frames && k.0 in l.procs)
    && (forall x | x in l.files :: l.files[x] in l.frames)
    && (forall f | f in l.frames :: f < l.next)
  }

  /** Every stored count is the recount, and frames nobody refers to have been freed. */
  ghost predicate Counted(l: Lazy) {
    forall f | f in l.frames :: 0 < l.frames[f].refs == Holders(l.ptes, l.files, f)
  }

  ghost predicate Inv(l: Lazy) {
    Closed(l) && Counted(l)
  }

  /** Give up count references; a frame nobody refers to is freed. */
  function Release(frames: map<nat, Frame>, f: nat, count: nat): map<nat, Frame>
    requires f in frames
  {
    if frames[f].refs <= count then frames - {f}
    else frames[f := frames[f].(refs := frames[f].refs - count)]
  }

  function Retain(frames: map<nat, Frame>, f: nat): map<nat, Frame>
    requires f in frames
  {
    frames[f := frames[f].(refs := frames[f].refs + 1)]
  }

  function Store(frames: map<nat, Frame>, f: nat, i: nat, b: char): map<nat, Frame>
    requires f in frames && i < PAGE_SIZE
  {
    frames[f := Frame(frames[f].data[i := b], frames[f].refs, true)]
  }

  /** Copy-on-write: a private page others refer to is copied first, then written. */
  function WritePrivate(l: Lazy, k: Key, i: nat, b: char): Lazy
    requires Closed(l) && k in l.ptes && i < PAGE_SIZE
  {
    var f := l.ptes[k].frame;
    if l.frames[f].refs == 1 then l.(frames := Store(l.frames, f, i, b))
    else
      var copied := Release(l.frames, f, 1)[l.next := Frame(l.frames[f].data, 1, true)];
      l.(ptes := l.ptes[k := Pte(l.next, Private)], frames := Store(copied, l.next, i, b), next := l.next + 1)
  }

  function Redirect(ptes: map<Key, Pte>, moved: set<Key>, to: nat): map<Key, Pte> {
    map k | k in ptes :: if k in moved then Pte(to, Private) else ptes[k]
  }

  /** A snapshot kernel first moves the private mappings of the frame to a copy of it. */
  function MovePrivate(l: Lazy, f: nat): Lazy
    requires Closed(l) && f in l.frames
  {
    var moved := PrivateKeysOn(l.ptes, f);
    if moved == {} then l
    else
      l.(ptes := Redirect(l.ptes, moved, l.next),
         frames := Release(l.frames, f, |moved|)[l.next := Frame(l.frames[f].data, |moved|, true)],
         next := l.next + 1)
  }

  function WriteShared(l: Lazy, k: Key, i: nat, b: char): Lazy
    requires Closed(l) && k in l.ptes && i < PAGE_SIZE
  {
    var f := l.ptes[k].frame;
    var m := if l.snapshot then MovePrivate(l, f) else l;
    if f in m.frames then m.(frames := Store(m.frames, f, i, b)) else m
  }

  /** How many of a process's mappings refer to a frame. */
  function RefsFrom(ptes: map<Key, Pte>, p: nat, f: nat): nat {
    |OfProcess(ptes, p) * KeysOn(ptes, f)|
  }

  function ForkFrames(l: Lazy, p: nat): map<nat, Frame> {
    map f | f in l.frames :: l.frames[f].(refs := l.frames[f].refs + RefsFrom(l.ptes, p, f))
  }

  function ExitFrames(l: Lazy, p: nat): map<nat, Frame> {
    map f | f in l.frames && RefsFrom(l.ptes, p, f) < l.frames[f].refs
      :: l.frames[f].(refs := l.frames[f].refs - RefsFrom(l.ptes, p, f))
  }

  function MapNew(l: Lazy, k: Key, kind: Kind, page: Page): Lazy {
    l.(ptes := l.ptes[k := Pte(l.next, kind)], frames := l.frames[l.next := Frame(page, 1, false)], next := l.next + 1)
  }

  function LazyStep(l: Lazy, step: Step): Lazy
    requires Closed(l)
  {
    match step
    case NewFile(f, contents) =>
      if f in l.files then l
      else l.(frames := l.frames[l.next := Frame(contents, 1, false)], files := l.files[f := l.next], next := l.next + 1)
    case Spawn(p) =>
      l.(procs := l.procs + {p})
    case MapFile(k, f, kind) =>
      if k.0 !in l.procs || k in l.ptes || f !in l.files then l
      else l.(ptes := l.ptes[k := Pte(l.files[f], kind)], frames := Retain(l.frames, l.files[f]))
    case MapAnon(k, kind) =>
      if k.0 !in l.procs || k in l.ptes then l
      else MapNew(l, k, kind, ZeroPage())
    case Fork(p, c) =>
      if p !in l.procs || c in l.procs then l
      else l.(procs := l.procs + {c}, ptes := Inherit(l.ptes, p, c), frames := ForkFrames(l, p))
    case Write(k, i, b) =>
      if k !in l.ptes || PAGE_SIZE <= i then l
      else if l.ptes[k].kind == Private then WritePrivate(l, k, i, b)
      else WriteShared(l, k, i, b)
    case Unmap(k) =>
      if k !in l.ptes then l
      else l.(ptes := l.ptes - {k}, frames := Release(l.frames, l.ptes[k].frame, 1))
    case Exit(p) =>
      l.(procs := l.procs - {p}, ptes := l.ptes - OfProcess(l.ptes, p), frames := ExitFrames(l, p))
  }

  function LazyRead(l: Lazy, k: Key): Page
    requires Closed(l) && k in l.ptes
  {
    l.frames[l.ptes[k].frame].data
  }

  function FileBytes(l: Lazy, x: nat): Page
    requires Closed(l) && x in l.files
  {
    l.frames[l.files[x]].data
  }

  // Every step keeps the counts

  lemma {:induction false} Relabelled(keys: set<Key>, child: nat, parent: nat)
    requires forall k | k in keys :: k.0 == parent
    ensures |set k | k in keys :: (child, k.1)| == |keys|
  {
    if keys != {} {
      var q :| q in keys;
      var rest := keys - {q};
      Relabelled(rest, child, parent);
      assert (set k | k in keys :: (child, k.1)) == (set k | k in rest :: (child, k.1)) + {(child, q.1)};
      assert (child, q.1) !in (set k | k in rest :: (child, k.1));
    }
  }

  lemma {:induction false} KeysAfterInsert(ptes: map<Key, Pte>, k: Key, pte: Pte, f: nat)
    requires k !in ptes
    ensures |KeysOn(ptes[k := pte], f)| == |KeysOn(ptes, f)| + if pte.frame == f then 1 else 0
  {
    assert KeysOn(ptes[k := pte], f) == KeysOn(ptes, f) + if pte.frame == f then {k} else {};
  }

  lemma {:induction false} KeysAfterRemove(ptes: map<Key, Pte>, gone: set<Key>, f: nat)
    ensures |KeysOn(ptes - gone, f)| == |KeysOn(ptes, f)| - |gone * KeysOn(ptes, f)|
    ensures |gone * KeysOn(ptes, f)| <= |KeysOn(ptes, f)|
  {
    var all := KeysOn(ptes, f);
    assert KeysOn(ptes - gone, f) == all - gone;
    assert all == (all - gone) + (gone * all);
  }

  lemma {:induction false} KeysAfterDrop(ptes: map<Key, Pte>, k: Key, f: nat)
    requires k in ptes
    ensures |KeysOn(ptes - {k}, f)| == |KeysOn(ptes, f)| - if ptes[k].frame == f then 1 else 0
  {
    assert KeysOn(ptes - {k}, f) == KeysOn(ptes, f) - {k};
  }

  lemma {:induction false} KeysAfterReplace(ptes: map<Key, Pte>, k: Key, pte: Pte, f: nat)
    requires k in ptes
    ensures |KeysOn(ptes[k := pte], f)|
         == |KeysOn(ptes, f)| - (if ptes[k].frame == f then 1 else 0) + if pte.frame == f then 1 else 0
  {
    KeysAfterDrop(ptes, k, f);
    KeysAfterInsert(ptes - {k}, k, pte, f);
    assert ptes[k := pte] == (ptes - {k})[k := pte];
  }

  lemma {:induction false} KeysAfterRedirect(ptes: map<Key, Pte>, g: nat, to: nat, f: nat)
    requires g != to && KeysOn(ptes, to) == {}
    ensures |PrivateKeysOn(ptes, g)| <= |KeysOn(ptes, g)|
    ensures |KeysOn(Redirect(ptes, PrivateKeysOn(ptes, g), to), f)| ==
              if f == to then |PrivateKeysOn(ptes, g)|
              else if f == g then |KeysOn(ptes, g)| - |PrivateKeysOn(ptes, g)|
              else |KeysOn(ptes, f)|
  {
    var moved, after := PrivateKeysOn(ptes, g), KeysOn(Redirect(ptes, PrivateKeysOn(ptes, g), to), f);
    assert KeysOn(ptes, g) == (KeysOn(ptes, g) - moved) + moved;
    if f == to {
      assert forall k | k in ptes && ptes[k].frame == to :: k in KeysOn(ptes, to);
      assert after == moved;
    } else if f == g {
      assert after == KeysOn(ptes, g) - moved;
    } else {
      assert after == KeysOn(ptes, f);
    }
  }

  lemma {:induction false} InheritMeans<V>(m: map<Key, V>, p: nat, c: nat, k: Key)
    requires OfProcess(m, c) == {}
    ensures k in Inherit(m, p, c) <==> k in m || (k.0 == c && (p, k.1) in m)
    ensures k in m ==> k.0 != c && Inherit(m, p, c)[k] == m[k]
    ensures k.0 == c && (p, k.1) in m ==> Inherit(m, p, c)[k] == m[(p, k.1)]
  {
    assert k !in OfProcess(m, c);
    if k.0 == c && (p, k.1) in m {
      assert (p, k.1).0 == p;
    }
  }

  lemma {:induction false} KeysAfterFork(ptes: map<Key, Pte>, p: nat, c: nat, f: nat)
    requires OfProcess(ptes, c) == {}
    ensures |KeysOn(Inherit(ptes, p, c), f)| == |KeysOn(ptes, f)| + RefsFrom(ptes, p, f)
  {
    var mine := OfProcess(ptes, p) * KeysOn(ptes, f);
    var hers := set k | k in mine :: (c, k.1);
    Relabelled(mine, c, p);
    var after := KeysOn(Inherit(ptes, p, c), f);
    forall k
      ensures k in KeysOn(ptes, f) ==> k.0 != c
      ensures k in hers ==> k.0 == c
      ensures k in after <==> k in KeysOn(ptes, f) || k in hers
    {
      InheritMeans(ptes, p, c, k);
      if k.0 == c && (p, k.1) in mine {
        assert k == (c, (p, k.1).1);
      }
    }
    assert after == KeysOn(ptes, f) + hers;
    assert KeysOn(ptes, f) !! hers;
  }

  lemma {:induction false} FilesAfterInsert(files: map<nat, nat>, x: nat, to: nat, f: nat)
    requires x !in files
    ensures |FilesOn(files[x := to], f)| == |FilesOn(files, f)| + if to == f then 1 else 0
  {
    assert FilesOn(files[x := to], f) == FilesOn(files, f) + if to == f then {x} else {};
  }

  /** Nothing refers to a frame number that is not in use. */
  lemma {:induction false} UnusedFrame(l: Lazy, f: nat)
    requires Inv(l) && f !in l.frames
    ensures KeysOn(l.ptes, f) == {} && FilesOn(l.files, f) == {}
  {
  }

  /** A new frame with one holder, made by a step that adds that holder. */
  lemma {:induction false} KeepsNewFile(l: Lazy, x: nat, contents: Page)
    requires Inv(l)
    ensures Inv(LazyStep(l, NewFile(x, contents)))
  {
    var m := LazyStep(l, NewFile(x, contents));
    if x !in l.files {
      UnusedFrame(l, l.next);
      forall f | f in m.frames ensures f < m.next && 0 < m.frames[f].refs == Holders(m.ptes, m.files, f) {
        FilesAfterInsert(l.files, x, l.next, f);
      }
    }
  }

  lemma {:induction false} KeepsMap(l: Lazy, step: Step)
    requires Inv(l) && (step.MapFile? || step.MapAnon?)
    ensures Inv(LazyStep(l, step))
  {
    var m := LazyStep(l, step);
    if m != l {
      UnusedFrame(l, l.next);
      forall f | f in m.frames ensures f < m.next && 0 < m.frames[f].refs == Holders(m.ptes, m.files, f) {
        KeysAfterInsert(l.ptes, step.key, m.ptes[step.key], f);
      }
    }
  }

  lemma {:induction false} ForkIsClosed(l: Lazy, p: nat, c: nat)
    requires Closed(l) && p in l.procs && c !in l.procs
    ensures Closed(LazyStep(l, Fork(p, c))) && OfProcess(l.ptes, c) == {}
  {
    var m := LazyStep(l, Fork(p, c));
    assert OfProcess(l.ptes, c) == {};
    forall k | k in m.ptes ensures m.ptes[k].frame in m.frames && k.0 in m.procs {
      InheritMeans(l.ptes, p, c, k);
    }
  }

  lemma {:induction false} ForkIsCounted(l: Lazy, p: nat, c: nat, f: nat)
    requires Inv(l) && OfProcess(l.ptes, c) == {} && f in l.frames
    ensures 0 < ForkFrames(l, p)[f].refs == Holders(Inherit(l.ptes, p, c), l.files, f)
  {
    KeysAfterFork(l.ptes, p, c, f);
  }

  lemma {:induction false} KeepsFork(l: Lazy, p: nat, c: nat)
    requires Inv(l)
    ensures Inv(LazyStep(l, Fork(p, c)))
  {
    var m := LazyStep(l, Fork(p, c));
    if p in l.procs && c !in l.procs {
      ForkIsClosed(l, p, c);
      forall f | f in m.frames ensures 0 < m.frames[f].refs == Holders(m.ptes, m.files, f) {
        ForkIsCounted(l, p, c, f);
      }
    }
  }

  /** A step that only drops mappings: it has to free a frame exactly when no holder is left. */
  lemma {:induction false} KeepsDrop(l: Lazy, m: Lazy)
    requires Inv(l) && m.files == l.files && m.next == l.next && m.frames.Keys <= l.frames.Keys
    requires forall k | k in m.ptes :: k in l.ptes && m.ptes[k] == l.ptes[k] && k.0 in m.procs
    requires forall f | f in l.frames ::
               if Holders(m.ptes, m.files, f) == 0 then f !in m.frames
               else f in m.frames && m.frames[f].refs == Holders(m.ptes, m.files, f)
    ensures Inv(m)
  {
    forall k | k in m.ptes ensures m.ptes[k].frame in m.frames {
      assert k in KeysOn(m.ptes, m.ptes[k].frame);
    }
    forall x | x in m.files ensures m.files[x] in m.frames {
      assert x in FilesOn(m.files, m.files[x]);
    }
  }

  lemma {:induction false} KeepsUnmap(l: Lazy, k: Key)
    requires Inv(l)
    ensures Inv(LazyStep(l, Unmap(k)))
  {
    var m := LazyStep(l, Unmap(k));
    if k in l.ptes {
      forall f | f in l.frames
        ensures if Holders(m.ptes, m.files, f) == 0 then f !in m.frames
                else f in m.frames && m.frames[f].refs == Holders(m.ptes, m.files, f)
      {
        KeysAfterDrop(l.ptes, k, f);
      }
      KeepsDrop(l, m);
    }
  }

  lemma {:induction false} KeepsExit(l: Lazy, p: nat)
    requires Inv(l)
    ensures Inv(LazyStep(l, Exit(p)))
  {
    var m := LazyStep(l, Exit(p));
    forall f | f in l.frames
      ensures if Holders(m.ptes, m.files, f) == 0 then f !in m.frames
              else f in m.frames && m.frames[f].refs == Holders(m.ptes, m.files, f)
    {
      KeysAfterRemove(l.ptes, OfProcess(l.ptes, p), f);
    }
    KeepsDrop(l, m);
  }

  /** Copying a private page away moves exactly one holder to the new frame. */
  lemma {:induction false} KeepsWritePrivate(l: Lazy, k: Key, i: nat, b: char)
    requires Inv(l) && k in l.ptes && i < PAGE_SIZE
    ensures Inv(WritePrivate(l, k, i, b))
  {
    var m := WritePrivate(l, k, i, b);
    var g := l.ptes[k].frame;
    if l.frames[g].refs != 1 {
      UnusedFrame(l, l.next);
      forall f | f in m.frames ensures f < m.next && 0 < m.frames[f].refs == Holders(m.ptes, m.files, f) {
        KeysAfterReplace(l.ptes, k, Pte(l.next, Private), f);
      }
    }
  }

  /** Moving the private mappings away, seen at one frame. */
  lemma {:induction false} CountAfterMove(l: Lazy, g: nat, f: nat)
    requires Inv(l) && g in l.frames && f in MovePrivate(l, g).frames
    ensures var m := MovePrivate(l, g);
            f < m.next && 0 < m.frames[f].refs == Holders(m.ptes, m.files, f)
  {
    if PrivateKeysOn(l.ptes, g) == {} {
      assert Holders(l.ptes, l.files, f) == l.frames[f].refs;
    } else {
      UnusedFrame(l, l.next);
      KeysAfterRedirect(l.ptes, g, l.next, f);
    }
  }

  lemma {:induction false} SharedStays(l: Lazy, k: Key)
    requires Closed(l) && k in l.ptes && l.ptes[k].kind == Shared
    ensures var m := MovePrivate(l, l.ptes[k].frame);
            k in m.ptes && m.ptes[k] == l.ptes[k] && PrivateKeysOn(m.ptes, l.ptes[k].frame) == {}
  {
    assert k !in PrivateKeysOn(l.ptes, l.ptes[k].frame);
  }

  lemma {:induction false} FrameStays(l: Lazy, k: Key)
    requires Inv(l) && k in l.ptes && l.ptes[k].kind == Shared
    ensures |PrivateKeysOn(l.ptes, l.ptes[k].frame)| < l.frames[l.ptes[k].frame].refs
  {
    var g := l.ptes[k].frame;
    assert k in KeysOn(l.ptes, g) - PrivateKeysOn(l.ptes, g);
    assert KeysOn(l.ptes, g) == (KeysOn(l.ptes, g) - PrivateKeysOn(l.ptes, g)) + PrivateKeysOn(l.ptes, g);
    assert l.frames[g].refs == Holders(l.ptes, l.files, g);
  }

  lemma {:induction false} MoveKeepsClosed(l: Lazy, f: nat)
    requires Closed(l) && f in l.frames && |PrivateKeysOn(l.ptes, f)| < l.frames[f].refs
    ensures Closed(MovePrivate(l, f))
  {
  }

  lemma {:induction false} KeepsMovePrivate(l: Lazy, k: Key)
    requires Inv(l) && k in l.ptes && l.ptes[k].kind == Shared
    ensures var m := MovePrivate(l, l.ptes[k].frame);
            && Inv(m) && k in m.ptes && m.ptes[k] == l.ptes[k]
            && PrivateKeysOn(m.ptes, l.ptes[k].frame) == {}
  {
    var g := l.ptes[k].frame;
    SharedStays(l, k);
    FrameStays(l, k);
    MoveKeepsClosed(l, g);
    forall f | f in MovePrivate(l, g).frames
      ensures var m := MovePrivate(l, g);
              0 < m.frames[f].refs == Holders(m.ptes, m.files, f)
    {
      CountAfterMove(l, g, f);
    }
  }

  lemma {:induction false} KeepsStore(l: Lazy, f: nat, i: nat, b: char)
    requires Inv(l) && f in l.frames && i < PAGE_SIZE
    ensures Inv(l.(frames := Store(l.frames, f, i, b)))
  {
  }

  lemma {:induction false} KeepsWriteShared(l: Lazy, k: Key, i: nat, b: char)
    requires Inv(l) && k in l.ptes && l.ptes[k].kind == Shared && i < PAGE_SIZE
    ensures Inv(WriteShared(l, k, i, b))
  {
    var g := l.ptes[k].frame;
    if l.snapshot {
      KeepsMovePrivate(l, k);
      KeepsStore(MovePrivate(l, g), g, i, b);
    } else {
      KeepsStore(l, g, i, b);
    }
  }

  /** Every step keeps every stored reference count equal to the recount, and frees exactly the
      frames nobody refers to. */
  lemma {:induction false} StepKeepsInv(l: Lazy, step: Step)
    requires Inv(l)
    ensures Inv(LazyStep(l, step))
  {
    match step
    case NewFile(x, contents) => KeepsNewFile(l, x, contents);
    case Spawn(p) =>
    case MapFile(k, x, kind) => KeepsMap(l, step);
    case MapAnon(k, kind) => KeepsMap(l, step);
    case Fork(p, c) => KeepsFork(l, p, c);
    case Write(k, i, b) =>
      if k in l.ptes && i < PAGE_SIZE {
        if l.ptes[k].kind == Private {
          KeepsWritePrivate(l, k, i, b);
        } else {
          KeepsWriteShared(l, k, i, b);
        }
      }
    case Unmap(k) => KeepsUnmap(l, k);
    case Exit(p) => KeepsExit(l, p);
  }

  // Refinement

  ghost predicate CellMatches(l: Lazy, e: Eager, k: Key)
    requires Closed(l) && k in l.ptes && k in e.cells
  {
    var f := l.ptes[k].frame;
    match l.ptes[k].kind
    case Private => e.cells[k] == Own(l.frames[f].data)
    case Shared => e.cells[k] == Ref(f) && f in e.objs && e.objs[f] == l.frames[f].data
  }

  /** The two states mean the same: shared objects go by the number of their frame, and a private
      mapping's page is the copy the eager model made when it was mapped. */
  ghost predicate Refines(l: Lazy, e: Eager)
    requires Closed(l)
  {
    && l.procs == e.procs && l.files == e.files && l.ptes.Keys == e.cells.Keys
    && (forall k | k in l.ptes :: CellMatches(l, e, k))
    && (forall x | x in l.files :: l.files[x] in e.objs && e.objs[l.files[x]] == l.frames[l.files[x]].data)
    && (forall o | o in e.objs :: o < l.next)
  }

  /** A shared write that changes a page some private mapping still reads from the same frame. */
  predicate Leaks(l: Lazy, step: Step)
    requires Closed(l)
  {
    && step.Write? && step.key in l.ptes && step.offset < PAGE_SIZE
    && l.ptes[step.key].kind == Shared && !l.snapshot
    && var f := l.ptes[step.key].frame;
       PrivateKeysOn(l.ptes, f) != {} && l.frames[f].data[step.offset] != step.byte
  }

  /** No other mapping, and no file, refers to this mapping's frame. */
  ghost predicate Alone(l: Lazy, k: Key)
    requires k in l.ptes
  {
    && (forall q | q in l.ptes && q != k :: l.ptes[q].frame != l.ptes[k].frame)
    && (forall x | x in l.files :: l.files[x] != l.ptes[k].frame)
  }

  /** One reference means one holder: the frame that is written in place has no other reader. */
  lemma {:induction false} SoleHolder(l: Lazy, k: Key)
    requires Inv(l) && k in l.ptes && l.frames[l.ptes[k].frame].refs == 1
    ensures Alone(l, k)
  {
    var f := l.ptes[k].frame;
    assert k in KeysOn(l.ptes, f);
    assert |KeysOn(l.ptes, f) - {k}| == 0;
    forall q | q in l.ptes && q != k ensures l.ptes[q].frame != f {
      assert q in KeysOn(l.ptes, f) ==> q in KeysOn(l.ptes, f) - {k};
    }
    forall x | x in l.files ensures l.files[x] != f {
      assert x in FilesOn(l.files, l.files[x]);
    }
  }

  lemma {:induction false} ReadyToWrite(l: Lazy, k: Key, i: nat, b: char)
    requires Inv(l) && k in l.ptes && i < PAGE_SIZE
    ensures Closed(WritePrivate(l, k, i, b))
    ensures l.frames[l.ptes[k].frame].refs == 1 ==> Alone(l, k)
  {
    KeepsWritePrivate(l, k, i, b);
    if l.frames[l.ptes[k].frame].refs == 1 {
      SoleHolder(l, k);
    }
  }

  /** A frame and an object nobody knew, and perhaps a file that is kept there. */
  lemma {:induction false} NewFrameRefines(l: Lazy, e: Eager, frame: Frame, files: map<nat, nat>)
    requires Closed(l) && Refines(l, e)
    requires forall x | x in files :: files[x] == l.next || (x in l.files && files[x] == l.files[x])
    requires Closed(Lazy(l.procs, l.ptes, l.frames[l.next := frame], files, l.next + 1, l.snapshot))
    ensures Refines(Lazy(l.procs, l.ptes, l.frames[l.next := frame], files, l.next + 1, l.snapshot),
                    Eager(e.procs, e.cells, e.objs[l.next := frame.data], files))
  {
    var m := Lazy(l.procs, l.ptes, l.frames[l.next := frame], files, l.next + 1, l.snapshot);
    var d := Eager(e.procs, e.cells, e.objs[l.next := frame.data], files);
    forall k | k in m.ptes ensures CellMatches(m, d, k) {
      assert CellMatches(l, e, k);
    }
  }

  lemma {:induction false} NewFileSteps(l: Lazy, e: Eager, x: nat, contents: Page)
    requires Closed(l) && EagerValid(e) && x !in l.files && x !in e.files
    ensures var frames := l.frames[l.next := Frame(contents, 1, false)];
            LazyStep(l, NewFile(x, contents))
              == Lazy(l.procs, l.ptes, frames, l.files[x := l.next], l.next + 1, l.snapshot)
    ensures EagerStep(e, NewFile(x, contents), l.next)
         == Eager(e.procs, e.cells, e.objs[l.next := contents], e.files[x := l.next])
  {
  }

  lemma {:induction false} NewFileRefines(l: Lazy, e: Eager, x: nat, contents: Page)
    requires Closed(l) && Refines(l, e) && EagerValid(e) && Closed(LazyStep(l, NewFile(x, contents)))
    ensures Refines(LazyStep(l, NewFile(x, contents)), EagerStep(e, NewFile(x, contents), l.next))
  {
    if x !in l.files {
      NewFileSteps(l, e, x, contents);
      NewFrameRefines(l, e, Frame(contents, 1, false), l.files[x := l.next]);
    }
  }

  lemma {:induction false} MapFileRefines(l: Lazy, e: Eager, k: Key, x: nat, kind: Kind)
    requires Closed(l) && Refines(l, e) && EagerValid(e) && Closed(LazyStep(l, MapFile(k, x, kind)))
    ensures Refines(LazyStep(l, MapFile(k, x, kind)), EagerStep(e, MapFile(k, x, kind), l.next))
  {
  }

  /** A frame nobody knew, for no object. */
  lemma {:induction false} SpareFrameRefines(l: Lazy, e: Eager, frame: Frame)
    requires Closed(l) && Refines(l, e)
    ensures var m := Lazy(l.procs, l.ptes, l.frames[l.next := frame], l.files, l.next + 1, l.snapshot);
            Closed(m) && Refines(m, e)
  {
    var m := Lazy(l.procs, l.ptes, l.frames[l.next := frame], l.files, l.next + 1, l.snapshot);
    forall q | q in m.ptes ensures CellMatches(m, e, q) {
      assert CellMatches(l, e, q);
    }
  }

  lemma {:induction false} NewEntryRefines(l: Lazy, e: Eager, k: Key, pte: Pte, cell: Cell)
    requires Closed(l) && Refines(l, e) && k !in l.ptes && k.0 in l.procs && pte.frame in l.frames
    requires cell == if pte.kind == Private then Own(l.frames[pte.frame].data) else Ref(pte.frame)
    requires pte.kind == Shared ==> pte.frame in e.objs && e.objs[pte.frame] == l.frames[pte.frame].data
    ensures var m := Lazy(l.procs, l.ptes[k := pte], l.frames, l.files, l.next, l.snapshot);
            Closed(m) && Refines(m, Eager(e.procs, e.cells[k := cell], e.objs, e.files))
  {
    var m := Lazy(l.procs, l.ptes[k := pte], l.frames, l.files, l.next, l.snapshot);
    var d := Eager(e.procs, e.cells[k := cell], e.objs, e.files);
    forall q | q in m.ptes ensures q in d.cells && CellMatches(m, d, q) {
      assert q in l.ptes ==> CellMatches(l, e, q);
    }
  }

  lemma {:induction false} MapPrivateRefines(l: Lazy, e: Eager, k: Key, page: Page)
    requires Closed(l) && Refines(l, e) && k !in l.ptes && k.0 in l.procs
    ensures var frames := l.frames[l.next := Frame(page, 1, false)];
            var m := Lazy(l.procs, l.ptes[k := Pte(l.next, Private)], frames, l.files, l.next + 1, l.snapshot);
            Closed(m) && Refines(m, Eager(e.procs, e.cells[k := Own(page)], e.objs, e.files))
  {
    var frame := Frame(page, 1, false);
    var m := Lazy(l.procs, l.ptes, l.frames[l.next := frame], l.files, l.next + 1, l.snapshot);
    SpareFrameRefines(l, e, frame);
    NewEntryRefines(m, e, k, Pte(l.next, Private), Own(page));
  }

  lemma {:induction false} MapSharedRefines(l: Lazy, e: Eager, k: Key, page: Page)
    requires Closed(l) && Refines(l, e) && k !in l.ptes && k.0 in l.procs
    ensures var frames := l.frames[l.next := Frame(page, 1, false)];
            var m := Lazy(l.procs, l.ptes[k := Pte(l.next, Shared)], frames, l.files, l.next + 1, l.snapshot);
            Closed(m) && Refines(m, Eager(e.procs, e.cells[k := Ref(l.next)], e.objs[l.next := page], e.files))
  {
    var frame := Frame(page, 1, false);
    var m := Lazy(l.procs, l.ptes, l.frames[l.next := frame], l.files, l.next + 1, l.snapshot);
    NewFrameRefines(l, e, frame, l.files);
    NewEntryRefines(m, Eager(e.procs, e.cells, e.objs[l.next := page], e.files), k, Pte(l.next, Shared), Ref(l.next));
  }

  lemma {:induction false} MapNewRefines(l: Lazy, e: Eager, k: Key, kind: Kind, page: Page)
    requires Closed(l) && Refines(l, e) && EagerValid(e) && k !in l.ptes && k.0 in l.procs
    ensures Closed(MapNew(l, k, kind, page))
    ensures Refines(MapNew(l, k, kind, page), EagerMapNew(e, k, kind, page, l.next))
  {
    if kind == Private {
      MapPrivateRefines(l, e, k, page);
    } else {
      MapSharedRefines(l, e, k, page);
    }
  }

  lemma {:induction false} ForkRefines(l: Lazy, e: Eager, p: nat, c: nat)
    requires Closed(l) && Refines(l, e) && EagerValid(e) && Closed(LazyStep(l, Fork(p, c)))
    ensures Refines(LazyStep(l, Fork(p, c)), EagerStep(e, Fork(p, c), l.next))
  {
    var step := Fork(p, c);
    var m, d := LazyStep(l, step), EagerStep(e, step, l.next);
    if p in l.procs && c !in l.procs {
      assert OfProcess(l.ptes, c) == {} && OfProcess(e.cells, c) == {};
      forall k
        ensures k in m.ptes <==> k in d.cells
        ensures k in m.ptes ==> CellMatches(m, d, k)
      {
        InheritMeans(l.ptes, p, c, k);
        InheritMeans(e.cells, p, c, k);
        if k in m.ptes {
          assert CellMatches(l, e, if k in l.ptes then k else (p, k.1));
        }
      }
    }
  }

  /** Dropping mappings, and freeing or recounting frames, changes nothing for those that stay. */
  lemma {:induction false} DropRefines(l: Lazy, e: Eager, procs: set<nat>, gone: set<Key>, frames: map<nat, Frame>)
    requires Closed(l) && Refines(l, e)
    requires forall f | f in frames :: f in l.frames && frames[f].data == l.frames[f].data
    requires Closed(Lazy(procs, l.ptes - gone, frames, l.files, l.next, l.snapshot))
    ensures Refines(Lazy(procs, l.ptes - gone, frames, l.files, l.next, l.snapshot),
                    Eager(procs, e.cells - gone, e.objs, e.files))
  {
    forall q | q in l.ptes - gone
      ensures CellMatches(Lazy(procs, l.ptes - gone, frames, l.files, l.next, l.snapshot),
                          Eager(procs, e.cells - gone, e.objs, e.files), q)
    {
      assert CellMatches(l, e, q);
    }
  }

  lemma {:induction false} UnmapRefines(l: Lazy, e: Eager, k: Key)
    requires Closed(l) && Refines(l, e) && EagerValid(e) && Closed(LazyStep(l, Unmap(k)))
    ensures Refines(LazyStep(l, Unmap(k)), EagerStep(e, Unmap(k), l.next))
  {
    if k in l.ptes {
      DropRefines(l, e, l.procs, {k}, Release(l.frames, l.ptes[k].frame, 1));
    } else {
      assert e.cells - {k} == e.cells;
    }
  }

  lemma {:induction false} SameOwners(ptes: map<Key, Pte>, cells: map<Key, Cell>, p: nat)
    requires ptes.Keys == cells.Keys
    ensures OfProcess(ptes, p) == OfProcess(cells, p)
  {
    assert forall k :: k in ptes <==> k in ptes.Keys;
    assert forall k :: k in cells <==> k in cells.Keys;
  }

  /** What exit makes of either machine. */
  lemma {:induction false} ExitSteps(l: Lazy, e: Eager, p: nat)
    requires Closed(l) && EagerValid(e)
    ensures var m := LazyStep(l, Exit(p));
            && m == Lazy(l.procs - {p}, l.ptes - OfProcess(l.ptes, p), m.frames, l.files, l.next, l.snapshot)
            && (forall f | f in m.frames :: f in l.frames && m.frames[f].data == l.frames[f].data)
    ensures EagerStep(e, Exit(p), l.next) == Eager(e.procs - {p}, e.cells - OfProcess(e.cells, p), e.objs, e.files)
  {
  }

  lemma {:induction false} ExitRefines(l: Lazy, e: Eager, p: nat)
    requires Closed(l) && Refines(l, e) && EagerValid(e) && Closed(LazyStep(l, Exit(p)))
    ensures Refines(LazyStep(l, Exit(p)), EagerStep(e, Exit(p), l.next))
  {
    SameOwners(l.ptes, e.cells, p);
    ExitSteps(l, e, p);
    DropRefines(l, e, l.procs - {p}, OfProcess(l.ptes, p), LazyStep(l, Exit(p)).frames);
  }

  /** What a write to a private mapping means: its own copy changes. */
  lemma {:induction false} OwnWrite(l: Lazy, e: Eager, k: Key, i: nat, b: char)
    requires Closed(l) && Refines(l, e) && EagerValid(e)
    requires k in l.ptes && i < PAGE_SIZE && l.ptes[k].kind == Private
    ensures EagerWrite(e, k, i, b) == e.(cells := e.cells[k := Own(l.frames[l.ptes[k].frame].data[i := b])])
  {
    assert CellMatches(l, e, k);
  }

  lemma {:induction false} InPlaceRefines(l: Lazy, e: Eager, k: Key, i: nat, b: char)
    requires Closed(l) && Refines(l, e) && EagerValid(e)
    requires k in l.ptes && i < PAGE_SIZE && l.ptes[k].kind == Private && Alone(l, k)
    ensures var m := l.(frames := Store(l.frames, l.ptes[k].frame, i, b));
            Closed(m) && Refines(m, EagerWrite(e, k, i, b))
  {
    var m := l.(frames := Store(l.frames, l.ptes[k].frame, i, b));
    var d := e.(cells := e.cells[k := Own(l.frames[l.ptes[k].frame].data[i := b])]);
    OwnWrite(l, e, k, i, b);
    forall q | q in m.ptes ensures q in d.cells && CellMatches(m, d, q) {
      assert CellMatches(l, e, q);
    }
  }

  /** frames is old with a new frame of this content, and perhaps a freed or recounted one. */
  ghost predicate Extends(was: map<nat, Frame>, frames: map<nat, Frame>, next: nat, data: Page) {
    && next in frames && frames[next].data == data
    && (forall f | f in frames && f != next :: f in was && frames[f].data == was[f].data)
  }

  /** Some private mappings go to a new frame; the frames of the others keep their contents. */
  lemma {:induction false} RedirectRefines(
      l: Lazy, e: Eager, moved: set<Key>, data: Page,
      ptes: map<Key, Pte>, frames: map<nat, Frame>, cells: map<Key, Cell>)
    requires Closed(l) && Refines(l, e)
    requires ptes.Keys == l.ptes.Keys == cells.Keys && Extends(l.frames, frames, l.next, data)
    requires forall q | q in ptes ::
               if q in moved then ptes[q] == Pte(l.next, Private) && cells[q] == Own(data)
               else ptes[q] == l.ptes[q] && cells[q] == e.cells[q]
    requires Closed(Lazy(l.procs, ptes, frames, l.files, l.next + 1, l.snapshot))
    ensures Refines(Lazy(l.procs, ptes, frames, l.files, l.next + 1, l.snapshot),
                    Eager(e.procs, cells, e.objs, e.files))
  {
    var m := Lazy(l.procs, ptes, frames, l.files, l.next + 1, l.snapshot);
    var d := Eager(e.procs, cells, e.objs, e.files);
    forall q | q in ptes ensures CellMatches(m, d, q) {
      assert CellMatches(l, e, q);
    }
  }

  lemma {:induction false} CopiedFrames(l: Lazy, k: Key, i: nat, b: char)
    requires Closed(l) && k in l.ptes && i < PAGE_SIZE && l.frames[l.ptes[k].frame].refs != 1
    ensures var m := WritePrivate(l, k, i, b);
            && m.ptes == l.ptes[k := Pte(l.next, Private)]
            && m == Lazy(l.procs, m.ptes, m.frames, l.files, l.next + 1, l.snapshot)
            && Extends(l.frames, m.frames, l.next, l.frames[l.ptes[k].frame].data[i := b])
  {
  }

  lemma {:induction false} CopiedRefines(l: Lazy, e: Eager, k: Key, data: Page, m: Lazy)
    requires Closed(l) && Refines(l, e) && k in l.ptes && Closed(m)
    requires m == Lazy(l.procs, l.ptes[k := Pte(l.next, Private)], m.frames, l.files, l.next + 1, l.snapshot)
    requires Extends(l.frames, m.frames, l.next, data)
    ensures Refines(m, e.(cells := e.cells[k := Own(data)]))
  {
    RedirectRefines(l, e, {k}, data, m.ptes, m.frames, e.cells[k := Own(data)]);
  }

  lemma {:induction false} CopyRefines(l: Lazy, e: Eager, k: Key, i: nat, b: char)
    requires Closed(l) && Refines(l, e) && EagerValid(e)
    requires k in l.ptes && i < PAGE_SIZE && l.ptes[k].kind == Private && l.frames[l.ptes[k].frame].refs != 1
    requires Closed(WritePrivate(l, k, i, b))
    ensures Refines(WritePrivate(l, k, i, b), EagerWrite(e, k, i, b))
  {
    OwnWrite(l, e, k, i, b);
    CopiedFrames(l, k, i, b);
    CopiedRefines(l, e, k, l.frames[l.ptes[k].frame].data[i := b], WritePrivate(l, k, i, b));
  }

  lemma {:induction false} MovedFrames(l: Lazy, f: nat)
    requires Closed(l) && f in l.frames && PrivateKeysOn(l.ptes, f) != {}
    ensures var m := MovePrivate(l, f);
            && m.ptes == Redirect(l.ptes, PrivateKeysOn(l.ptes, f), l.next)
            && m == Lazy(l.procs, m.ptes, m.frames, l.files, l.next + 1, l.snapshot)
            && Extends(l.frames, m.frames, l.next, l.frames[f].data)
  {
  }

  lemma {:induction false} PrivateCells(l: Lazy, e: Eager, f: nat)
    requires Closed(l) && Refines(l, e) && f in l.frames
    ensures forall q | q in PrivateKeysOn(l.ptes, f) :: e.cells[q] == Own(l.frames[f].data)
  {
    forall q | q in PrivateKeysOn(l.ptes, f) ensures e.cells[q] == Own(l.frames[f].data) {
      assert CellMatches(l, e, q);
    }
  }

  lemma {:induction false} MovePrivateRefines(l: Lazy, e: Eager, f: nat)
    requires Closed(l) && Refines(l, e) && f in l.frames && Closed(MovePrivate(l, f))
    ensures Refines(MovePrivate(l, f), e)
  {
    var moved, m := PrivateKeysOn(l.ptes, f), MovePrivate(l, f);
    if moved != {} {
      MovedFrames(l, f);
      PrivateCells(l, e, f);
      RedirectRefines(l, e, moved, l.frames[f].data, m.ptes, m.frames, e.cells);
    }
  }

  /** What a write to a shared mapping means: its object changes. */
  lemma {:induction false} ObjectWrite(l: Lazy, e: Eager, k: Key, i: nat, b: char)
    requires Closed(l) && Refines(l, e) && EagerValid(e)
    requires k in l.ptes && i < PAGE_SIZE && l.ptes[k].kind == Shared
    ensures var f := l.ptes[k].frame;
            f in e.objs && EagerWrite(e, k, i, b) == e.(objs := e.objs[f := l.frames[f].data[i := b]])
  {
    assert CellMatches(l, e, k);
  }

  lemma {:induction false} StoreUnread(l: Lazy, e: Eager, f: nat, i: nat, b: char)
    requires Closed(l) && Refines(l, e) && f in l.frames && f in e.objs && i < PAGE_SIZE
    requires PrivateKeysOn(l.ptes, f) == {} || l.frames[f].data[i] == b
    ensures var m, d := l.(frames := Store(l.frames, f, i, b)), e.(objs := e.objs[f := l.frames[f].data[i := b]]);
            Closed(m) && Refines(m, d)
  {
    var m, d := l.(frames := Store(l.frames, f, i, b)), e.(objs := e.objs[f := l.frames[f].data[i := b]]);
    forall q | q in m.ptes ensures q in d.cells && CellMatches(m, d, q) {
      assert CellMatches(l, e, q);
      assert q !in PrivateKeysOn(l.ptes, f) || l.frames[f].data[i := b] == l.frames[f].data;
    }
  }

  lemma {:induction false} StoreRead(l: Lazy, e: Eager, f: nat, i: nat, b: char)
    requires Closed(l) && Refines(l, e) && f in l.frames && i < PAGE_SIZE
    requires PrivateKeysOn(l.ptes, f) != {} && l.frames[f].data[i] != b
    ensures var m, d := l.(frames := Store(l.frames, f, i, b)), e.(objs := e.objs[f := l.frames[f].data[i := b]]);
            Closed(m) && !Refines(m, d)
  {
    var m, d := l.(frames := Store(l.frames, f, i, b)), e.(objs := e.objs[f := l.frames[f].data[i := b]]);
    var q :| q in PrivateKeysOn(l.ptes, f);
    assert CellMatches(l, e, q);
    assert m.frames[f].data[i] == b;
    assert !CellMatches(m, d, q);
  }

  /** Storing into a shared frame keeps the meaning exactly when no private mapping reads it, or
      the byte was there already. */
  lemma {:induction false} StoreRefines(l: Lazy, e: Eager, k: Key, i: nat, b: char)
    requires Closed(l) && Refines(l, e) && EagerValid(e)
    requires k in l.ptes && i < PAGE_SIZE && l.ptes[k].kind == Shared
    ensures var f := l.ptes[k].frame;
            var m := l.(frames := Store(l.frames, f, i, b));
            && Closed(m)
            && (Refines(m, EagerWrite(e, k, i, b)) <==>
                PrivateKeysOn(l.ptes, f) == {} || l.frames[f].data[i] == b)
  {
    var f := l.ptes[k].frame;
    ObjectWrite(l, e, k, i, b);
    if PrivateKeysOn(l.ptes, f) == {} || l.frames[f].data[i] == b {
      StoreUnread(l, e, f, i, b);
    } else {
      StoreRead(l, e, f, i, b);
    }
  }

  lemma {:induction false} WriteSharedRefines(l: Lazy, e: Eager, k: Key, i: nat, b: char)
    requires Inv(l) && Refines(l, e) && EagerValid(e)
    requires k in l.ptes && i < PAGE_SIZE && l.ptes[k].kind == Shared
    ensures Inv(WriteShared(l, k, i, b))
    ensures Refines(WriteShared(l, k, i, b), EagerWrite(e, k, i, b)) <==> !Leaks(l, Write(k, i, b))
  {
    KeepsWriteShared(l, k, i, b);
    if l.snapshot {
      KeepsMovePrivate(l, k);
      MovePrivateRefines(l, e, l.ptes[k].frame);
      StoreRefines(MovePrivate(l, l.ptes[k].frame), e, k, i, b);
    } else {
      StoreRefines(l, e, k, i, b);
    }
  }

  /** Whether the page is written in place or copied first, only its own mapping sees it change. */
  lemma {:induction false} PrivateStepRefines(l: Lazy, e: Eager, k: Key, i: nat, b: char)
    requires Inv(l) && Refines(l, e) && EagerValid(e)
    requires k in l.ptes && i < PAGE_SIZE && l.ptes[k].kind == Private
    ensures Inv(WritePrivate(l, k, i, b)) && Refines(WritePrivate(l, k, i, b), EagerWrite(e, k, i, b))
  {
    KeepsWritePrivate(l, k, i, b);
    if l.frames[l.ptes[k].frame].refs == 1 {
      SoleHolder(l, k);
      InPlaceRefines(l, e, k, i, b);
    } else {
      CopyRefines(l, e, k, i, b);
    }
  }

  lemma {:induction false} SpawnRefines(l: Lazy, e: Eager, step: Step)
    requires Closed(l) && Refines(l, e) && EagerValid(e) && step.Spawn? && Closed(LazyStep(l, step))
    ensures Refines(LazyStep(l, step), EagerStep(e, step, l.next))
  {
  }

  lemma {:induction false} OtherStepRefines(l: Lazy, e: Eager, step: Step)
    requires Closed(l) && Refines(l, e) && EagerValid(e) && !step.Write? && Closed(LazyStep(l, step))
    ensures Refines(LazyStep(l, step), EagerStep(e, step, l.next))
  {
    match step
    case NewFile(x, contents) => NewFileRefines(l, e, x, contents);
    case Spawn(_) => SpawnRefines(l, e, step);
    case MapFile(k, x, kind) => MapFileRefines(l, e, k, x, kind);
    case MapAnon(k, kind) =>
      if k.0 in l.procs && k !in l.ptes {
        MapNewRefines(l, e, k, kind, ZeroPage());
      }
    case Fork(p, c) => ForkRefines(l, e, p, c);
    case Unmap(k) => UnmapRefines(l, e, k);
    case Exit(p) => ExitRefines(l, e, p);
  }

  lemma {:induction false} WriteSteps(l: Lazy, k: Key, i: nat, b: char)
    requires Closed(l) && k in l.ptes && i < PAGE_SIZE
    ensures LazyStep(l, Write(k, i, b))
         == if l.ptes[k].kind == Private then WritePrivate(l, k, i, b) else WriteShared(l, k, i, b)
  {
  }

  lemma {:induction false} WriteMeans(l: Lazy, e: Eager, k: Key, i: nat, b: char)
    requires Closed(l) && EagerValid(e) && l.ptes.Keys == e.cells.Keys
    ensures LazyStep(l, Write(k, i, b)) ==
              if k !in l.ptes || PAGE_SIZE <= i then l
              else if l.ptes[k].kind == Private then WritePrivate(l, k, i, b) else WriteShared(l, k, i, b)
    ensures EagerStep(e, Write(k, i, b), l.next) == if k !in l.ptes || PAGE_SIZE <= i then e else EagerWrite(e, k, i, b)
  {
  }

  lemma {:induction false} WriteStepRefines(l: Lazy, e: Eager, k: Key, i: nat, b: char)
    requires Inv(l) && Refines(l, e) && EagerValid(e)
    ensures Inv(LazyStep(l, Write(k, i, b)))
    ensures Refines(LazyStep(l, Write(k, i, b)), EagerStep(e, Write(k, i, b), l.next))
       <==> !Leaks(l, Write(k, i, b))
  {
    WriteMeans(l, e, k, i, b);
    if k in l.ptes && i < PAGE_SIZE {
      if l.ptes[k].kind == Private {
        PrivateStepRefines(l, e, k, i, b);
      } else {
        WriteSharedRefines(l, e, k, i, b);
      }
    }
  }

  /** One step of the lazy machine means one step of the eager one, exactly when it does not leak. */
  lemma {:induction false} StepRefines(l: Lazy, e: Eager, step: Step)
    requires Inv(l) && Refines(l, e) && EagerValid(e)
    ensures Inv(LazyStep(l, step))
    ensures Refines(LazyStep(l, step), EagerStep(e, step, l.next)) <==> !Leaks(l, step)
  {
    StepKeepsInv(l, step);
    if step.Write? {
      WriteStepRefines(l, e, step.key, step.offset, step.byte);
    } else {
      OtherStepRefines(l, e, step);
    }
  }

  lemma {:induction false} EagerStepValid(e: Eager, step: Step, name: nat)
    requires EagerValid(e)
    ensures EagerValid(EagerStep(e, step, name))
  {
  }

  // Whole runs

  function LazyRun(l: Lazy, steps: seq<Step>): (m: Lazy)
    requires Inv(l)
    ensures Inv(m)
    decreases |steps|
  {
    if steps == [] then l
    else
      StepKeepsInv(l, steps[0]);
      LazyRun(LazyStep(l, steps[0]), steps[1..])
  }

  /** The names the run gives to new objects: its frame numbers. */
  function Names(l: Lazy, steps: seq<Step>): (names: seq<nat>)
    requires Inv(l)
    ensures |names| == |steps|
    decreases |steps|
  {
    if steps == [] then []
    else
      StepKeepsInv(l, steps[0]);
      [l.next] + Names(LazyStep(l, steps[0]), steps[1..])
  }

  function EagerRun(e: Eager, steps: seq<Step>, names: seq<nat>): (d: Eager)
    requires EagerValid(e) && |names| == |steps|
    ensures EagerValid(d)
    decreases |steps|
  {
    if steps == [] then e
    else
      EagerStepValid(e, steps[0], names[0]);
      EagerRun(EagerStep(e, steps[0], names[0]), steps[1..], names[1..])
  }

  predicate NeverLeaks(l: Lazy, steps: seq<Step>)
    requires Inv(l)
    decreases |steps|
  {
    steps != [] ==>
      && !Leaks(l, steps[0])
      && (StepKeepsInv(l, steps[0]); NeverLeaks(LazyStep(l, steps[0]), steps[1..]))
  }

  lemma {:induction false} KeepsSnapshot(l: Lazy, step: Step)
    requires Closed(l)
    ensures LazyStep(l, step).snapshot == l.snapshot
  {
  }

  lemma {:induction false} SnapshotNeverLeaks(l: Lazy, steps: seq<Step>)
    requires Inv(l) && l.snapshot
    ensures NeverLeaks(l, steps)
    decreases |steps|
  {
    if steps != [] {
      StepKeepsInv(l, steps[0]);
      KeepsSnapshot(l, steps[0]);
      SnapshotNeverLeaks(LazyStep(l, steps[0]), steps[1..]);
    }
  }

  function Boot(snapshot: bool): (l: Lazy)
    ensures Inv(l)
  {
    Lazy({}, map[], map[], map[], 0, snapshot)
  }

  function EagerBoot(): (e: Eager)
    ensures EagerValid(e)
  {
    Eager({}, map[], map[], map[])
  }

  /** What a process or a reader of the file can see. */
  ghost predicate SameView(l: Lazy, e: Eager)
    requires Inv(l) && EagerValid(e)
  {
    && l.ptes.Keys == e.cells.Keys && l.files.Keys == e.files.Keys
    && (forall k | k in l.ptes :: LazyRead(l, k) == EagerRead(e, k))
    && (forall x | x in l.files :: FileBytes(l, x) == e.objs[e.files[x]])
  }

  lemma {:induction false} RefinesIsSeen(l: Lazy, e: Eager)
    requires Inv(l) && Refines(l, e) && EagerValid(e)
    ensures SameView(l, e)
  {
  }

  lemma {:induction false} LeakedByte(l: Lazy, e: Eager, writer: Key, reader: Key, i: nat, b: char)
    requires Closed(l) && Refines(l, e) && writer in l.ptes && i < PAGE_SIZE
    requires l.ptes[writer].kind == Shared && reader in PrivateKeysOn(l.ptes, l.ptes[writer].frame)
    ensures e.cells[reader] == Own(l.frames[l.ptes[writer].frame].data)
    ensures writer in e.cells && e.cells[writer].Ref?
    ensures Store(l.frames, l.ptes[writer].frame, i, b)[l.ptes[reader].frame].data[i] == b
  {
  }

  /** A leak is visible at once: some private mapping reads a byte the meaning never gave it. */
  lemma {:induction false} LeakIsSeen(l: Lazy, e: Eager, step: Step) returns (k: Key)
    requires Closed(l) && Refines(l, e) && EagerValid(e) && Leaks(l, step)
    ensures k in l.ptes && l.ptes[k].kind == Private
    ensures var m, d := LazyStep(l, step), EagerStep(e, step, l.next);
            && Closed(m) && EagerValid(d) && k in m.ptes && k in d.cells
            && LazyRead(m, k) != EagerRead(d, k)
  {
    k :| k in PrivateKeysOn(l.ptes, l.ptes[step.key].frame);
    LeakedByte(l, e, step.key, k, step.offset, step.byte);
    EagerStepValid(e, step, l.next);
  }

  /** The view after the first n steps. */
  ghost predicate SameViewAfter(l: Lazy, e: Eager, steps: seq<Step>, n: nat)
    requires Inv(l) && EagerValid(e) && n <= |steps|
  {
    SameView(LazyRun(l, steps[..n]), EagerRun(e, steps[..n], Names(l, steps[..n])))
  }

  lemma {:induction false} ViewAfterFirst(l: Lazy, e: Eager, steps: seq<Step>, n: nat)
    requires Inv(l) && EagerValid(e) && n < |steps|
    requires Inv(LazyStep(l, steps[0])) && EagerValid(EagerStep(e, steps[0], l.next))
    ensures SameViewAfter(l, e, steps, n + 1)
       <==> SameViewAfter(LazyStep(l, steps[0]), EagerStep(e, steps[0], l.next), steps[1..], n)
  {
    assert steps[..n + 1][1..] == steps[1..][..n];
  }

  lemma {:induction false} LaterViews(l: Lazy, e: Eager, m: Lazy, d: Eager, steps: seq<Step>)
    requires Inv(l) && EagerValid(e) && Inv(m) && EagerValid(d) && steps != []
    requires SameViewAfter(l, e, steps, 0)
    requires forall n | 0 <= n < |steps| :: SameViewAfter(l, e, steps, n + 1) <==> SameViewAfter(m, d, steps[1..], n)
    ensures (forall n | 0 <= n <= |steps| :: SameViewAfter(l, e, steps, n))
       <==> forall n | 0 <= n <= |steps| - 1 :: SameViewAfter(m, d, steps[1..], n)
  {
    if forall n | 0 <= n <= |steps| - 1 :: SameViewAfter(m, d, steps[1..], n) {
      forall n | 0 <= n <= |steps| ensures SameViewAfter(l, e, steps, n) {
        if 0 < n {
          assert SameViewAfter(m, d, steps[1..], n - 1);
          assert SameViewAfter(l, e, steps, (n - 1) + 1);
        }
      }
    }
  }

  /** Over every run of steps by any processes: the machine with frames, counts and copy-on-write looks
      eager after every single step exactly when the run never leaks, and then ends in the state eager
      copying ends in. */
  lemma {:induction false} RunRefines(l: Lazy, e: Eager, steps: seq<Step>)
    requires Inv(l) && Refines(l, e) && EagerValid(e)
    ensures (forall n | 0 <= n <= |steps| :: SameViewAfter(l, e, steps, n)) <==> NeverLeaks(l, steps)
    ensures NeverLeaks(l, steps) ==> Refines(LazyRun(l, steps), EagerRun(e, steps, Names(l, steps)))
    decreases |steps|
  {
    RefinesIsSeen(l, e);
    assert SameViewAfter(l, e, steps, 0);
    if steps != [] {
      var m, d := LazyStep(l, steps[0]), EagerStep(e, steps[0], l.next);
      StepRefines(l, e, steps[0]);
      EagerStepValid(e, steps[0], l.next);
      forall n | 0 <= n < |steps|
        ensures SameViewAfter(l, e, steps, n + 1) <==> SameViewAfter(m, d, steps[1..], n)
      {
        ViewAfterFirst(l, e, steps, n);
      }
      if Leaks(l, steps[0]) {
        var k := LeakIsSeen(l, e, steps[0]);
        assert !SameViewAfter(m, d, steps[1..], 0);
        assert !SameViewAfter(l, e, steps, 1);
      } else {
        RunRefines(m, d, steps[1..]);
        LaterViews(l, e, m, d, steps);
      }
    }
  }

  /** From boot, for every kernel: after every step, every mapping reads and every file holds the bytes
      eager copying gives, exactly when nothing leaks. A snapshot kernel never leaks. */
  lemma {:induction false} EveryRunLooksEager(snapshot: bool, steps: seq<Step>)
    ensures (forall n | 0 <= n <= |steps| :: SameViewAfter(Boot(snapshot), EagerBoot(), steps, n))
       <==> NeverLeaks(Boot(snapshot), steps)
    ensures snapshot ==> NeverLeaks(Boot(snapshot), steps)
  {
    RunRefines(Boot(snapshot), EagerBoot(), steps);
    if snapshot {
      SnapshotNeverLeaks(Boot(snapshot), steps);
    }
  }
}
