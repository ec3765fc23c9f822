/**
 The demos in which parent and child touch one shared mapping (macos/process/xnu_footprint_demo.cpp and
 activity_monitor_demo.mm), over the copy-on-write machine: that both see one memory is not assumed, it
 follows from the mapping. The rest of the system runs in between.
 */
module SharedTouch {
  import opened CopyOnWrite
  import opened PageTouch
  import opened StrideLoop
  import E = MappingEffects
  import S = MappingSteps

  /** The memory two processes are to share: virtual pages first, first + 1, ... of the parent, and of the
      child it forks, and the frames that back them. */
  datatype Area = Area(parent: nat, child: nat, first: nat, frames: seq<nat>) {
    function Size(): nat {
      |frames| * PAGE_SIZE
    }

    function Page(i: nat): nat {
      first + i / PAGE_SIZE
    }

    /** A mapping has its own frame for each page. */
    ghost predicate Distinct() {
      forall u, v | 0 <= u < v < |frames| :: frames[u] != frames[v]
    }
  }

  /** The process maps page v of the area shared. */
  ghost predicate MapsPage(l: Lazy, p: nat, a: Area, v: nat)
    requires v < |a.frames|
  {
    (p, a.first + v) in l.ptes && l.ptes[(p, a.first + v)] == Pte(a.frames[v], Shared)
  }

  ghost predicate Maps(l: Lazy, p: nat, a: Area) {
    forall v: nat | v < |a.frames| :: MapsPage(l, p, a, v)
  }

  /** buffer[i], as the process reads it: the byte of page i / PAGE_SIZE at i % PAGE_SIZE. */
  ghost function ByteAt(l: Lazy, p: nat, a: Area, i: nat): char
    requires Closed(l) && i < a.Size() && MapsPage(l, p, a, i / PAGE_SIZE)
  {
    LazyRead(l, (p, a.Page(i)))[i % PAGE_SIZE]
  }

  ghost predicate ReadsByte(l: Lazy, p: nat, a: Area, i: nat, c: char)
    requires Closed(l)
  {
    i < a.Size() && MapsPage(l, p, a, i / PAGE_SIZE) && ByteAt(l, p, a, i) == c
  }

  /** The process maps the area and reads s there. */
  ghost predicate Reads(l: Lazy, p: nat, a: Area, s: seq<char>) {
    && Closed(l) && Maps(l, p, a) && |s| == a.Size()
    && forall i: nat | i < |s| :: ReadsByte(l, p, a, i, s[i])
  }

  /** buffer[i] = b. */
  function Touch(p: nat, a: Area, i: nat, b: char): Step {
    Write((p, a.Page(i)), i % PAGE_SIZE, b)
  }

  /** What everyone who maps the area shared reads once a store has reached all sharers. */
  lemma {:induction false} StoredBytes(l: Lazy, m: Lazy, p: nat, a: Area, s: seq<char>, i: nat, b: char)
    requires Reads(l, p, a, s) && a.Distinct() && Closed(m) && i < |s|
    requires E.AllSharersSee(l, m, a.frames[i / PAGE_SIZE], i % PAGE_SIZE, b)
    ensures Reads(m, p, a, s[i := b])
  {
    forall v: nat | v < |a.frames| ensures MapsPage(m, p, a, v) {
      assert MapsPage(l, p, a, v);
    }
    var t := s[i := b];
    forall j: nat | j < |t| ensures ReadsByte(m, p, a, j, t[j]) {
      assert ReadsByte(l, p, a, j, s[j]);
      assert MapsPage(m, p, a, j / PAGE_SIZE);
    }
  }

  /** buffer[i] lies where the process's address space has it: the j-th byte of page v of the area is the j-th
      byte of the process's page first + v, read or written. */
  lemma {:induction false} BytesInPlace(l: Lazy, p: nat, a: Area, v: nat, j: nat, b: char)
    requires Closed(l) && v < |a.frames| && j < PAGE_SIZE && MapsPage(l, p, a, v)
    ensures var i := v * PAGE_SIZE + j;
            && i / PAGE_SIZE == v && i < a.Size()
            && ByteAt(l, p, a, i) == LazyRead(l, (p, a.first + v))[j]
            && Touch(p, a, i, b) == Write((p, a.first + v), j, b)
  {
  }

  /** A store by one process is read by every process that maps the page's frame shared. */
  lemma {:induction false} TouchIsRead(l: Lazy, q: nat, p: nat, a: Area, s: seq<char>, i: nat, b: char)
    requires Inv(l) && a.Distinct() && Maps(l, q, a) && Reads(l, p, a, s) && i < |s|
    ensures Inv(LazyStep(l, Touch(q, a, i, b))) && Reads(LazyStep(l, Touch(q, a, i, b)), p, a, s[i := b])
  {
    var m, k := LazyStep(l, Touch(q, a, i, b)), (q, a.Page(i));
    StepKeepsInv(l, Touch(q, a, i, b));
    assert MapsPage(l, q, a, i / PAGE_SIZE);
    E.SharedWriteReachesAll(l, k, i % PAGE_SIZE, b);
    StoredBytes(l, m, p, a, s, i, b);
  }

  /** Page v of the area is still mapped by the process, and reads as it did. */
  ghost predicate PageKept(l: Lazy, m: Lazy, p: nat, a: Area, v: nat)
    requires Closed(l) && Closed(m) && v < |a.frames|
  {
    && MapsPage(l, p, a, v) && MapsPage(m, p, a, v)
    && LazyRead(m, (p, a.first + v)) == LazyRead(l, (p, a.first + v))
  }

  lemma {:induction false} Undisturbed(l: Lazy, m: Lazy, p: nat, a: Area, s: seq<char>)
    requires Reads(l, p, a, s) && Closed(m)
    requires forall v: nat | v < |a.frames| :: PageKept(l, m, p, a, v)
    ensures Reads(m, p, a, s)
  {
    forall v: nat | v < |a.frames| ensures MapsPage(m, p, a, v) {
      assert PageKept(l, m, p, a, v);
    }
    forall j: nat | j < |s| ensures ReadsByte(m, p, a, j, s[j]) {
      assert ReadsByte(l, p, a, j, s[j]);
      assert PageKept(l, m, p, a, j / PAGE_SIZE);
    }
  }

  // Doing a step over and over

  /** What the steps make of a machine in order is in order. */
  type Machine = l: Lazy | Inv(l) ghost witness Boot(false)

  function Stepped(l: Machine, step: Step): Machine
  {
    StepKeepsInv(l, step);
    LazyStep(l, step)
  }

  function Iterate<T>(x: T, next: (T, nat) -> T, n: nat): T {
    if n == 0 then x else next(Iterate(x, next, n - 1), n - 1)
  }

  lemma {:induction false} IterateInduction<T(!new)>(x: T, next: (T, nat) -> T, n: nat, holds: (T, nat) -> bool)
    requires holds(x, 0) && forall y: T, i: nat | i < n && holds(y, i) :: holds(next(y, i), i + 1)
    ensures holds(Iterate(x, next, n), n)
  {
    if n > 0 {
      IterateInduction(x, next, n - 1, holds);
    }
  }

  // The mapping itself

  function MapPage(l: Machine, p: nat, first: nat, v: nat): Machine {
    Stepped(l, MapAnon((p, first + v), Shared))
  }

  function Mapper(p: nat, first: nat): (Machine, nat) -> Machine {
    (l: Machine, v: nat) => MapPage(l, p, first, v)
  }

  /** mmap with MAP_ANON | MAP_SHARED: n pages of the process from first on. */
  function MapShared(l: Machine, p: nat, first: nat, n: nat): Machine {
    Iterate(l, Mapper(p, first), n)
  }

  /** The area such a mapping makes: the next n frames. */
  function NewArea(l: Lazy, p: nat, c: nat, first: nat, n: nat): Area {
    Area(p, c, first, seq(n, v => l.next + v))
  }

  function Zeros(n: nat): seq<char> {
    seq(n, _ => '\0')
  }

  /** Page v of n has just been mapped: its own new frame, all zero. */
  ghost predicate NewPage(l: Lazy, m: Lazy, p: nat, first: nat, v: nat) {
    var k, f := (p, first + v), l.next + v;
    k in m.ptes && m.ptes[k] == Pte(f, Shared) && f in m.frames && m.frames[f].data == ZeroPage()
  }

  lemma {:induction false} MapOne(l: Lazy, k: Key)
    requires Inv(l) && k.0 in l.procs && k !in l.ptes
    ensures var m := LazyStep(l, MapAnon(k, Shared));
            && m.next == l.next + 1 && m.procs == l.procs && m.ptes == l.ptes[k := Pte(l.next, Shared)]
            && l.next in m.frames && m.frames[l.next].data == ZeroPage()
            && forall f | f in l.frames :: f in m.frames && m.frames[f] == l.frames[f]
  {
  }

  predicate Vacant(l: Lazy, p: nat, page: nat) {
    (p, page) !in l.ptes
  }

  /** Between l and m, n pages have been mapped from first on. */
  ghost predicate NewPages(l: Lazy, m: Lazy, p: nat, first: nat, n: nat) {
    && m.next == l.next + n && m.procs == l.procs
    && (forall v: nat | v < n :: NewPage(l, m, p, first, v))
    && (forall page: nat | first + n <= page && Vacant(l, p, page) :: Vacant(m, p, page))
  }

  lemma {:induction false} OneMorePage(l: Lazy, before: Lazy, m: Lazy, p: nat, first: nat, n: nat)
    requires NewPages(l, before, p, first, n)
    requires m.next == before.next + 1 && m.procs == before.procs
    requires m.ptes == before.ptes[(p, first + n) := Pte(before.next, Shared)]
    requires before.next in m.frames && m.frames[before.next].data == ZeroPage()
    requires forall f | f in before.frames :: f in m.frames && m.frames[f] == before.frames[f]
    ensures NewPages(l, m, p, first, n + 1)
  {
    forall v: nat | v <= n ensures NewPage(l, m, p, first, v) {
      assert v < n ==> NewPage(l, before, p, first, v);
    }
  }

  lemma {:induction false} MapOneMore(l: Lazy, before: Lazy, p: nat, first: nat, n: nat)
    requires Inv(before) && NewPages(l, before, p, first, n) && p in l.procs && Vacant(l, p, first + n)
    ensures NewPages(l, MapPage(before, p, first, n), p, first, n + 1)
  {
    assert Vacant(before, p, first + n);
    MapOne(before, (p, first + n));
    OneMorePage(l, before, LazyStep(before, MapAnon((p, first + n), Shared)), p, first, n);
  }

  lemma {:induction false} MapAll(l: Machine, p: nat, first: nat, n: nat)
    requires p in l.procs && forall page: nat | first <= page < first + n :: Vacant(l, p, page)
    ensures NewPages(l, MapShared(l, p, first, n), p, first, n)
  {
    var holds := (m: Machine, i: nat) => NewPages(l, m, p, first, i);
    forall m: Machine, i: nat | i < n && holds(m, i) ensures holds(Mapper(p, first)(m, i), i + 1) {
      assert Vacant(l, p, first + i);
      MapOneMore(l, m, p, first, i);
    }
    IterateInduction(l, Mapper(p, first), n, holds);
  }

  ghost predicate ZeroPageMapped(l: Lazy, p: nat, a: Area, v: nat)
    requires Closed(l) && v < |a.frames|
  {
    MapsPage(l, p, a, v) && LazyRead(l, (p, a.first + v)) == ZeroPage()
  }

  lemma {:induction false} ZeroPagesRead(l: Lazy, p: nat, a: Area)
    requires Closed(l) && forall v: nat | v < |a.frames| :: ZeroPageMapped(l, p, a, v)
    ensures Reads(l, p, a, Zeros(a.Size()))
  {
    forall v: nat | v < |a.frames| ensures MapsPage(l, p, a, v) {
      assert ZeroPageMapped(l, p, a, v);
    }
    forall i: nat | i < a.Size() ensures ReadsByte(l, p, a, i, '\0') {
      assert ZeroPageMapped(l, p, a, i / PAGE_SIZE);
    }
  }

  lemma {:induction false} NewPagesMapped(l: Lazy, m: Lazy, p: nat, c: nat, first: nat, n: nat)
    requires Closed(m) && NewPages(l, m, p, first, n)
    ensures var a := NewArea(l, p, c, first, n);
            a.Distinct() && forall v: nat | v < |a.frames| :: ZeroPageMapped(m, p, a, v)
  {
    var a := NewArea(l, p, c, first, n);
    forall v: nat | v < |a.frames| ensures ZeroPageMapped(m, p, a, v) {
      assert NewPage(l, m, p, first, v);
    }
  }

  /** Mapped where the process had nothing, the area has a frame of its own for every page and reads 0. */
  lemma {:induction false} NewAreaReadsZero(l: Lazy, p: nat, c: nat, first: nat, n: nat)
    requires Inv(l) && p in l.procs && forall page: nat | first <= page < first + n :: Vacant(l, p, page)
    ensures var m, a := MapShared(l, p, first, n), NewArea(l, p, c, first, n);
            m.procs == l.procs && a.Distinct() && Reads(m, p, a, Zeros(a.Size()))
  {
    MapAll(l, p, first, n);
    NewPagesMapped(l, MapShared(l, p, first, n), p, c, first, n);
    ZeroPagesRead(MapShared(l, p, first, n), p, NewArea(l, p, c, first, n));
  }

  // The parent's own loop

  function TouchStride(l: Machine, p: nat, a: Area, n: nat, b: char): Machine {
    Stepped(l, Touch(p, a, STRIDE * n, b))
  }

  function Toucher(p: nat, a: Area, b: char): (Machine, nat) -> Machine {
    (l: Machine, n: nat) => TouchStride(l, p, a, n, b)
  }

  /** The machine after the process has touched the first n strides of the area. */
  function AfterTouches(l: Machine, p: nat, a: Area, n: nat, b: char): Machine {
    Iterate(l, Toucher(p, a, b), n)
  }

  lemma {:induction false} TouchNext(s: seq<char>, i: nat, b: char)
    requires i < |s| && i % STRIDE == 0
    ensures Touched(s, i, b)[i := b] == Touched(s, i + STRIDE, b)
  {
  }

  lemma {:induction false} TouchNone(s: seq<char>, b: char)
    ensures Touched(s, 0, b) == s
  {
  }

  lemma {:induction false} TouchOnce(l: Machine, p: nat, a: Area, s: seq<char>, n: nat, b: char)
    requires a.Distinct() && Reads(l, p, a, Touched(s, STRIDE * n, b)) && STRIDE * n < |s|
    ensures Reads(TouchStride(l, p, a, n, b), p, a, Touched(s, STRIDE * (n + 1), b))
  {
    TouchIsRead(l, p, p, a, Touched(s, STRIDE * n, b), STRIDE * n, b);
    TouchNext(s, STRIDE * n, b);
  }

  lemma {:induction false} TouchesAreRead(l: Machine, p: nat, a: Area, s: seq<char>, n: nat, b: char)
    requires a.Distinct() && Reads(l, p, a, s) && STRIDE * n < |s| + STRIDE
    ensures Reads(AfterTouches(l, p, a, n, b), p, a, Touched(s, STRIDE * n, b))
  {
    var holds := (m: Machine, i: nat) => Reads(m, p, a, Touched(s, STRIDE * i, b));
    TouchNone(s, b);
    forall m: Machine, i: nat | i < n && holds(m, i) ensures holds(Toucher(p, a, b)(m, i), i + 1) {
      TouchOnce(m, p, a, s, i, b);
    }
    IterateInduction(l, Toucher(p, a, b), n, holds);
  }

  // Parent and child, one turn at a time, and everyone else in between

  datatype Child = Writing(i: nat) | Exited
  datatype Parent = BeforeFork | Waiting | Woken

  datatype Demo = Demo(memory: Lazy, parent: Parent, child: Child)

  datatype Turn = ParentTurn | ChildTurn | Elsewhere(step: Step)

  /** A step, by anyone, that does not end or unmap anything of either side, or store into the area. */
  predicate Quiet(l: Lazy, step: Step, a: Area)
    requires Closed(l)
  {
    match step
    case Exit(p) => p != a.parent && p != a.child
    case Unmap(k) => k.0 != a.parent && k.0 != a.child
    case Write(k, _, _) => k in l.ptes && l.ptes[k].kind == Shared ==> l.ptes[k].frame !in a.frames
    case _ => true
  }

  /** The child stores its byte one page at a time and exits; waitpid keeps the parent where it is until
      then. A turn that cannot be taken changes nothing. */
  function Take(d: Demo, turn: Turn, a: Area, size: nat, c: char): (e: Demo)
    requires Inv(d.memory)
    ensures Inv(e.memory)
  {
    match turn
    case ChildTurn =>
      if d.child.Exited? || d.parent == BeforeFork then d
      else if d.child.i < size then
        d.(memory := Stepped(d.memory, Touch(a.child, a, d.child.i, c)), child := Writing(d.child.i + STRIDE))
      else d.(memory := Stepped(d.memory, Exit(a.child)), child := Exited)
    case ParentTurn =>
      if d.parent == Waiting && d.child.Exited? then d.(parent := Woken) else d
    case Elsewhere(step) =>
      if Quiet(d.memory, step, a) then d.(memory := Stepped(d.memory, step)) else d
  }

  /** Everyone else is free to run: a step of a process that is neither of the two, and has no shared mapping
      of the area's frames to store through, takes its turn as it stands. */
  lemma {:induction false} OthersRun(d: Demo, step: Step, a: Area, size: nat, c: char)
    requires Inv(d.memory)
    requires match step
             case Exit(p) => p !in {a.parent, a.child}
             case Unmap(k) => k.0 !in {a.parent, a.child}
             case Write(k, _, _) =>
               forall f | f in a.frames :: k in d.memory.ptes ==> d.memory.ptes[k] != Pte(f, Shared)
             case _ => true
    ensures Take(d, Elsewhere(step), a, size, c) == Demo(LazyStep(d.memory, step), d.parent, d.child)
  {
    if step.Write? && step.key in d.memory.ptes && d.memory.ptes[step.key].kind == Shared {
      var f := d.memory.ptes[step.key].frame;
      assert d.memory.ptes[step.key] == Pte(f, Shared);
    }
  }

  function Schedule(d: Demo, turns: seq<Turn>, a: Area, size: nat, c: char): (e: Demo)
    requires Inv(d.memory)
    ensures Inv(e.memory)
  {
    if turns == [] then d
    else Take(Schedule(d, turns[..|turns| - 1], a, size, c), turns[|turns| - 1], a, size, c)
  }

  /** Right after a fork that worked. */
  function Forked(l: Lazy, a: Area): (d: Demo)
    requires Inv(l)
    ensures Inv(d.memory)
  {
    Demo(Stepped(l, Fork(a.parent, a.child)), Waiting, Writing(0))
  }

  /** The demo on any machine: the parent touches its own byte and forks, or fails to; if it forked, it
      is scheduled against the child and the rest of the system in any way at all. */
  function AfterDemo(l: Lazy, a: Area, size: nat, own: char, c: char, forkOk: bool, turns: seq<Turn>): (e: Demo)
    requires Inv(l)
    ensures Inv(e.memory)
  {
    var touched := AfterTouches(l, a.parent, a, Strides(size), own);
    if forkOk then Schedule(Forked(touched, a), turns, a, size, c)
    else Demo(touched, BeforeFork, Exited)
  }

  /** A mapping of one of the two that a quiet step leaves alone. */
  lemma {:induction false} QuietKeepsMapping(l: Lazy, step: Step, k: Key)
    requires Closed(l) && Closed(LazyStep(l, step)) && k in l.ptes && !step.Write?
    requires step != Unmap(k) && step != Exit(k.0)
    ensures var m := LazyStep(l, step);
            k in m.ptes && m.ptes[k] == l.ptes[k] && LazyRead(m, k) == LazyRead(l, k)
  {
    if step.Fork? && step.parent in l.procs && step.child !in l.procs {
      assert OfProcess(l.ptes, step.child) == {};
      InheritMeans(l.ptes, step.parent, step.child, k);
    }
  }

  lemma {:induction false} PrivateWriteMoves(l: Lazy, w: Key, i: nat, b: char, k: Key)
    requires Closed(l) && w in l.ptes && i < PAGE_SIZE && k in l.ptes && k != w
    ensures k in WritePrivate(l, w, i, b).ptes && WritePrivate(l, w, i, b).ptes[k] == l.ptes[k]
  {
  }

  lemma {:induction false} QuietWriteKeeps(l: Lazy, w: Key, i: nat, b: char, k: Key)
    requires Inv(l) && k in l.ptes && l.ptes[k].kind == Shared
    requires w in l.ptes && l.ptes[w].kind == Shared ==> l.ptes[w].frame != l.ptes[k].frame
    ensures var m := LazyStep(l, Write(w, i, b));
            Closed(m) && k in m.ptes && m.ptes[k] == l.ptes[k] && LazyRead(m, k) == LazyRead(l, k)
  {
    if w in l.ptes && i < PAGE_SIZE {
      if l.ptes[w].kind == Private {
        E.PrivateWriteStaysPrivate(l, w, i, b);
        PrivateWriteMoves(l, w, i, b, k);
      } else {
        E.SharedWriteReachesAll(l, w, i, b);
      }
    }
  }

  lemma {:induction false} QuietKeepsPage(l: Lazy, step: Step, p: nat, a: Area, v: nat)
    requires Inv(l) && Closed(LazyStep(l, step)) && v < |a.frames| && MapsPage(l, p, a, v)
    requires step != Unmap((p, a.first + v)) && step != Exit(p) && (step.Write? ==> Quiet(l, step, a))
    ensures PageKept(l, LazyStep(l, step), p, a, v)
  {
    if step.Write? {
      QuietWriteKeeps(l, step.key, step.offset, step.byte, (p, a.first + v));
    } else {
      QuietKeepsMapping(l, step, (p, a.first + v));
    }
  }

  lemma {:induction false} QuietKeeps(l: Lazy, step: Step, p: nat, a: Area, s: seq<char>)
    requires Inv(l) && Reads(l, p, a, s)
    requires (step.Unmap? ==> step.key.0 != p) && step != Exit(p) && (step.Write? ==> Quiet(l, step, a))
    ensures Inv(LazyStep(l, step)) && Reads(LazyStep(l, step), p, a, s)
  {
    StepKeepsInv(l, step);
    forall v: nat | v < |a.frames| ensures PageKept(l, LazyStep(l, step), p, a, v) {
      assert MapsPage(l, p, a, v);
      QuietKeepsPage(l, step, p, a, v);
    }
    Undisturbed(l, LazyStep(l, step), p, a, s);
  }

  ghost predicate BothRead(l: Lazy, a: Area, s: seq<char>) {
    Reads(l, a.parent, a, s) && Reads(l, a.child, a, s)
  }

  function UpTo(i: nat, size: nat): nat {
    if i < size then i else size
  }

  /** How far the child has come, whatever the schedule: what the area holds shows it. */
  ghost predicate Progress(d: Demo, a: Area, own: seq<char>, size: nat, c: char) {
    && Inv(d.memory) && d.parent != BeforeFork && (d.parent == Woken ==> d.child.Exited?)
    && match d.child
       case Writing(i) => i % STRIDE == 0 && BothRead(d.memory, a, Touched(own, UpTo(i, size), c))
       case Exited => Reads(d.memory, a.parent, a, Touched(own, size, c))
  }

  lemma {:induction false} TouchLast(s: seq<char>, i: nat, size: nat, b: char)
    requires i < size <= |s| && i % STRIDE == 0
    ensures Touched(s, i, b)[i := b] == Touched(s, UpTo(i + STRIDE, size), b)
  {
  }

  /** A touch by the child: both read it. */
  lemma {:induction false} ChildTouch(l: Lazy, a: Area, s: seq<char>, i: nat, size: nat, c: char)
    requires Inv(l) && a.Distinct() && i < size <= |s| && i % STRIDE == 0
    requires BothRead(l, a, Touched(s, i, c))
    ensures var m := LazyStep(l, Touch(a.child, a, i, c));
            Inv(m) && BothRead(m, a, Touched(s, UpTo(i + STRIDE, size), c))
  {
    TouchIsRead(l, a.child, a.parent, a, Touched(s, i, c), i, c);
    TouchIsRead(l, a.child, a.child, a, Touched(s, i, c), i, c);
    TouchLast(s, i, size, c);
  }

  /** Which buffer a state of the child stands for. */
  function Shown(d: Demo, own: seq<char>, size: nat, c: char): seq<char> {
    Touched(own, if d.child.Writing? then UpTo(d.child.i, size) else size, c)
  }

  lemma {:induction false} StillWriting(m: Lazy, i: nat, a: Area, own: seq<char>, size: nat, c: char)
    requires Inv(m) && i % STRIDE == 0 && BothRead(m, a, Touched(own, UpTo(i + STRIDE, size), c))
    ensures Progress(Demo(m, Waiting, Writing(i + STRIDE)), a, own, size, c)
  {
  }

  lemma {:induction false} TouchKeepsProgress(l: Lazy, i: nat, a: Area, own: seq<char>, size: nat, c: char)
    requires Inv(l) && a.Distinct() && i < size <= |own| && i % STRIDE == 0 && BothRead(l, a, Touched(own, i, c))
    ensures Progress(Demo(LazyStep(l, Touch(a.child, a, i, c)), Waiting, Writing(i + STRIDE)), a, own, size, c)
  {
    ChildTouch(l, a, own, i, size, c);
    StillWriting(LazyStep(l, Touch(a.child, a, i, c)), i, a, own, size, c);
  }

  lemma {:induction false} ExitKeepsProgress(d: Demo, a: Area, own: seq<char>, size: nat, c: char)
    requires size <= |own| && Progress(d, a, own, size, c) && a.parent != a.child
    requires d.child.Writing? && size <= d.child.i
    ensures Progress(Demo(LazyStep(d.memory, Exit(a.child)), d.parent, Exited), a, own, size, c)
  {
    QuietKeeps(d.memory, Exit(a.child), a.parent, a, Touched(own, size, c));
  }

  lemma {:induction false} QuietTurnKeepsProgress(d: Demo, step: Step, a: Area, own: seq<char>, size: nat, c: char)
    requires size <= |own| && Progress(d, a, own, size, c) && Quiet(d.memory, step, a)
    ensures Progress(d.(memory := LazyStep(d.memory, step)), a, own, size, c)
  {
    QuietKeeps(d.memory, step, a.parent, a, Shown(d, own, size, c));
    if d.child.Writing? {
      QuietKeeps(d.memory, step, a.child, a, Shown(d, own, size, c));
    }
  }

  lemma {:induction false} TurnKeepsProgress(d: Demo, turn: Turn, a: Area, own: seq<char>, size: nat, c: char)
    requires size <= |own| && Progress(d, a, own, size, c) && a.parent != a.child && a.Distinct()
    ensures Progress(Take(d, turn, a, size, c), a, own, size, c)
  {
    match turn
    case ChildTurn =>
      if d.child.Writing? {
        if d.child.i < size {
          TouchKeepsProgress(d.memory, d.child.i, a, own, size, c);
        } else {
          ExitKeepsProgress(d, a, own, size, c);
        }
      }
    case ParentTurn =>
    case Elsewhere(step) =>
      if Quiet(d.memory, step, a) {
        QuietTurnKeepsProgress(d, step, a, own, size, c);
      }
  }

  lemma {:induction false} ScheduleKeepsProgress(
      d: Demo, turns: seq<Turn>, a: Area, own: seq<char>, size: nat, c: char)
    requires size <= |own| && Progress(d, a, own, size, c) && a.parent != a.child && a.Distinct()
    ensures Progress(Schedule(d, turns, a, size, c), a, own, size, c)
  {
    if turns != [] {
      ScheduleKeepsProgress(d, turns[..|turns| - 1], a, own, size, c);
      TurnKeepsProgress(Schedule(d, turns[..|turns| - 1], a, size, c), turns[|turns| - 1], a, own, size, c);
    }
  }

  ghost predicate SamePage(l: Lazy, a: Area, v: nat)
    requires Closed(l) && v < |a.frames|
  {
    && MapsPage(l, a.parent, a, v) && MapsPage(l, a.child, a, v)
    && LazyRead(l, (a.child, a.first + v)) == LazyRead(l, (a.parent, a.first + v))
  }

  lemma {:induction false} ForkSharesPage(l: Lazy, a: Area, v: nat)
    requires Inv(l) && a.parent in l.procs && a.child !in l.procs && v < |a.frames| && MapsPage(l, a.parent, a, v)
    ensures Closed(LazyStep(l, Fork(a.parent, a.child))) && SamePage(LazyStep(l, Fork(a.parent, a.child)), a, v)
  {
    E.ChildReadsParent(l, a.parent, a.child, a.first + v);
  }

  lemma {:induction false} ChildReads(l: Lazy, a: Area, s: seq<char>)
    requires Reads(l, a.parent, a, s) && forall v: nat | v < |a.frames| :: SamePage(l, a, v)
    ensures Reads(l, a.child, a, s)
  {
    forall v: nat | v < |a.frames| ensures MapsPage(l, a.child, a, v) {
      assert SamePage(l, a, v);
    }
    forall j: nat | j < |s| ensures ReadsByte(l, a.child, a, j, s[j]) {
      assert ReadsByte(l, a.parent, a, j, s[j]);
      assert SamePage(l, a, j / PAGE_SIZE);
    }
  }

  /** fork gives the child the parent's mappings and so the parent's buffer. */
  lemma {:induction false} ForkSharesArea(l: Lazy, a: Area, s: seq<char>)
    requires Inv(l) && Reads(l, a.parent, a, s) && a.parent in l.procs && a.child !in l.procs
    ensures var m := LazyStep(l, Fork(a.parent, a.child));
            Inv(m) && Reads(m, a.parent, a, s) && Reads(m, a.child, a, s)
  {
    var m := LazyStep(l, Fork(a.parent, a.child));
    QuietKeeps(l, Fork(a.parent, a.child), a.parent, a, s);
    forall v: nat | v < |a.frames| ensures SamePage(m, a, v) {
      assert MapsPage(l, a.parent, a, v);
      ForkSharesPage(l, a, v);
    }
    ChildReads(m, a, s);
  }

  lemma {:induction false} TouchedToStride(s: seq<char>, size: nat, b: char)
    requires size <= |s|
    ensures Touched(s, STRIDE * Strides(size), b) == Touched(s, size, b)
  {
    StridesCover(size);
  }

  lemma {:induction false} TouchKeepsProcs(l: Machine, p: nat, a: Area, n: nat, b: char)
    ensures TouchStride(l, p, a, n, b).procs == l.procs
  {
  }

  lemma {:induction false} TouchesKeepProcs(l: Machine, p: nat, a: Area, n: nat, b: char)
    ensures AfterTouches(l, p, a, n, b).procs == l.procs
  {
    var holds := (m: Machine, i: nat) => m.procs == l.procs;
    forall m: Machine, i: nat | i < n && holds(m, i) ensures holds(Toucher(p, a, b)(m, i), i + 1) {
      TouchKeepsProcs(m, p, a, i, b);
    }
    IterateInduction(l, Toucher(p, a, b), n, holds);
  }

  lemma {:induction false} ParentTouches(l: Lazy, a: Area, s: seq<char>, size: nat, own: char)
    requires Inv(l) && a.Distinct() && Reads(l, a.parent, a, s) && size <= |s|
    ensures var m := AfterTouches(l, a.parent, a, Strides(size), own);
            m.procs == l.procs && Reads(m, a.parent, a, Touched(s, size, own))
  {
    StridesCover(size);
    TouchesAreRead(l, a.parent, a, s, Strides(size), own);
    TouchedToStride(s, size, own);
    TouchesKeepProcs(l, a.parent, a, Strides(size), own);
  }

  /** Under every interleaving of child, parent and everyone else: once past waitpid the parent reads the
      child's byte at every multiple of the stride below size and the original byte elsewhere. If fork
      failed it reads its own. */
  lemma {:induction false} ParentSeesChild(
      l: Lazy, a: Area, s: seq<char>, size: nat, own: char, c: char, forkOk: bool, turns: seq<Turn>)
    requires Inv(l) && a.Distinct() && Reads(l, a.parent, a, s) && size <= |s|
    requires a.parent in l.procs && a.child !in l.procs
    ensures var d := AfterDemo(l, a, size, own, c, forkOk, turns);
            && (forkOk && d.parent == Woken ==> Reads(d.memory, a.parent, a, Touched(s, size, c)))
            && (!forkOk ==> Reads(d.memory, a.parent, a, Touched(s, size, own)))
  {
    var m, t := AfterTouches(l, a.parent, a, Strides(size), own), Touched(s, size, own);
    ParentTouches(l, a, s, size, own);
    if forkOk {
      ForkSharesArea(m, a, t);
      TouchNone(t, c);
      ScheduleKeepsProgress(Forked(m, a), turns, a, t, size, c);
      TouchedTwice(s, size, own, c);
    }
  }

  /** The whole demo, from its mmap of size bytes on: where it ends, every multiple of the stride holds
      the child's byte, or the parent's own if fork failed, and everything else is still 0. */
  lemma {:induction false} DemoSeesChild(
      l: Machine, p: nat, c: nat, first: nat, n: nat, own: char, byte: char, forkOk: bool, turns: seq<Turn>)
    requires p in l.procs && c !in l.procs
    requires forall page: nat | first <= page < first + n :: Vacant(l, p, page)
    ensures var m, a := MapShared(l, p, first, n), NewArea(l, p, c, first, n);
            var d, zeros := AfterDemo(m, a, a.Size(), own, byte, forkOk, turns), Zeros(a.Size());
            && (forkOk && d.parent == Woken ==> Reads(d.memory, p, a, Touched(zeros, a.Size(), byte)))
            && (!forkOk ==> Reads(d.memory, p, a, Touched(zeros, a.Size(), own)))
  {
    var m, a := MapShared(l, p, first, n), NewArea(l, p, c, first, n);
    NewAreaReadsZero(l, p, c, first, n);
    ParentSeesChild(m, a, Zeros(a.Size()), a.Size(), own, byte, forkOk, turns);
  }

  function ChildTurns(turns: seq<Turn>): nat {
    if turns == [] then 0
    else ChildTurns(turns[..|turns| - 1]) + if turns[|turns| - 1] == ChildTurn then 1 else 0
  }

  /** The child's position counts its turns. */
  lemma {:induction false} ChildAdvances(l: Lazy, turns: seq<Turn>, a: Area, size: nat, c: char)
    requires Inv(l)
    ensures var d := Schedule(Forked(l, a), turns, a, size, c);
            && d.parent != BeforeFork
            && if ChildTurns(turns) <= Strides(size) then d.child == Writing(STRIDE * ChildTurns(turns))
               else d.child == Exited
  {
    if turns != [] {
      ChildAdvances(l, turns[..|turns| - 1], a, size, c);
      StridesCover(size);
    }
  }

  /** Past its last store the child's next turn ends it: it maps nothing any more, and the parent's mappings
      are as they were. */
  lemma {:induction false} ChildLeaves(d: Demo, a: Area, size: nat, c: char)
    requires Inv(d.memory) && d.parent != BeforeFork && d.child.Writing? && size <= d.child.i && a.parent != a.child
    ensures var e := Take(d, ChildTurn, a, size, c);
            && e.child == Exited && e.parent == d.parent
            && a.child !in e.memory.procs && (forall k: Key | k in e.memory.ptes :: k.0 != a.child)
            && (forall v: nat :: S.SameMapping(d.memory, e.memory, (a.parent, v)))
  {
    S.ExitShows(d.memory, a.child);
    var m := LazyStep(d.memory, Exit(a.child));
    forall v: nat ensures S.SameMapping(d.memory, m, (a.parent, v)) {
      assert (a.parent, v).0 != a.child;
    }
  }

  /** waitpid returns under every schedule that gives the child one turn per page, one to exit, and
      the parent a turn after that. */
  lemma {:induction false} ParentWakes(l: Lazy, turns: seq<Turn>, a: Area, size: nat, c: char)
    requires Inv(l) && Strides(size) < ChildTurns(turns)
    ensures Schedule(Forked(l, a), turns + [ParentTurn], a, size, c).parent == Woken
  {
    ChildAdvances(l, turns, a, size, c);
    assert (turns + [ParentTurn])[..|turns|] == turns;
  }
}
