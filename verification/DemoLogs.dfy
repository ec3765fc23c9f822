/**
 What each demo takes and lets go of, call by call: the log of its plan written out for every first
 failure. c is the number of the demo's first call and n the first identity it gives out.
 */
module DemoLogs {
  import opened Resources
  import opened MappingDemos
  import opened SysVSearch

  function Got(kind: Kind, id: nat): Event {
    Acquired(Resource(kind, id))
  }

  function Gone(kind: Kind, id: nat): Event {
    Released(Resource(kind, id))
  }

  // One step of a plan at a time

  lemma {:induction false} TakeStep(
      kind: Kind, rest: Plan, fails: nat -> bool, c: nat, n: nat, mine: Stack, order: Order, log: seq<Event>)
    ensures var r := Resource(kind, n);
            Final(Take(kind, rest), fails, c, n, mine, order, log)
              == if fails(c) then Unwound(mine, log)
                 else Final(rest, fails, c + 1, n + 1, Add(mine, r, order), order, log + [Got(kind, n)])
  {
  }

  lemma {:induction false} AlsoStep(
      kind: Kind, rest: Plan, fails: nat -> bool, c: nat, n: nat, mine: Stack, order: Order, log: seq<Event>)
    ensures var r := Resource(kind, n);
            Final(Also(kind, rest), fails, c, n, mine, order, log)
              == Final(rest, fails, c, n + 1, Add(mine, r, order), order, log + [Got(kind, n)])
  {
  }

  lemma {:induction false} CheckStep(
      rest: Plan, fails: nat -> bool, c: nat, n: nat, mine: Stack, order: Order, log: seq<Event>)
    ensures Final(Check(rest), fails, c, n, mine, order, log)
         == if fails(c) then Unwound(mine, log) else Final(rest, fails, c + 1, n, mine, order, log)
    ensures Final(Ignore(Finish), fails, c, n, mine, order, log) == Unwound(mine, log)
    ensures Final(Finish, fails, c, n, mine, order, log) == Unwound(mine, log)
  {
  }

  lemma {:induction false} UnwoundStep(a: Resource, below: Stack, log: seq<Event>)
    ensures Unwound(Push(a, below), log) == Unwound(below, log + [Released(a)])
    ensures Unwound(Empty, log) == log
  {
  }

  /** What is held, released from the top. */
  lemma {:induction false} UnwoundAll(a: Resource, b: Resource, c: Resource, d: Resource, log: seq<Event>)
    ensures Unwound(Push(a, Empty), log) == log + [Released(a)]
    ensures Unwound(Push(a, Push(b, Empty)), log) == log + [Released(a), Released(b)]
    ensures Unwound(Push(a, Push(b, Push(c, Empty))), log) == log + [Released(a), Released(b), Released(c)]
    ensures Unwound(Push(a, Push(b, Push(c, Push(d, Empty)))), log)
         == log + [Released(a), Released(b), Released(c), Released(d)]
  {
    var one, two := log + [Released(a)], log + [Released(a), Released(b)];
    var three := log + [Released(a), Released(b), Released(c)];
    assert one + [Released(b)] == two && two + [Released(c)] == three;
    assert three + [Released(d)] == log + [Released(a), Released(b), Released(c), Released(d)];
    UnwoundStep(a, Empty, log);
    UnwoundStep(a, Push(b, Empty), log);
    UnwoundStep(b, Empty, one);
    UnwoundStep(a, Push(b, Push(c, Empty)), log);
    UnwoundStep(b, Push(c, Empty), one);
    UnwoundStep(c, Empty, two);
    UnwoundStep(a, Push(b, Push(c, Push(d, Empty))), log);
    UnwoundStep(b, Push(c, Push(d, Empty)), one);
    UnwoundStep(c, Push(d, Empty), two);
    UnwoundStep(d, Empty, three);
  }

  // The demos

  /** CreateFileMapping, MapViewOfFile. */
  lemma {:induction false} AnonymousSharedLog(fails: nat -> bool, c: nat, n: nat, log: seq<Event>)
    ensures Final(AnonymousSharedPlan(), fails, c, n, Empty, NewestFirst, log) == log +
              if fails(c) then []
              else if fails(c + 1) then [Got(MappingHandle, n), Gone(MappingHandle, n)]
              else [Got(MappingHandle, n), Got(View, n + 1), Gone(View, n + 1), Gone(MappingHandle, n)]
  {
    var handle, view := Resource(MappingHandle, n), Resource(View, n + 1);
    var one := log + [Acquired(handle)];
    TakeStep(MappingHandle, Take(View, Finish), fails, c, n, Empty, NewestFirst, log);
    TakeStep(View, Finish, fails, c + 1, n + 1, Push(handle, Empty), NewestFirst, one);
    CheckStep(Finish, fails, c + 2, n + 2, Push(view, Push(handle, Empty)), NewestFirst, one + [Acquired(view)]);
    UnwoundAll(handle, handle, handle, handle, one);
    UnwoundAll(view, handle, handle, handle, one + [Acquired(view)]);
  }

  /** shm_open, ftruncate, mmap, fork: whether fork works makes no difference. */
  function SharedMemoryEvents(fails: nat -> bool, c: nat, n: nat): seq<Event> {
    if fails(c) then []
    else if fails(c + 1) || fails(c + 2) then
      [Got(Name, n), Got(Descriptor, n + 1), Gone(Descriptor, n + 1), Gone(Name, n)]
    else
      [Got(Name, n), Got(Descriptor, n + 1), Got(Mapping, n + 2),
       Gone(Mapping, n + 2), Gone(Descriptor, n + 1), Gone(Name, n)]
  }

  lemma {:induction false} SharedMemoryLog(fails: nat -> bool, c: nat, n: nat, log: seq<Event>)
    ensures Final(SharedMemoryPlan(), fails, c, n, Empty, NewestFirst, log) == log + SharedMemoryEvents(fails, c, n)
  {
    var name, fd, mapping := Resource(Name, n), Resource(Descriptor, n + 1), Resource(Mapping, n + 2);
    var held, all := Push(fd, Push(name, Empty)), Push(mapping, Push(fd, Push(name, Empty)));
    var two := log + [Acquired(name)] + [Acquired(fd)];
    var three := two + [Acquired(mapping)];
    var last := Take(Mapping, Ignore(Finish));
    TakeStep(Name, Also(Descriptor, Check(last)), fails, c, n, Empty, NewestFirst, log);
    AlsoStep(Descriptor, Check(last), fails, c + 1, n + 1, Push(name, Empty), NewestFirst, log + [Acquired(name)]);
    CheckStep(last, fails, c + 1, n + 2, held, NewestFirst, two);
    TakeStep(Mapping, Ignore(Finish), fails, c + 2, n + 2, held, NewestFirst, two);
    CheckStep(Finish, fails, c + 3, n + 3, all, NewestFirst, three);
    UnwoundAll(fd, name, name, name, two);
    UnwoundAll(mapping, fd, name, name, three);
  }

  /** A temp file, open, mmap. */
  lemma {:induction false} FileMappedLog(fails: nat -> bool, c: nat, n: nat, log: seq<Event>)
    ensures Final(FileMappedPlan(), fails, c, n, Empty, NewestFirst, log) == log +
              if fails(c) then []
              else if fails(c + 1) then [Got(Name, n), Gone(Name, n)]
              else if fails(c + 2) then
                [Got(Name, n), Got(Descriptor, n + 1), Gone(Descriptor, n + 1), Gone(Name, n)]
              else
                [Got(Name, n), Got(Descriptor, n + 1), Got(Mapping, n + 2),
                 Gone(Mapping, n + 2), Gone(Descriptor, n + 1), Gone(Name, n)]
  {
    var name, fd, mapping := Resource(Name, n), Resource(Descriptor, n + 1), Resource(Mapping, n + 2);
    var one, two := log + [Acquired(name)], log + [Acquired(name)] + [Acquired(fd)];
    var three := two + [Acquired(mapping)];
    TakeStep(Name, Take(Descriptor, Take(Mapping, Finish)), fails, c, n, Empty, NewestFirst, log);
    TakeStep(Descriptor, Take(Mapping, Finish), fails, c + 1, n + 1, Push(name, Empty), NewestFirst, one);
    TakeStep(Mapping, Finish, fails, c + 2, n + 2, Push(fd, Push(name, Empty)), NewestFirst, two);
    CheckStep(Finish, fails, c + 3, n + 3, Push(mapping, Push(fd, Push(name, Empty))), NewestFirst, three);
    UnwoundAll(name, name, name, name, one);
    UnwoundAll(fd, name, name, name, two);
    UnwoundAll(mapping, fd, name, name, three);
  }

  /** The dirty-page demo makes one call more, the fstat between open and mmap. */
  lemma {:induction false} DirtyFileLog(fails: nat -> bool, c: nat, n: nat, log: seq<Event>)
    ensures Final(DirtyFilePlan(), fails, c, n, Empty, NewestFirst, log) == log +
              if fails(c) then []
              else if fails(c + 1) then [Got(Name, n), Gone(Name, n)]
              else if fails(c + 2) || fails(c + 3) then
                [Got(Name, n), Got(Descriptor, n + 1), Gone(Descriptor, n + 1), Gone(Name, n)]
              else
                [Got(Name, n), Got(Descriptor, n + 1), Got(Mapping, n + 2),
                 Gone(Mapping, n + 2), Gone(Descriptor, n + 1), Gone(Name, n)]
  {
    var name, fd, mapping := Resource(Name, n), Resource(Descriptor, n + 1), Resource(Mapping, n + 2);
    var one, two := log + [Acquired(name)], log + [Acquired(name)] + [Acquired(fd)];
    var three := two + [Acquired(mapping)];
    var last := Take(Mapping, Finish);
    TakeStep(Name, Take(Descriptor, Check(last)), fails, c, n, Empty, NewestFirst, log);
    TakeStep(Descriptor, Check(last), fails, c + 1, n + 1, Push(name, Empty), NewestFirst, one);
    CheckStep(last, fails, c + 2, n + 2, Push(fd, Push(name, Empty)), NewestFirst, two);
    TakeStep(Mapping, Finish, fails, c + 3, n + 2, Push(fd, Push(name, Empty)), NewestFirst, two);
    CheckStep(Finish, fails, c + 4, n + 3, Push(mapping, Push(fd, Push(name, Empty))), NewestFirst, three);
    UnwoundAll(name, name, name, name, one);
    UnwoundAll(fd, name, name, name, two);
    UnwoundAll(mapping, fd, name, name, three);
  }

  lemma {:induction false} GiveStep(
      rest: Plan, fails: nat -> bool, c: nat, n: nat, top: Resource, below: Stack, order: Order, log: seq<Event>)
    ensures Final(Give(rest), fails, c, n, Push(top, below), order, log)
         == Final(rest, fails, c, n, below, order, log + [Released(top)])
  {
  }

  /** From the mmap of the filled file on. */
  lemma {:induction false} FilledLog(
      shared: bool, fails: nat -> bool, c: nat, n: nat, name: Resource, fd: Resource, log: seq<Event>)
    ensures Final(FilledPlan(shared), fails, c, n, Push(fd, Push(name, Empty)), NewestFirst, log) == log +
              if fails(c) then [Released(fd), Released(name)]
              else [Got(Mapping, n), Gone(Mapping, n), Released(fd), Released(name)]
  {
    var held, mapping := Push(fd, Push(name, Empty)), Resource(Mapping, n);
    var one := log + [Acquired(mapping)];
    TakeStep(Mapping, if shared then Ignore(Finish) else Finish, fails, c, n, held, NewestFirst, log);
    CheckStep(Finish, fails, c + 1, n + 1, Push(mapping, held), NewestFirst, one);
    UnwoundAll(fd, name, name, name, log);
    UnwoundAll(mapping, fd, name, name, one);
  }

  /** mkstemp, ftruncate, malloc, write, mmap: the buffer is freed before the file is mapped. */
  lemma {:induction false} FileMappingLog(shared: bool, fails: nat -> bool, c: nat, n: nat, log: seq<Event>)
    ensures Final(FileMappingPlan(shared), fails, c, n, Empty, NewestFirst, log) == log +
              if fails(c) then []
              else if fails(c + 1) || fails(c + 2) then
                [Got(Name, n), Got(Descriptor, n + 1), Gone(Descriptor, n + 1), Gone(Name, n)]
              else if fails(c + 3) || fails(c + 4) then
                [Got(Name, n), Got(Descriptor, n + 1), Got(Buffer, n + 2),
                 Gone(Buffer, n + 2), Gone(Descriptor, n + 1), Gone(Name, n)]
              else
                [Got(Name, n), Got(Descriptor, n + 1), Got(Buffer, n + 2), Gone(Buffer, n + 2),
                 Got(Mapping, n + 3), Gone(Mapping, n + 3), Gone(Descriptor, n + 1), Gone(Name, n)]
  {
    var name, fd, buffer := Resource(Name, n), Resource(Descriptor, n + 1), Resource(Buffer, n + 2);
    var held, two := Push(fd, Push(name, Empty)), log + [Acquired(name)] + [Acquired(fd)];
    var three := two + [Acquired(buffer)];
    var filled := Check(Give(FilledPlan(shared)));
    TakeStep(Name, Also(Descriptor, Check(Take(Buffer, filled))), fails, c, n, Empty, NewestFirst, log);
    AlsoStep(Descriptor, Check(Take(Buffer, filled)), fails, c + 1, n + 1, Push(name, Empty), NewestFirst,
             log + [Acquired(name)]);
    CheckStep(Take(Buffer, filled), fails, c + 1, n + 2, held, NewestFirst, two);
    TakeStep(Buffer, filled, fails, c + 2, n + 2, held, NewestFirst, two);
    CheckStep(Give(FilledPlan(shared)), fails, c + 3, n + 3, Push(buffer, held), NewestFirst, three);
    GiveStep(FilledPlan(shared), fails, c + 4, n + 3, buffer, held, NewestFirst, three);
    FilledLog(shared, fails, c + 4, n + 3, name, fd, three + [Released(buffer)]);
    UnwoundAll(fd, name, name, name, two);
    UnwoundAll(buffer, fd, name, name, three);
  }

  /** malloc, mmap, vm_allocate, released in the order of acquisition. */
  lemma {:induction false} RealMemoryLog(fails: nat -> bool, c: nat, n: nat, log: seq<Event>)
    ensures Final(RealMemoryPlan(), fails, c, n, Empty, OldestFirst, log) == log +
              if fails(c) then []
              else if fails(c + 1) then [Got(Buffer, n), Gone(Buffer, n)]
              else if fails(c + 2) then
                [Got(Buffer, n), Got(Mapping, n + 1), Gone(Buffer, n), Gone(Mapping, n + 1)]
              else
                [Got(Buffer, n), Got(Mapping, n + 1), Got(Region, n + 2),
                 Gone(Buffer, n), Gone(Mapping, n + 1), Gone(Region, n + 2)]
  {
    var buffer, mapping, region := Resource(Buffer, n), Resource(Mapping, n + 1), Resource(Region, n + 2);
    var one, two := log + [Acquired(buffer)], log + [Acquired(buffer)] + [Acquired(mapping)];
    var three := two + [Acquired(region)];
    TakeStep(Buffer, Take(Mapping, Take(Region, Finish)), fails, c, n, Empty, OldestFirst, log);
    TakeStep(Mapping, Take(Region, Finish), fails, c + 1, n + 1, Push(buffer, Empty), OldestFirst, one);
    UnderTwo(buffer, mapping);
    TakeStep(Region, Finish, fails, c + 2, n + 2, Push(buffer, Push(mapping, Empty)), OldestFirst, two);
    UnderThree(buffer, mapping, region);
    CheckStep(Finish, fails, c + 3, n + 3, Push(buffer, Push(mapping, Push(region, Empty))), OldestFirst, three);
    UnwoundAll(buffer, mapping, region, region, one);
    UnwoundAll(buffer, mapping, region, region, two);
    UnwoundAll(buffer, mapping, region, region, three);
  }

  /** GetTempFileNameA, the stream, CreateFileA, CreateFileMapping, MapViewOfFile; the stream opens. */
  lemma {:induction false} FileViewLog(fails: nat -> bool, c: nat, n: nat, log: seq<Event>)
    requires !FileStays(fails, c)
    ensures Final(FileViewPlan(), fails, c, n, Empty, NewestFirst, log) == log +
              if fails(c) then []
              else if fails(c + 2) then [Got(Name, n), Gone(Name, n)]
              else if fails(c + 3) then
                [Got(Name, n), Got(FileHandle, n + 1), Gone(FileHandle, n + 1), Gone(Name, n)]
              else if fails(c + 4) then
                [Got(Name, n), Got(FileHandle, n + 1), Got(MappingHandle, n + 2),
                 Gone(MappingHandle, n + 2), Gone(FileHandle, n + 1), Gone(Name, n)]
              else
                [Got(Name, n), Got(FileHandle, n + 1), Got(MappingHandle, n + 2), Got(View, n + 3),
                 Gone(View, n + 3), Gone(MappingHandle, n + 2), Gone(FileHandle, n + 1), Gone(Name, n)]
  {
    var name, file := Resource(Name, n), Resource(FileHandle, n + 1);
    var handle, view := Resource(MappingHandle, n + 2), Resource(View, n + 3);
    var one, two := log + [Acquired(name)], log + [Acquired(name)] + [Acquired(file)];
    var three, four := two + [Acquired(handle)], two + [Acquired(handle)] + [Acquired(view)];
    var last := Take(MappingHandle, Take(View, Finish));
    TakeStep(Name, Check(Take(FileHandle, last)), fails, c, n, Empty, NewestFirst, log);
    CheckStep(Take(FileHandle, last), fails, c + 1, n + 1, Push(name, Empty), NewestFirst, one);
    TakeStep(FileHandle, last, fails, c + 2, n + 1, Push(name, Empty), NewestFirst, one);
    TakeStep(MappingHandle, Take(View, Finish), fails, c + 3, n + 2, Push(file, Push(name, Empty)), NewestFirst, two);
    TakeStep(View, Finish, fails, c + 4, n + 3, Push(handle, Push(file, Push(name, Empty))), NewestFirst, three);
    CheckStep(Finish, fails, c + 5, n + 4, Push(view, Push(handle, Push(file, Push(name, Empty)))), NewestFirst, four);
    UnwoundAll(name, name, name, name, one);
    UnwoundAll(file, name, name, name, two);
    UnwoundAll(handle, file, name, name, three);
    UnwoundAll(view, handle, file, name, four);
  }

  // The demos that fill a vector

  /** Buffers n, n + 1, ..., k of them, to go in that order and before base. */
  function Row(n: nat, k: nat, base: Stack): Stack
    decreases k
  {
    if k == 0 then base else Push(Resource(Buffer, n), Row(n + 1, k - 1, base))
  }

  function AllGot(n: nat, k: nat): seq<Event> {
    seq(k, (i: nat) => Got(Buffer, n + i))
  }

  function AllGone(n: nat, k: nat): seq<Event> {
    seq(k, (i: nat) => Gone(Buffer, n + i))
  }

  lemma {:induction false} RowGrows(n: nat, k: nat, base: Stack, order: Order)
    requires GoesLast(base, order)
    ensures Add(Row(n, k, base), Resource(Buffer, n + k), order) == Row(n, k + 1, base)
    decreases k
  {
    if k == 0 {
      assert Row(n + 1, 0, base) == base;
    } else {
      RowGrows(n + 1, k - 1, base, order);
      assert Row(n, k, base).below == Row(n + 1, k - 1, base) != Empty || order == OldestFirst;
    }
  }

  lemma {:induction false} RowUnwound(n: nat, k: nat, base: Stack, log: seq<Event>)
    ensures Unwound(Row(n, k, base), log) == Unwound(base, log + AllGone(n, k))
    decreases k
  {
    if k == 0 {
      assert log + AllGone(n, 0) == log;
    } else {
      RowUnwound(n + 1, k - 1, base, log + [Gone(Buffer, n)]);
      assert log + [Gone(Buffer, n)] + AllGone(n + 1, k - 1) == log + AllGone(n, k);
    }
  }

  /** The chunk that fails, if one does, is the k-th after those already there. */
  lemma {:induction false} ChunksUnwound(
      count: nat, k: nat, fails: nat -> bool, c: nat, n: nat, have: nat, base: Stack, order: Order, log: seq<Event>)
    requires GoesLast(base, order)
    requires k <= count && (forall i | c <= i < c + k :: !fails(i)) && (k < count ==> fails(c + k))
    ensures Final(ChunksPlan(count), fails, c, n + have, Row(n, have, base), order, log)
         == Unwound(Row(n, have + k, base), log + AllGot(n + have, k))
    decreases count
  {
    assert log + AllGot(n + have, 0) == log;
    if count > 0 {
      TakeStep(Buffer, ChunksPlan(count - 1), fails, c, n + have, Row(n, have, base), order, log);
      if k > 0 {
        RowGrows(n, have, base, order);
        ChunksUnwound(count - 1, k - 1, fails, c + 1, n, have + 1, base, order, log + [Got(Buffer, n + have)]);
        assert log + [Got(Buffer, n + have)] + AllGot(n + have + 1, k - 1) == log + AllGot(n + have, k);
      }
    }
  }

  /** Chunks up to the first failure, and then all of them go, oldest first. */
  lemma {:induction false} ChunksLog(count: nat, k: nat, fails: nat -> bool, c: nat, n: nat, log: seq<Event>)
    requires k <= count && (forall i | c <= i < c + k :: !fails(i)) && (k < count ==> fails(c + k))
    ensures Final(ChunksPlan(count), fails, c, n, Empty, OldestFirst, log) == log + AllGot(n, k) + AllGone(n, k)
  {
    ChunksUnwound(count, k, fails, c, n, 0, Empty, OldestFirst, log);
    RowUnwound(n, k, Empty, log + AllGot(n, k));
    assert Unwound(Empty, log + AllGot(n, k) + AllGone(n, k)) == log + AllGot(n, k) + AllGone(n, k);
  }

  /** The memory to be squeezed, then k chunks; the chunks go first, and it goes last. */
  lemma {:induction false} PressureLog(
      first: Kind, count: nat, k: nat, fails: nat -> bool, c: nat, n: nat, log: seq<Event>)
    requires k <= count && (forall i | c < i <= c + k :: !fails(i)) && (k < count ==> fails(c + k + 1))
    ensures Final(PressurePlan(first, count), fails, c, n, Empty, FirstLast, log) ==
              if fails(c) then log
              else log + [Got(first, n)] + AllGot(n + 1, k) + AllGone(n + 1, k) + [Gone(first, n)]
  {
    var r, one := Resource(first, n), log + [Got(first, n)];
    TakeStep(first, ChunksPlan(count), fails, c, n, Empty, FirstLast, log);
    ChunksUnwound(count, k, fails, c + 1, n + 1, 0, Push(r, Empty), FirstLast, one);
    RowUnwound(n + 1, k, Push(r, Empty), one + AllGot(n + 1, k));
    UnwoundAll(r, r, r, r, one + AllGot(n + 1, k) + AllGone(n + 1, k));
  }

  // The System V demo

  /** A segment left over is found and removed, or there is none. */
  lemma {:induction false} StaleLog(fails: nat -> bool, c: nat, n: nat, log: seq<Event>)
    ensures Final(StalePlan(), fails, c, n, Empty, NewestFirst, log)
         == log + if fails(c) then [] else [Got(Segment, n), Gone(Segment, n)]
  {
    var stale := Resource(Segment, n);
    TakeStep(Segment, Finish, fails, c, n, Empty, NewestFirst, log);
    CheckStep(Finish, fails, c + 1, n + 1, Push(stale, Empty), NewestFirst, log + [Got(Segment, n)]);
    UnwoundAll(stale, stale, stale, stale, log + [Got(Segment, n)]);
  }

  /** All twenty requests refused: the demo takes nothing of its own and runs the POSIX demo instead. */
  lemma {:induction false} RefusedLog(fails: nat -> bool, c: nat, n: nat, log: seq<Event>)
    requires forall k | c <= k < c + 20 :: fails(k)
    ensures AfterStale(fails, c, n, log) == log + SharedMemoryEvents(fails, c + 20, n)
  {
    FirstWorkingIs(fails, c, c + ATTEMPTS, c + ATTEMPTS);
    SharedMemoryLog(fails, c + 20, n, log);
  }

  /** What a demo whose m-th call found a segment then logs. */
  function FoundEvents(fails: nat -> bool, m: nat, n: nat): seq<Event> {
    if fails(m + 1) then [Got(Segment, n), Gone(Segment, n)] + SharedMemoryEvents(fails, m + 2, n + 1)
    else [Got(Segment, n), Got(Attachment, n + 1), Gone(Attachment, n + 1), Gone(Segment, n)]
  }

  lemma {:induction false} SegmentLog(fails: nat -> bool, m: nat, n: nat, log: seq<Event>)
    requires !fails(m)
    ensures Final(SegmentPlan(), fails, m, n, Empty, NewestFirst, log) == log +
              if fails(m + 1) then [Got(Segment, n), Gone(Segment, n)]
              else [Got(Segment, n), Got(Attachment, n + 1), Gone(Attachment, n + 1), Gone(Segment, n)]
  {
    var segment, address := Resource(Segment, n), Resource(Attachment, n + 1);
    var one, two := log + [Acquired(segment)], log + [Acquired(segment)] + [Acquired(address)];
    TakeStep(Segment, AttachPlan(), fails, m, n, Empty, NewestFirst, log);
    TakeStep(Attachment, Ignore(Finish), fails, m + 1, n + 1, Push(segment, Empty), NewestFirst, one);
    CheckStep(Finish, fails, m + 2, n + 2, Push(address, Push(segment, Empty)), NewestFirst, two);
    UnwoundAll(segment, segment, segment, segment, one);
    UnwoundAll(address, segment, segment, segment, two);
  }

  /** The first request to work is the m-th call: the segment is attached, detached and removed; if it
      cannot be attached it is removed at once, and the POSIX demo runs. */
  lemma {:induction false} FoundLog(fails: nat -> bool, c: nat, n: nat, m: nat, log: seq<Event>)
    requires c <= m < c + 20 && !fails(m) && forall k | c <= k < m :: fails(k)
    ensures AfterStale(fails, c, n, log) == log + FoundEvents(fails, m, n)
  {
    FirstWorkingIs(fails, c, c + ATTEMPTS, m);
    SegmentLog(fails, m, n, log);
    if fails(m + 1) {
      var used := log + [Got(Segment, n), Gone(Segment, n)];
      SharedMemoryLog(fails, m + 2, n + 1, used);
      assert used + SharedMemoryEvents(fails, m + 2, n + 1) == log + FoundEvents(fails, m, n);
    }
  }

  /** The whole demo, first refused, then served. */
  lemma {:induction false} SysVWholeLog(fails: nat -> bool, c: nat, n: nat, m: nat, log: seq<Event>)
    requires c < m <= c + 21 && (forall k | c < k < m :: fails(k)) && (m < c + 21 ==> !fails(m))
    ensures var stale := if fails(c) then [] else [Got(Segment, n), Gone(Segment, n)];
            var next := if fails(c) then n else n + 1;
            SysVLog(fails, c, n, log) == log + stale +
              if m == c + 21 then SharedMemoryEvents(fails, m, next) else FoundEvents(fails, m, next)
  {
    var next := if fails(c) then n else n + 1;
    var cleaned := log + if fails(c) then [] else [Got(Segment, n), Gone(Segment, n)];
    StaleLog(fails, c, n, log);
    if m == c + 21 {
      RefusedLog(fails, c + 1, next, cleaned);
    } else {
      FoundLog(fails, c + 1, next, m, cleaned);
    }
  }
}
