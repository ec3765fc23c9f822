/**
 The mapping demos as they acquire and release: macos/process/xnu_footprint_demo.cpp,
 macos/process/activity_monitor_demo.mm, macos/process/file_mapping_dirty_demo.cpp and
 windows/process/memory_allocation_demo.cpp. Each body has the cleanup code of its original on every
 path; each contract says that this is the cleanup its plan calls for.
 */
module MappingDemos {
  import opened Resources

  /** The demo gives back all it took, each thing once and in the plan's order: its log is the one the plan
      calls for, and what is live on return is what was live on entry. */
  twostate predicate Followed(os: Os, plan: Plan, order: Order)
    reads os
  {
    && os.Ready() && old(os.next) <= os.next && Restored(old(os.log), os.log, order)
    && os.log == Final(plan, os.fails, old(os.calls), old(os.next), Empty, order, old(os.log))
  }

  /** At the end of its plan a demo has followed it. */
  lemma {:induction false} Done(os: Os, plan: Plan, order: Order)
    requires os.Valid() && os.demo.Idle()
    requires os.demo.goal
          == Final(plan, os.fails, os.demo.start.call, os.demo.start.next, Empty, order, os.demo.start.log)
    requires InOrder(os.demo.start.log, os.demo.start.next) && os.demo.start.next <= os.next
    ensures os.Ready() && os.log == os.demo.goal && Restored(os.demo.start.log, os.log, order)
  {
    FinalRestored(plan, os.fails, os.demo.start.call, os.demo.start.next, order, os.demo.start.log);
  }

  /** shm_open, ftruncate, mmap, fork. */
  function SharedMemoryPlan(): Plan {
    Take(Name, Also(Descriptor, Check(Take(Mapping, Ignore(Finish)))))
  }

  method DemoSharedMemory(os: Os)
    requires os.Ready()
    modifies os
    ensures Followed(os, SharedMemoryPlan(), NewestFirst)
  {
    os.Begin(SharedMemoryPlan(), NewestFirst);
    var created, name := os.Acquire(Name);
    if !created {
      Done(os, SharedMemoryPlan(), NewestFirst);
      return;
    }
    var fd := os.Also(Descriptor);
    var sized := os.Call();
    if !sized {
      os.Release(fd);
      os.Release(name);
      Done(os, SharedMemoryPlan(), NewestFirst);
      return;
    }
    var mapped, mapping := os.Acquire(Mapping);
    if !mapped {
      os.Release(fd);
      os.Release(name);
      Done(os, SharedMemoryPlan(), NewestFirst);
      return;
    }
    var forked := os.Call();
    os.Release(mapping);
    os.Release(fd);
    os.Release(name);
    Done(os, SharedMemoryPlan(), NewestFirst);
  }

  /** create_temp_file, open, mmap. */
  function FileMappedPlan(): Plan {
    Take(Name, Take(Descriptor, Take(Mapping, Finish)))
  }

  method DemoFileMappedMemory(os: Os)
    requires os.Ready()
    modifies os
    ensures Followed(os, FileMappedPlan(), NewestFirst)
  {
    os.Begin(FileMappedPlan(), NewestFirst);
    var created, name := os.Acquire(Name);
    if !created {
      Done(os, FileMappedPlan(), NewestFirst);
      return;
    }
    var found, fd := os.Acquire(Descriptor);
    if !found {
      os.Release(name);
      Done(os, FileMappedPlan(), NewestFirst);
      return;
    }
    var mapped, mapping := os.Acquire(Mapping);
    if !mapped {
      os.Release(fd);
      os.Release(name);
      Done(os, FileMappedPlan(), NewestFirst);
      return;
    }
    os.Release(mapping);
    os.Release(fd);
    os.Release(name);
    Done(os, FileMappedPlan(), NewestFirst);
  }

  /** create_temp_file, open, fstat, mmap. */
  function DirtyFilePlan(): Plan {
    Take(Name, Take(Descriptor, Check(Take(Mapping, Finish))))
  }

  predicate Succeed(fails: nat -> bool, call: nat, count: nat) {
    forall k | call <= k < call + count :: !fails(k)
  }

  lemma {:induction false} DirtyFileCompletes(fails: nat -> bool, call: nat)
    ensures Completes(DirtyFilePlan(), fails, call) <==> Succeed(fails, call, 4)
  {
    var last := Take(Mapping, Finish);
    assert Completes(last, fails, call + 3) <==> !fails(call + 3);
    assert Completes(Check(last), fails, call + 2) <==> !fails(call + 2) && !fails(call + 3);
    assert Completes(DirtyFilePlan(), fails, call) <==>
      !fails(call) && !fails(call + 1) && !fails(call + 2) && !fails(call + 3);
    assert Succeed(fails, call, 4) <==> !fails(call) && !fails(call + 1) && !fails(call + 2) && !fails(call + 3);
  }

  /** main of the dirty-page demo, with its exit status: 0 exactly when all four calls succeed. */
  method DirtyFileDemo(os: Os) returns (status: nat)
    requires os.Ready()
    modifies os
    ensures Followed(os, DirtyFilePlan(), NewestFirst)
    ensures status == if Succeed(os.fails, old(os.calls), 4) then 0 else 1
  {
    DirtyFileCompletes(os.fails, os.calls);
    os.Begin(DirtyFilePlan(), NewestFirst);
    var created, name := os.Acquire(Name);
    if !created {
      Done(os, DirtyFilePlan(), NewestFirst);
      return 1;
    }
    var found, fd := os.Acquire(Descriptor);
    if !found {
      os.Release(name);
      Done(os, DirtyFilePlan(), NewestFirst);
      return 1;
    }
    var sized := os.Call();
    if !sized {
      os.Release(fd);
      os.Release(name);
      Done(os, DirtyFilePlan(), NewestFirst);
      return 1;
    }
    var mapped, mapping := os.Acquire(Mapping);
    if !mapped {
      os.Release(fd);
      os.Release(name);
      Done(os, DirtyFilePlan(), NewestFirst);
      return 1;
    }
    os.Release(mapping);
    os.Release(fd);
    os.Release(name);
    Done(os, DirtyFilePlan(), NewestFirst);
    return 0;
  }

  function FilledPlan(shared: bool): Plan {
    Take(Mapping, if shared then Ignore(Finish) else Finish)
  }

  /** mkstemp, ftruncate, malloc, write, free, mmap; the shared demo also forks. */
  function FileMappingPlan(shared: bool): Plan {
    Take(Name, Also(Descriptor, Check(Take(Buffer, Check(Give(FilledPlan(shared)))))))
  }

  /** From the mmap of the filled file on. */
  method MapFilled(os: Os, shared: bool, name: Resource, fd: Resource)
    requires os.Valid() && os.demo.plan == FilledPlan(shared)
    requires os.demo.mine == Push(fd, Push(name, Empty)) && os.demo.order == NewestFirst
    modifies os
    ensures os.Valid() && os.demo.Idle() && os.demo.goal == old(os.demo.goal)
    ensures os.demo.start == old(os.demo.start) && old(os.next) <= os.next
  {
    var mapped, mapping := os.Acquire(Mapping);
    if !mapped {
      os.Release(fd);
      os.Release(name);
      return;
    }
    if shared {
      var forked := os.Call();
    }
    os.Release(mapping);
    os.Release(fd);
    os.Release(name);
  }

  /** demo_private_file_mapping and demo_shared_file_mapping. */
  method DemoFileMapping(os: Os, shared: bool)
    requires os.Ready()
    modifies os
    ensures Followed(os, FileMappingPlan(shared), NewestFirst)
  {
    os.Begin(FileMappingPlan(shared), NewestFirst);
    var created, name := os.Acquire(Name);
    if !created {
      Done(os, FileMappingPlan(shared), NewestFirst);
      return;
    }
    var fd := os.Also(Descriptor);
    var sized := os.Call();
    if !sized {
      os.Release(fd);
      os.Release(name);
      Done(os, FileMappingPlan(shared), NewestFirst);
      return;
    }
    var granted, buffer := os.Acquire(Buffer);
    if !granted {
      os.Release(fd);
      os.Release(name);
      Done(os, FileMappingPlan(shared), NewestFirst);
      return;
    }
    var written := os.Call();
    if !written {
      os.Release(buffer);
      os.Release(fd);
      os.Release(name);
      Done(os, FileMappingPlan(shared), NewestFirst);
      return;
    }
    os.Release(buffer);
    MapFilled(os, shared, name, fd);
    Done(os, FileMappingPlan(shared), NewestFirst);
  }

  lemma {:induction false} UnderTwo(a: Resource, b: Resource)
    ensures Under(Push(a, Empty), b) == Push(a, Push(b, Empty))
  {
  }

  lemma {:induction false} UnderThree(a: Resource, b: Resource, c: Resource)
    ensures Under(Push(a, Push(b, Empty)), c) == Push(a, Push(b, Push(c, Empty)))
  {
    UnderTwo(b, c);
  }

  /** malloc, mmap, vm_allocate. */
  function RealMemoryPlan(): Plan {
    Take(Buffer, Take(Mapping, Take(Region, Finish)))
  }

  /** Released in the order of acquisition. */
  method DemoRealMemory(os: Os)
    requires os.Ready()
    modifies os
    ensures Followed(os, RealMemoryPlan(), OldestFirst)
  {
    os.Begin(RealMemoryPlan(), OldestFirst);
    var granted, buffer := os.Acquire(Buffer);
    if !granted {
      Done(os, RealMemoryPlan(), OldestFirst);
      return;
    }
    var mapped, mapping := os.Acquire(Mapping);
    if !mapped {
      os.Release(buffer);
      Done(os, RealMemoryPlan(), OldestFirst);
      return;
    }
    UnderTwo(buffer, mapping);
    var reserved, region := os.Acquire(Region);
    if !reserved {
      os.Release(buffer);
      os.Release(mapping);
      Done(os, RealMemoryPlan(), OldestFirst);
      return;
    }
    UnderThree(buffer, mapping, region);
    os.Release(buffer);
    os.Release(mapping);
    os.Release(region);
    Done(os, RealMemoryPlan(), OldestFirst);
  }

  /** One malloc per chunk, up to the first that fails. */
  function ChunksPlan(count: nat): Plan {
    if count == 0 then Finish else Take(Buffer, ChunksPlan(count - 1))
  }

  /** A vector as it is drained from the front. */
  function Queued(chunks: seq<Resource>): Stack {
    if chunks == [] then Empty else Push(chunks[0], Queued(chunks[1..]))
  }

  /** What the demo held before it filled the vector, and goes last. */
  predicate GoesLast(base: Stack, order: Order) {
    (order == OldestFirst && base == Empty) || (order == FirstLast && base.Push? && base.below == Empty)
  }

  lemma {:induction false} QueuedAdd(chunks: seq<Resource>, r: Resource, base: Stack, order: Order)
    requires GoesLast(base, order)
    ensures Over(Queued(chunks + [r]), base) == Add(Over(Queued(chunks), base), r, order)
  {
    if chunks == [] {
      assert Queued([r]) == Push(r, Queued([]));
    } else {
      QueuedAdd(chunks[1..], r, base, order);
      assert (chunks + [r])[1..] == chunks[1..] + [r];
    }
  }

  /** The demo is where it was in everything but its plan and what it holds. */
  twostate predicate SameDemo(os: Os)
    reads os
  {
    && os.Valid() && os.demo.goal == old(os.demo.goal) && os.demo.start == old(os.demo.start)
    && os.demo.order == old(os.demo.order) && old(os.next) <= os.next
  }

  /** The vector is filled until it has its chunks or memory runs out. */
  method Fill(os: Os, count: nat, ghost base: Stack) returns (chunks: seq<Resource>)
    requires os.Valid() && os.demo.plan == ChunksPlan(count) && os.demo.mine == base && GoesLast(base, os.demo.order)
    modifies os
    ensures SameDemo(os) && os.demo.plan == Finish && os.demo.mine == Over(Queued(chunks), base)
    ensures |chunks| <= count && (|chunks| < count ==> os.fails(old(os.calls) + |chunks|))
    ensures forall k | old(os.calls) <= k < old(os.calls) + |chunks| :: !os.fails(k)
  {
    chunks := [];
    var granted := true;
    while |chunks| < count && granted
      invariant SameDemo(os) && |chunks| <= count
      invariant os.demo.mine == Over(Queued(chunks), base)
      invariant os.calls == old(os.calls) + |chunks| + if granted then 0 else 1
      invariant forall k | old(os.calls) <= k < old(os.calls) + |chunks| :: !os.fails(k)
      invariant granted ==> os.demo.plan == ChunksPlan(count - |chunks|)
      invariant !granted ==> os.demo.plan == Finish && os.fails(old(os.calls) + |chunks|)
      decreases count - |chunks|, granted
    {
      var chunk;
      granted, chunk := os.Acquire(Buffer);
      if granted {
        QueuedAdd(chunks, chunk, base, os.demo.order);
        chunks := chunks + [chunk];
      }
    }
  }

  /** ... and drained, oldest first. */
  method Drain(os: Os, chunks: seq<Resource>, ghost base: Stack)
    requires os.Valid() && os.demo.plan == Finish && os.demo.mine == Over(Queued(chunks), base)
    modifies os
    ensures SameDemo(os) && os.demo.plan == Finish && os.demo.mine == base
  {
    for i := 0 to |chunks|
      invariant SameDemo(os) && os.demo.plan == Finish && os.demo.mine == Over(Queued(chunks[i..]), base)
    {
      assert chunks[i..][1..] == chunks[i + 1..];
      os.Release(chunks[i]);
    }
  }

  /** demo_page_table. */
  method DemoPageTable(os: Os, count: nat) returns (filled: nat)
    requires os.Ready()
    modifies os
    ensures Followed(os, ChunksPlan(count), OldestFirst)
    ensures filled <= count && (filled < count ==> os.fails(old(os.calls) + filled))
    ensures forall k | old(os.calls) <= k < old(os.calls) + filled :: !os.fails(k)
  {
    os.Begin(ChunksPlan(count), OldestFirst);
    var chunks := Fill(os, count, Empty);
    filled := |chunks|;
    Drain(os, chunks, Empty);
    Done(os, ChunksPlan(count), OldestFirst);
  }

  /** The memory to be squeezed, then the pressure. */
  function PressurePlan(first: Kind, count: nat): Plan {
    Take(first, ChunksPlan(count))
  }

  /** demo_memory_compression, demo_compressed_memory and demo_purgeable_memory: the vector is drained
      before what was acquired first is let go. */
  method DemoMemoryPressure(os: Os, first: Kind, count: nat)
    requires os.Ready()
    modifies os
    ensures Followed(os, PressurePlan(first, count), FirstLast)
  {
    os.Begin(PressurePlan(first, count), FirstLast);
    var granted, buffer := os.Acquire(first);
    if !granted {
      Done(os, PressurePlan(first, count), FirstLast);
      return;
    }
    var chunks := Fill(os, count, Push(buffer, Empty));
    Drain(os, chunks, Push(buffer, Empty));
    os.Release(buffer);
    Done(os, PressurePlan(first, count), FirstLast);
  }

  /** CreateFileMapping over the paging file, MapViewOfFile. */
  function AnonymousSharedPlan(): Plan {
    Take(MappingHandle, Take(View, Finish))
  }

  method DemoAnonymousShared(os: Os)
    requires os.Ready()
    modifies os
    ensures Followed(os, AnonymousSharedPlan(), NewestFirst)
  {
    os.Begin(AnonymousSharedPlan(), NewestFirst);
    var created, handle := os.Acquire(MappingHandle);
    if !created {
      Done(os, AnonymousSharedPlan(), NewestFirst);
      return;
    }
    var mapped, view := os.Acquire(View);
    if !mapped {
      os.Release(handle);
      Done(os, AnonymousSharedPlan(), NewestFirst);
      return;
    }
    os.Release(view);
    os.Release(handle);
    Done(os, AnonymousSharedPlan(), NewestFirst);
  }

  /** GetTempFileNameA, which creates the file; the stream that fills it; CreateFileA; CreateFileMapping;
      MapViewOfFile. */
  function FileViewPlan(): Plan {
    Take(Name, Check(Take(FileHandle, Take(MappingHandle, Take(View, Finish)))))
  }

  /** The temp file has been created and cannot be opened for filling. createTempFile then returns no
      name, and nobody deletes the file. */
  predicate FileStays(fails: nat -> bool, call: nat) {
    !fails(call) && fails(call + 1)
  }

  /** demoFileMappedPrivate and demoFileMappedShared: they differ in access rights alone. */
  method DemoFileMapped(os: Os)
    requires os.Ready()
    modifies os
    ensures os.Ready() && (Live(os.log) == Live(old(os.log)) <==> !FileStays(os.fails, old(os.calls)))
    ensures !FileStays(os.fails, old(os.calls)) ==> Followed(os, FileViewPlan(), NewestFirst)
    ensures FileStays(os.fails, old(os.calls)) ==> os.log == old(os.log) + [Acquired(Resource(Name, old(os.next)))]
  {
    os.Begin(FileViewPlan(), NewestFirst);
    var created, name := os.Acquire(Name);
    if !created {
      Done(os, FileViewPlan(), NewestFirst);
      return;
    }
    var filled := os.Call();
    if !filled {
      os.Abandon();
      LeftBehind(old(os.log), old(os.next), Name);
      return;
    }
    var found, file := os.Acquire(FileHandle);
    if !found {
      os.Release(name);
      Done(os, FileViewPlan(), NewestFirst);
      return;
    }
    var made, handle := os.Acquire(MappingHandle);
    if !made {
      os.Release(file);
      os.Release(name);
      Done(os, FileViewPlan(), NewestFirst);
      return;
    }
    var mapped, view := os.Acquire(View);
    if !mapped {
      os.Release(handle);
      os.Release(file);
      os.Release(name);
      Done(os, FileViewPlan(), NewestFirst);
      return;
    }
    os.Release(view);
    os.Release(handle);
    os.Release(file);
    os.Release(name);
    Done(os, FileViewPlan(), NewestFirst);
  }

  /** Two calls are enough for the file to stay. */
  lemma {:induction false} FileStaysExample() returns (fails: nat -> bool)
    ensures FileStays(fails, 0)
  {
    fails := (call: nat) => call == 1;
  }
}
