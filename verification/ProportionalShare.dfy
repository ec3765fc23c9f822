/**
 A system of processes that map memory objects, measured by the walk of RegionWalk.
 Each object keeps a stored reference count; the steps below maintain it the way a kernel does,
 one increment or decrement per mapping made or dropped.
 */
module ProportionalShare {
  import opened Division
  import opened Sums
  import opened Words
  import opened RegionWalk

  /** Sizes are in pages. */
  datatype Obj = Obj(capacity: nat, resident: nat, refs: nat)

  /** cow marks a private mapping, which fork leaves shared until it is written. */
  datatype Mapping = Mapping(obj: nat, cow: bool)

  datatype System = System(objs: seq<Obj>, procs: seq<seq<Mapping>>)

  /** Total lookup; Inv rules the second case out. */
  function At(objs: seq<Obj>, o: nat): Obj {
    if o < |objs| then objs[o] else Obj(1, 0, 0)
  }

  // The recount

  function CountIn(ms: seq<Mapping>, o: nat): nat {
    if ms == [] then 0
    else CountIn(ms[..|ms| - 1], o) + if ms[|ms| - 1].obj == o then 1 else 0
  }

  function Mappers(procs: seq<seq<Mapping>>, o: nat): nat {
    if procs == [] then 0 else Mappers(procs[..|procs| - 1], o) + CountIn(procs[|procs| - 1], o)
  }

  ghost predicate Counted(objs: seq<Obj>, procs: seq<seq<Mapping>>, o: nat)
    requires o < |objs|
  {
    objs[o].refs == Mappers(procs, o) && 0 < objs[o].capacity && objs[o].resident <= objs[o].capacity
  }

  ghost predicate Inv(s: System) {
    && (forall ms, m | ms in s.procs && m in ms :: m.obj < |s.objs|)
    && (forall o: nat | o < |s.objs| :: Counted(s.objs, s.procs, o))
  }

  // What the kernel reports for a mapping, and the address space a walk sees

  /** An object with one mapper is resident privately, whatever flags mapped it; with more, all
      its resident pages are shared. */
  function RegionOf(objs: seq<Obj>, m: Mapping, base: nat, pageSize: nat): Region {
    var b := At(objs, m.obj);
    var alone := b.refs <= 1;
    Region(base, b.capacity * pageSize,
           if m.cow then Cow else if alone then Private else Shared,
           b.refs, if alone then b.resident else 0, if alone then 0 else b.resident)
  }

  function AddressSpace(objs: seq<Obj>, ms: seq<Mapping>, base: nat, pageSize: nat): seq<Region> {
    if ms == [] then []
    else
      var r := RegionOf(objs, ms[0], base, pageSize);
      [r] + AddressSpace(objs, ms[1..], r.End(), pageSize)
  }

  /** real_private_memory and real_shared_memory of a process, as the walk computes them. */
  function RealPrivate(objs: seq<Obj>, base: nat, pageSize: nat): seq<Mapping> -> nat {
    (ms: seq<Mapping>) => Sum(AddressSpace(objs, ms, base, pageSize), PrivateBytes(pageSize))
  }

  function RealShared(objs: seq<Obj>, base: nat, pageSize: nat): seq<Mapping> -> nat {
    (ms: seq<Mapping>) => Sum(AddressSpace(objs, ms, base, pageSize), SharedBytes(pageSize))
  }

  function RealTotal(objs: seq<Obj>, base: nat, pageSize: nat, ms: seq<Mapping>): nat {
    RealPrivate(objs, base, pageSize)(ms) + RealShared(objs, base, pageSize)(ms)
  }

  // The same figures per object

  function Bytes(objs: seq<Obj>, pageSize: nat, o: nat): nat {
    At(objs, o).resident * pageSize
  }

  /** One mapper's part of an object nobody else maps. */
  function Alone(objs: seq<Obj>, pageSize: nat): nat -> nat {
    (o: nat) => if At(objs, o).refs == 1 then Bytes(objs, pageSize, o) else 0
  }

  /** One mapper's part of an object others map too. */
  function Portion(objs: seq<Obj>, pageSize: nat): nat -> nat {
    (o: nat) => if 1 < At(objs, o).refs then Bytes(objs, pageSize, o) / At(objs, o).refs else 0
  }

  /** Of the resident bytes of an object, the whole that its mappers' portions divide evenly. */
  function Divided(objs: seq<Obj>, pageSize: nat): nat -> nat {
    (o: nat) =>
      if 1 < At(objs, o).refs
      then Bytes(objs, pageSize, o) - Bytes(objs, pageSize, o) % At(objs, o).refs else 0
  }

  function Lost(objs: seq<Obj>, pageSize: nat): nat -> nat {
    (o: nat) => if 0 < At(objs, o).refs then Bytes(objs, pageSize, o) % At(objs, o).refs else 0
  }

  function Live(objs: seq<Obj>, pageSize: nat): nat -> nat {
    (o: nat) => if 0 < At(objs, o).refs then Bytes(objs, pageSize, o) else 0
  }

  /** One part h(o) for every mapping of an object o. */
  function PerMapping(ms: seq<Mapping>, h: nat -> nat): nat {
    if ms == [] then 0 else PerMapping(ms[..|ms| - 1], h) + h(ms[|ms| - 1].obj)
  }

  lemma {:induction false} PerMappingFront(m: Mapping, ms: seq<Mapping>, h: nat -> nat)
    ensures PerMapping([m] + ms, h) == h(m.obj) + PerMapping(ms, h)
  {
    if ms == [] {
      assert [m] + ms == [m];
    } else {
      PerMappingFront(m, ms[..|ms| - 1], h);
      assert ([m] + ms)[..|ms|] == [m] + ms[..|ms| - 1];
    }
  }

  /** For a process whose objects are all counted, the walk sums one part per mapping. */
  lemma {:induction false} WalkIsPerMapping(objs: seq<Obj>, ms: seq<Mapping>, base: nat, pageSize: nat)
    requires forall m | m in ms :: 0 < At(objs, m.obj).refs
    ensures RealPrivate(objs, base, pageSize)(ms) == PerMapping(ms, Alone(objs, pageSize))
    ensures RealShared(objs, base, pageSize)(ms) == PerMapping(ms, Portion(objs, pageSize))
  {
    if ms != [] {
      var r := RegionOf(objs, ms[0], base, pageSize);
      var rest := AddressSpace(objs, ms[1..], r.End(), pageSize);
      WalkIsPerMapping(objs, ms[1..], r.End(), pageSize);
      assert ms == [ms[0]] + ms[1..];
      assert 0 < At(objs, ms[0].obj).refs;
      SumConcat([r], rest, PrivateBytes(pageSize));
      SumConcat([r], rest, SharedBytes(pageSize));
      PerMappingFront(ms[0], ms[1..], Alone(objs, pageSize));
      PerMappingFront(ms[0], ms[1..], Portion(objs, pageSize));
    }
  }

  // Counting the same thing by process and by object

  /** count parts, added up one at a time. */
  function Times(count: nat, part: nat): nat {
    if count == 0 then 0 else Times(count - 1, part) + part
  }

  lemma {:induction false} TimesAdd(a: nat, b: nat, part: nat)
    ensures Times(a + b, part) == Times(a, part) + Times(b, part)
  {
    if b > 0 {
      TimesAdd(a, b - 1, part);
    }
  }

  lemma {:induction false} TimesIsProduct(count: nat, part: nat)
    ensures Times(count, part) == count * part
  {
    if count > 0 {
      TimesIsProduct(count - 1, part);
      assert count * part == (count - 1) * part + part;
    }
  }

  /** The parts of the objects below n, each as often as it is mapped. */
  function PerObject(ms: seq<Mapping>, h: nat -> nat, n: nat): nat {
    if n == 0 then 0 else PerObject(ms, h, n - 1) + Times(CountIn(ms, n - 1), h(n - 1))
  }

  function PerObjectAll(procs: seq<seq<Mapping>>, h: nat -> nat, n: nat): nat {
    if n == 0 then 0 else PerObjectAll(procs, h, n - 1) + Times(Mappers(procs, n - 1), h(n - 1))
  }

  lemma {:induction false} CountPush(ms: seq<Mapping>, m: Mapping, o: nat)
    ensures CountIn(ms + [m], o) == CountIn(ms, o) + if m.obj == o then 1 else 0
  {
  }

  lemma {:induction false} PerObjectPush(ms: seq<Mapping>, m: Mapping, h: nat -> nat, n: nat)
    ensures PerObject(ms + [m], h, n) == PerObject(ms, h, n) + if m.obj < n then h(m.obj) else 0
  {
    if n > 0 {
      PerObjectPush(ms, m, h, n - 1);
      CountPush(ms, m, n - 1);
      var count, part := CountIn(ms, n - 1), h(n - 1);
      assert Times(count + 1, part) == Times(count, part) + part;
    }
  }

  lemma {:induction false} NothingPerObject(h: nat -> nat, n: nat)
    ensures PerObject([], h, n) == 0 == PerObjectAll([], h, n)
  {
    if n > 0 {
      NothingPerObject(h, n - 1);
    }
  }

  lemma {:induction false} MappingsByObject(ms: seq<Mapping>, h: nat -> nat, n: nat)
    requires forall m | m in ms :: m.obj < n
    ensures PerMapping(ms, h) == PerObject(ms, h, n)
  {
    if ms == [] {
      NothingPerObject(h, n);
    } else {
      var front, m := ms[..|ms| - 1], ms[|ms| - 1];
      MappingsByObject(front, h, n);
      PerObjectPush(front, m, h, n);
      assert ms == front + [m];
    }
  }

  lemma {:induction false} MappersPush(procs: seq<seq<Mapping>>, ms: seq<Mapping>, o: nat)
    ensures Mappers(procs + [ms], o) == Mappers(procs, o) + CountIn(ms, o)
  {
  }

  lemma {:induction false} PerObjectAllPush(procs: seq<seq<Mapping>>, ms: seq<Mapping>, h: nat -> nat, n: nat)
    ensures PerObjectAll(procs + [ms], h, n) == PerObjectAll(procs, h, n) + PerObject(ms, h, n)
  {
    if n > 0 {
      PerObjectAllPush(procs, ms, h, n - 1);
      MappersPush(procs, ms, n - 1);
      TimesAdd(Mappers(procs, n - 1), CountIn(ms, n - 1), h(n - 1));
    }
  }

  /** Summing a figure over processes regroups into a sum over objects. */
  lemma {:induction false} ProcessesByObject(
      procs: seq<seq<Mapping>>, figure: seq<Mapping> -> nat, h: nat -> nat, n: nat)
    requires forall ms | ms in procs :: figure(ms) == PerMapping(ms, h)
    requires forall ms, m | ms in procs && m in ms :: m.obj < n
    ensures Sum(procs, figure) == PerObjectAll(procs, h, n)
  {
    if procs == [] {
      NothingPerObject(h, n);
    } else {
      var front, ms := procs[..|procs| - 1], procs[|procs| - 1];
      ProcessesByObject(front, figure, h, n);
      MappingsByObject(ms, h, n);
      PerObjectAllPush(front, ms, h, n);
      assert procs == front + [ms];
    }
  }

  lemma {:induction false} PerObjectIsSum(procs: seq<seq<Mapping>>, h: nat -> nat, g: nat -> nat, n: nat)
    requires forall o: nat | o < n :: Times(Mappers(procs, o), h(o)) == g(o)
    ensures PerObjectAll(procs, h, n) == SumTo(n, g)
  {
    if n > 0 {
      PerObjectIsSum(procs, h, g, n - 1);
    }
  }

  lemma {:induction false} MapperCounted(ms: seq<Mapping>, m: Mapping)
    requires m in ms
    ensures 0 < CountIn(ms, m.obj)
  {
    if ms[|ms| - 1] != m {
      MapperCounted(ms[..|ms| - 1], m);
    }
  }

  lemma {:induction false} ProcessCounted(procs: seq<seq<Mapping>>, ms: seq<Mapping>, o: nat)
    requires ms in procs
    ensures CountIn(ms, o) <= Mappers(procs, o)
  {
    if procs[|procs| - 1] != ms {
      ProcessCounted(procs[..|procs| - 1], ms, o);
    }
  }

  lemma {:induction false} MappedObjectsCounted(s: System, ms: seq<Mapping>)
    requires Inv(s) && ms in s.procs
    ensures forall m | m in ms :: 0 < At(s.objs, m.obj).refs
  {
    forall m | m in ms ensures 0 < At(s.objs, m.obj).refs {
      MapperCounted(ms, m);
      assert Counted(s.objs, s.procs, m.obj);
      ProcessCounted(s.procs, ms, m.obj);
    }
  }

  // The sum over all processes

  lemma {:induction false} WalksArePerMapping(s: System, base: nat, pageSize: nat)
    requires Inv(s)
    ensures forall ms | ms in s.procs ::
              && RealPrivate(s.objs, base, pageSize)(ms) == PerMapping(ms, Alone(s.objs, pageSize))
              && RealShared(s.objs, base, pageSize)(ms) == PerMapping(ms, Portion(s.objs, pageSize))
  {
    forall ms | ms in s.procs
      ensures RealPrivate(s.objs, base, pageSize)(ms) == PerMapping(ms, Alone(s.objs, pageSize))
      ensures RealShared(s.objs, base, pageSize)(ms) == PerMapping(ms, Portion(s.objs, pageSize))
    {
      MappedObjectsCounted(s, ms);
      WalkIsPerMapping(s.objs, ms, base, pageSize);
    }
  }

  /** Proportional accounting adds up: real_shared_memory summed over every process is, object by
      object, the resident bytes of what is mapped more than once, less one remainder. */
  lemma {:induction false} SharedAddsUp(s: System, base: nat, pageSize: nat)
    requires Inv(s)
    ensures Sum(s.procs, RealShared(s.objs, base, pageSize)) == SumTo(|s.objs|, Divided(s.objs, pageSize))
  {
    var n, h := |s.objs|, Portion(s.objs, pageSize);
    WalksArePerMapping(s, base, pageSize);
    ProcessesByObject(s.procs, RealShared(s.objs, base, pageSize), h, n);
    forall o: nat | o < n ensures Times(Mappers(s.procs, o), h(o)) == Divided(s.objs, pageSize)(o) {
      assert Counted(s.objs, s.procs, o);
      TimesIsProduct(s.objs[o].refs, h(o));
      if 1 < s.objs[o].refs {
        SharesAndRemainder(Bytes(s.objs, pageSize, o), s.objs[o].refs);
      }
    }
    PerObjectIsSum(s.procs, h, Divided(s.objs, pageSize), n);
  }

  /** Memory with a single mapper is reported private, whole, by that mapper alone. */
  lemma {:induction false} PrivateAddsUp(s: System, base: nat, pageSize: nat)
    requires Inv(s)
    ensures Sum(s.procs, RealPrivate(s.objs, base, pageSize)) == SumTo(|s.objs|, Alone(s.objs, pageSize))
  {
    var n, h := |s.objs|, Alone(s.objs, pageSize);
    WalksArePerMapping(s, base, pageSize);
    ProcessesByObject(s.procs, RealPrivate(s.objs, base, pageSize), h, n);
    forall o: nat | o < n ensures Times(Mappers(s.procs, o), h(o)) == h(o) {
      assert Counted(s.objs, s.procs, o);
      TimesIsProduct(s.objs[o].refs, h(o));
    }
    PerObjectIsSum(s.procs, h, h, n);
  }

  /** Conservation: everything resident and mapped is reported once, except the remainders, and
      each remainder is below its object's reference count. */
  lemma {:induction false} NothingCountedTwice(s: System, base: nat, pageSize: nat)
    requires Inv(s)
    ensures Sum(s.procs, RealPrivate(s.objs, base, pageSize)) + Sum(s.procs, RealShared(s.objs, base, pageSize))
          + SumTo(|s.objs|, Lost(s.objs, pageSize))
         == SumTo(|s.objs|, Live(s.objs, pageSize))
    ensures forall o: nat | o < |s.objs| && 0 < s.objs[o].refs ::
              Lost(s.objs, pageSize)(o) < s.objs[o].refs
  {
    var n := |s.objs|;
    SharedAddsUp(s, base, pageSize);
    PrivateAddsUp(s, base, pageSize);
    var alone, divided := Alone(s.objs, pageSize), Divided(s.objs, pageSize);
    var lost, live := Lost(s.objs, pageSize), Live(s.objs, pageSize);
    var reported := (o: nat) => alone(o) + divided(o);
    forall o: nat | o < n
      ensures live(o) == reported(o) + lost(o)
      ensures 0 < s.objs[o].refs ==> lost(o) < s.objs[o].refs
    {
      if 0 < s.objs[o].refs {
        SharesAndRemainder(Bytes(s.objs, pageSize, o), s.objs[o].refs);
      }
    }
    SumToAdd(n, alone, divided, reported);
    SumToAdd(n, reported, lost, live);
  }

  // Steps

  datatype Step =
    | Spawn
    | Map(proc: nat, capacity: nat, cow: bool)
    | Attach(proc: nat, obj: nat)
    | Touch(obj: nat)
    | Fork(proc: nat)
    | Unmap(proc: nat, index: nat)
    | Exit(proc: nat)

  function AddRefs(objs: seq<Obj>, ms: seq<Mapping>): seq<Obj> {
    if ms == [] then objs
    else
      var m, before := ms[|ms| - 1], AddRefs(objs, ms[..|ms| - 1]);
      if m.obj < |before| then before[m.obj := before[m.obj].(refs := before[m.obj].refs + 1)] else before
  }

  function DropRefs(objs: seq<Obj>, ms: seq<Mapping>): seq<Obj> {
    if ms == [] then objs
    else
      var m, before := ms[|ms| - 1], DropRefs(objs, ms[..|ms| - 1]);
      if m.obj < |before| && 0 < before[m.obj].refs
      then before[m.obj := before[m.obj].(refs := before[m.obj].refs - 1)] else before
  }

  /** A step whose arguments name nothing fails and changes nothing. */
  function Apply(s: System, step: Step): System {
    match step
    case Spawn => s.(procs := s.procs + [[]])
    case Map(p, capacity, cow) =>
      if p < |s.procs| && 0 < capacity
      then System(s.objs + [Obj(capacity, 0, 1)], s.procs[p := s.procs[p] + [Mapping(|s.objs|, cow)]])
      else s
    case Attach(p, o) =>
      if p < |s.procs| && o < |s.objs|
      then System(AddRefs(s.objs, [Mapping(o, false)]), s.procs[p := s.procs[p] + [Mapping(o, false)]])
      else s
    case Touch(o) =>
      if o < |s.objs| && s.objs[o].resident < s.objs[o].capacity
      then s.(objs := s.objs[o := s.objs[o].(resident := s.objs[o].resident + 1)])
      else s
    case Fork(p) =>
      if p < |s.procs|
      then System(AddRefs(s.objs, s.procs[p]), s.procs + [s.procs[p]])
      else s
    case Unmap(p, i) =>
      if p < |s.procs| && i < |s.procs[p]|
      then System(DropRefs(s.objs, [s.procs[p][i]]), s.procs[p := s.procs[p][..i] + s.procs[p][i + 1..]])
      else s
    case Exit(p) =>
      if p < |s.procs|
      then System(DropRefs(s.objs, s.procs[p]), s.procs[p := []])
      else s
  }

  function Run(s: System, steps: seq<Step>): System {
    if steps == [] then s else Apply(Run(s, steps[..|steps| - 1]), steps[|steps| - 1])
  }

  lemma {:induction false} AddRefsCounts(objs: seq<Obj>, ms: seq<Mapping>)
    ensures |AddRefs(objs, ms)| == |objs|
    ensures forall o: nat | o < |objs| ::
              AddRefs(objs, ms)[o] == objs[o].(refs := objs[o].refs + CountIn(ms, o))
  {
    if ms != [] {
      AddRefsCounts(objs, ms[..|ms| - 1]);
    }
  }

  lemma {:induction false} DropRefsCounts(objs: seq<Obj>, ms: seq<Mapping>)
    requires forall o: nat | o < |objs| :: CountIn(ms, o) <= objs[o].refs
    ensures |DropRefs(objs, ms)| == |objs|
    ensures forall o: nat | o < |objs| ::
              DropRefs(objs, ms)[o] == objs[o].(refs := objs[o].refs - CountIn(ms, o))
  {
    if ms != [] {
      var front := ms[..|ms| - 1];
      forall o: nat | o < |objs| ensures CountIn(front, o) <= objs[o].refs {
        assert CountIn(front, o) <= CountIn(ms, o);
      }
      DropRefsCounts(objs, front);
      var m := ms[|ms| - 1];
      if m.obj < |objs| {
        assert CountIn(ms, m.obj) == CountIn(front, m.obj) + 1;
      }
    }
  }

  /** The recount after one process's mappings are replaced. */
  lemma {:induction false} RecountUpdate(procs: seq<seq<Mapping>>, p: nat, ms: seq<Mapping>, o: nat)
    requires p < |procs|
    ensures Mappers(procs[p := ms], o) + CountIn(procs[p], o) == Mappers(procs, o) + CountIn(ms, o)
  {
    var last := |procs| - 1;
    if p < last {
      RecountUpdate(procs[..last], p, ms, o);
      assert procs[p := ms][..last] == procs[..last][p := ms];
    } else {
      assert procs[p := ms][..last] == procs[..last];
    }
  }

  lemma {:induction false} CountConcat(ms: seq<Mapping>, ns: seq<Mapping>, o: nat)
    ensures CountIn(ms + ns, o) == CountIn(ms, o) + CountIn(ns, o)
  {
    if ns == [] {
      assert ms + ns == ms;
    } else {
      CountConcat(ms, ns[..|ns| - 1], o);
      assert (ms + ns)[..|ms + ns| - 1] == ms + ns[..|ns| - 1];
    }
  }

  // What every step keeps

  lemma {:induction false} AddedRefsCounted(s: System, ms: seq<Mapping>, procs: seq<seq<Mapping>>)
    requires Inv(s)
    requires forall o: nat :: Mappers(procs, o) == Mappers(s.procs, o) + CountIn(ms, o)
    ensures |AddRefs(s.objs, ms)| == |s.objs|
    ensures forall o: nat | o < |s.objs| :: Counted(AddRefs(s.objs, ms), procs, o)
  {
    AddRefsCounts(s.objs, ms);
    forall o: nat | o < |s.objs| ensures Counted(AddRefs(s.objs, ms), procs, o) {
      assert Counted(s.objs, s.procs, o);
    }
  }

  lemma {:induction false} DroppedRefsCounted(s: System, ms: seq<Mapping>, procs: seq<seq<Mapping>>)
    requires Inv(s)
    requires forall o: nat :: Mappers(procs, o) + CountIn(ms, o) == Mappers(s.procs, o)
    ensures |DropRefs(s.objs, ms)| == |s.objs|
    ensures forall o: nat | o < |s.objs| :: Counted(DropRefs(s.objs, ms), procs, o)
  {
    forall o: nat | o < |s.objs| ensures CountIn(ms, o) <= s.objs[o].refs {
      assert Counted(s.objs, s.procs, o);
    }
    DropRefsCounts(s.objs, ms);
    forall o: nat | o < |s.objs| ensures Counted(DropRefs(s.objs, ms), procs, o) {
      assert Counted(s.objs, s.procs, o);
    }
  }

  lemma {:induction false} NotIn(ms: seq<Mapping>, n: nat)
    requires forall m | m in ms :: m.obj < n
    ensures CountIn(ms, n) == 0
  {
    if ms != [] {
      NotIn(ms[..|ms| - 1], n);
    }
  }

  lemma {:induction false} NewObjectCounts(procs: seq<seq<Mapping>>, n: nat)
    requires forall ms, m | ms in procs && m in ms :: m.obj < n
    ensures Mappers(procs, n) == 0
  {
    if procs != [] {
      NewObjectCounts(procs[..|procs| - 1], n);
      NotIn(procs[|procs| - 1], n);
    }
  }

  /** Extending one process by one mapping. */
  lemma {:induction false} RecountMap(procs: seq<seq<Mapping>>, p: nat, m: Mapping)
    requires p < |procs|
    ensures forall o: nat ::
              Mappers(procs[p := procs[p] + [m]], o) == Mappers(procs, o) + CountIn([m], o)
  {
    forall o: nat
      ensures Mappers(procs[p := procs[p] + [m]], o) == Mappers(procs, o) + CountIn([m], o)
    {
      RecountUpdate(procs, p, procs[p] + [m], o);
      CountConcat(procs[p], [m], o);
    }
  }

  lemma {:induction false} RecountUnmap(procs: seq<seq<Mapping>>, p: nat, i: nat)
    requires p < |procs| && i < |procs[p]|
    ensures var ms := procs[p];
            forall o: nat ::
              Mappers(procs[p := ms[..i] + ms[i + 1..]], o) + CountIn([ms[i]], o) == Mappers(procs, o)
  {
    var ms := procs[p];
    assert ms == ms[..i] + [ms[i]] + ms[i + 1..];
    forall o: nat
      ensures Mappers(procs[p := ms[..i] + ms[i + 1..]], o) + CountIn([ms[i]], o) == Mappers(procs, o)
    {
      RecountUpdate(procs, p, ms[..i] + ms[i + 1..], o);
      CountConcat(ms[..i], ms[i + 1..], o);
      CountConcat(ms[..i], [ms[i]], o);
      CountConcat(ms[..i] + [ms[i]], ms[i + 1..], o);
    }
  }

  lemma {:induction false} RecountExit(procs: seq<seq<Mapping>>, p: nat)
    requires p < |procs|
    ensures forall o: nat :: Mappers(procs[p := []], o) + CountIn(procs[p], o) == Mappers(procs, o)
  {
    forall o: nat ensures Mappers(procs[p := []], o) + CountIn(procs[p], o) == Mappers(procs, o) {
      RecountUpdate(procs, p, [], o);
    }
  }

  lemma {:induction false} RecountFork(procs: seq<seq<Mapping>>, ms: seq<Mapping>)
    ensures forall o: nat :: Mappers(procs + [ms], o) == Mappers(procs, o) + CountIn(ms, o)
  {
  }

  lemma {:induction false} StepKeepsBounds(s: System, step: Step)
    requires Inv(s)
    ensures var t := Apply(s, step);
            forall ms, m | ms in t.procs && m in ms :: m.obj < |t.objs|
  {
    var t := Apply(s, step);
    match step
    case Attach(p, o) =>
      AddRefsCounts(s.objs, [Mapping(o, false)]);
    case Fork(p) =>
      if p < |s.procs| {
        AddRefsCounts(s.objs, s.procs[p]);
      }
    case Unmap(p, i) =>
      if p < |s.procs| && i < |s.procs[p]| {
        RecountUnmap(s.procs, p, i);
        DroppedRefsCounted(s, [s.procs[p][i]], t.procs);
        forall m | m in t.procs[p] ensures m in s.procs[p] {
        }
      }
    case Exit(p) =>
      if p < |s.procs| {
        RecountExit(s.procs, p);
        DroppedRefsCounted(s, s.procs[p], t.procs);
      }
    case _ =>
  }

  /** Every step keeps each stored count equal to the number of mappings of its object. */
  lemma {:induction false} StepKeepsCounts(s: System, step: Step)
    requires Inv(s)
    ensures Inv(Apply(s, step))
  {
    var t := Apply(s, step);
    StepKeepsBounds(s, step);
    if t != s {
      match step
      case Spawn =>
        RecountFork(s.procs, []);
        AddedRefsCounted(s, [], t.procs);
      case Map(p, capacity, cow) =>
        var m := Mapping(|s.objs|, cow);
        RecountMap(s.procs, p, m);
        NewObjectCounts(s.procs, |s.objs|);
        forall o: nat | o < |t.objs| ensures Counted(t.objs, t.procs, o) {
          assert CountIn([m], o) == if o == |s.objs| then 1 else 0;
          assert o < |s.objs| ==> Counted(s.objs, s.procs, o);
        }
      case Attach(p, o) =>
        RecountMap(s.procs, p, Mapping(o, false));
        AddedRefsCounted(s, [Mapping(o, false)], t.procs);
      case Touch(o) =>
        forall x: nat | x < |t.objs| ensures Counted(t.objs, t.procs, x) {
          assert Counted(s.objs, s.procs, x);
        }
      case Fork(p) =>
        RecountFork(s.procs, s.procs[p]);
        AddedRefsCounted(s, s.procs[p], t.procs);
      case Unmap(p, i) =>
        RecountUnmap(s.procs, p, i);
        DroppedRefsCounted(s, [s.procs[p][i]], t.procs);
      case Exit(p) =>
        RecountExit(s.procs, p);
        DroppedRefsCounted(s, s.procs[p], t.procs);
    }
  }

  /** In every reachable system, stored reference counts are the true numbers of mappers. */
  lemma {:induction false} RunKeepsCounts(steps: seq<Step>)
    ensures Inv(Run(System([], []), steps))
  {
    if steps != [] {
      RunKeepsCounts(steps[..|steps| - 1]);
      StepKeepsCounts(Run(System([], []), steps[..|steps| - 1]), steps[|steps| - 1]);
    }
  }

  // The snapshots are ones the walk accepts

  function MappedBytes(objs: seq<Obj>, ms: seq<Mapping>, pageSize: nat): nat {
    if ms == [] then 0 else At(objs, ms[0].obj).capacity * pageSize + MappedBytes(objs, ms[1..], pageSize)
  }

  /** Every process's address space meets the oracle assumptions of PrintMemoryInfo, as long as it
      stays below the top of the 64-bit range. */
  lemma {:induction false} AddressSpaceIsWalkable(s: System, ms: seq<Mapping>, base: nat, pageSize: nat)
    requires Inv(s) && 0 < pageSize && forall m | m in ms :: m.obj < |s.objs|
    requires base + MappedBytes(s.objs, ms, pageSize) < TWO_64
    ensures var rs := AddressSpace(s.objs, ms, base, pageSize);
            && ValidFrom(rs, base) && EndsBelowTop(rs) && ResidentFits(rs, pageSize)
  {
    if ms != [] {
      var b := At(s.objs, ms[0].obj);
      assert Counted(s.objs, s.procs, ms[0].obj);
      MulMonotone(b.resident, b.capacity, pageSize);
      MulMonotone(1, b.capacity, pageSize);
      AddressSpaceIsWalkable(s, ms[1..], base + b.capacity * pageSize, pageSize);
    }
  }

  /** The regions lie one after the other from base on, one for each mapping, of the size of its object. */
  lemma {:induction false} AddressSpaceIsContiguous(
      objs: seq<Obj>, ms: seq<Mapping>, base: nat, pageSize: nat, i: nat)
    requires i < |ms|
    ensures var rs := AddressSpace(objs, ms, base, pageSize);
            && |rs| == |ms| && rs[0].start == base
            && rs[i].size == At(objs, ms[i].obj).capacity * pageSize
            && (i + 1 < |ms| ==> rs[i].End() == rs[i + 1].start)
  {
    var r := RegionOf(objs, ms[0], base, pageSize);
    if i > 0 {
      AddressSpaceIsContiguous(objs, ms[1..], r.End(), pageSize, i - 1);
    } else if |ms| > 1 {
      AddressSpaceIsContiguous(objs, ms[1..], r.End(), pageSize, 0);
    }
  }

  // Adding and removing mappers

  ghost predicate MoreRefs(objs: seq<Obj>, objs': seq<Obj>) {
    && |objs| == |objs'|
    && forall o: nat | o < |objs| ::
         objs[o].refs <= objs'[o].refs && objs'[o] == objs[o].(refs := objs'[o].refs)
  }

  lemma {:induction false} MoreRefsSmallerParts(objs: seq<Obj>, objs': seq<Obj>, ms: seq<Mapping>, pageSize: nat)
    requires MoreRefs(objs, objs')
    requires forall m | m in ms :: 0 < At(objs, m.obj).refs
    ensures PerMapping(ms, Alone(objs', pageSize)) <= PerMapping(ms, Alone(objs, pageSize))
    ensures PerMapping(ms, Alone(objs', pageSize)) + PerMapping(ms, Portion(objs', pageSize))
         <= PerMapping(ms, Alone(objs, pageSize)) + PerMapping(ms, Portion(objs, pageSize))
  {
    if ms != [] {
      MoreRefsSmallerParts(objs, objs', ms[..|ms| - 1], pageSize);
      var m := ms[|ms| - 1];
      assert m in ms;
      assert m.obj < |objs|;
      var bytes, n, n' := Bytes(objs, pageSize, m.obj), objs[m.obj].refs, objs'[m.obj].refs;
      ShareShrinks(bytes, n, n');
      assert bytes / 1 == bytes;
    }
  }

  /** When a mapper is added, by fork or by attaching, no process that was already there is charged
      more for what it already mapped: neither its private figure nor its total grows. */
  lemma {:induction false} NewMapperChargesNobodyMore(s: System, step: Step, q: nat, base: nat, pageSize: nat)
    requires Inv(s) && q < |s.procs|
    requires step.Fork? || step.Attach?
    ensures var t, ms := Apply(s, step), s.procs[q];
            && RealPrivate(t.objs, base, pageSize)(ms) <= RealPrivate(s.objs, base, pageSize)(ms)
            && RealTotal(t.objs, base, pageSize, ms) <= RealTotal(s.objs, base, pageSize, ms)
  {
    var t, ms := Apply(s, step), s.procs[q];
    if t != s {
      AddRefsCounts(s.objs, if step.Fork? then s.procs[step.proc] else [Mapping(step.obj, false)]);
      MappedObjectsCounted(s, ms);
      assert forall m | m in ms :: 0 < At(t.objs, m.obj).refs by {
        forall m | m in ms ensures 0 < At(t.objs, m.obj).refs {
          assert 0 < At(s.objs, m.obj).refs;
        }
      }
      WalkIsPerMapping(s.objs, ms, base, pageSize);
      WalkIsPerMapping(t.objs, ms, base, pageSize);
      MoreRefsSmallerParts(s.objs, t.objs, ms, pageSize);
    }
  }

  /** What the walks of all processes report together. */
  function Reported(s: System, base: nat, pageSize: nat): nat {
    Sum(s.procs, RealPrivate(s.objs, base, pageSize)) + Sum(s.procs, RealShared(s.objs, base, pageSize))
  }

  /** No object gains its first mapper or loses its last. */
  ghost predicate SameLiveness(s: System, t: System) {
    && |s.objs| == |t.objs|
    && forall o: nat | o < |s.objs| ::
         && t.objs[o] == s.objs[o].(refs := t.objs[o].refs)
         && (0 < s.objs[o].refs <==> 0 < t.objs[o].refs)
  }

  /** Between two such systems the reported total moves only by what division loses. */
  lemma {:induction false} OnlyRemaindersMove(s: System, t: System, base: nat, pageSize: nat)
    requires Inv(s) && Inv(t) && SameLiveness(s, t)
    ensures Reported(s, base, pageSize) + SumTo(|s.objs|, Lost(s.objs, pageSize))
         == Reported(t, base, pageSize) + SumTo(|t.objs|, Lost(t.objs, pageSize))
  {
    NothingCountedTwice(s, base, pageSize);
    NothingCountedTwice(t, base, pageSize);
    SumToEqual(|s.objs|, Live(s.objs, pageSize), Live(t.objs, pageSize));
  }

  lemma {:induction false} ForkMovesOnlyRemainders(s: System, p: nat, base: nat, pageSize: nat)
    requires Inv(s)
    ensures var t := Apply(s, Fork(p));
            && Reported(s, base, pageSize) + SumTo(|s.objs|, Lost(s.objs, pageSize))
               == Reported(t, base, pageSize) + SumTo(|t.objs|, Lost(t.objs, pageSize))
  {
    var t := Apply(s, Fork(p));
    StepKeepsCounts(s, Fork(p));
    if p < |s.procs| {
      AddRefsCounts(s.objs, s.procs[p]);
      forall o: nat | o < |s.objs| ensures 0 < t.objs[o].refs ==> 0 < s.objs[o].refs {
        assert Counted(s.objs, s.procs, o);
        ProcessCounted(s.procs, s.procs[p], o);
      }
    }
    OnlyRemaindersMove(s, t, base, pageSize);
  }

  // Fork and exit, with anything in between

  /** The step is one of process c's own. */
  predicate ActsOn(step: Step, c: nat) {
    match step
    case Map(p, _, _) => p == c
    case Attach(p, _) => p == c
    case Fork(p) => p == c
    case Unmap(p, _) => p == c
    case Exit(p) => p == c
    case _ => false
  }

  /** t is u with process c holding the mappings ms, and their references. */
  ghost predicate Trails(t: System, u: System, c: nat, ms: seq<Mapping>) {
    && c < |u.procs| && u.procs[c] == [] && t.procs == u.procs[c := ms] && |t.objs| == |u.objs|
    && (forall m | m in ms :: m.obj < |u.objs|)
    && (forall o: nat | o < |u.objs| :: t.objs[o] == u.objs[o].(refs := u.objs[o].refs + CountIn(ms, o)))
  }

  lemma {:induction false} AddKeepsTrails(t: System, u: System, c: nat, ms: seq<Mapping>, ns: seq<Mapping>)
    requires Trails(t, u, c, ms)
    ensures |AddRefs(t.objs, ns)| == |AddRefs(u.objs, ns)| == |u.objs|
    ensures forall o: nat | o < |u.objs| ::
              AddRefs(t.objs, ns)[o] == AddRefs(u.objs, ns)[o].(refs := AddRefs(u.objs, ns)[o].refs + CountIn(ms, o))
  {
    AddRefsCounts(t.objs, ns);
    AddRefsCounts(u.objs, ns);
  }

  lemma {:induction false} DropKeepsTrails(t: System, u: System, c: nat, ms: seq<Mapping>, ns: seq<Mapping>)
    requires Trails(t, u, c, ms) && forall o: nat | o < |u.objs| :: CountIn(ns, o) <= u.objs[o].refs
    ensures |DropRefs(t.objs, ns)| == |DropRefs(u.objs, ns)| == |u.objs|
    ensures forall o: nat | o < |u.objs| ::
              DropRefs(t.objs, ns)[o] == DropRefs(u.objs, ns)[o].(refs := DropRefs(u.objs, ns)[o].refs + CountIn(ms, o))
  {
    DropRefsCounts(u.objs, ns);
    DropRefsCounts(t.objs, ns);
  }

  lemma {:induction false} HeldRefs(s: System, p: nat, o: nat)
    requires Inv(s) && p < |s.procs| && o < |s.objs|
    ensures CountIn(s.procs[p], o) <= s.objs[o].refs
  {
    assert Counted(s.objs, s.procs, o);
    ProcessCounted(s.procs, s.procs[p], o);
  }

  lemma {:induction false} OneOf(ms: seq<Mapping>, i: nat, o: nat)
    requires i < |ms|
    ensures CountIn([ms[i]], o) <= CountIn(ms, o)
  {
    if i < |ms| - 1 {
      OneOf(ms[..|ms| - 1], i, o);
    } else {
      assert CountIn([ms[i]], o) == CountIn([], o) + if ms[i].obj == o then 1 else 0;
    }
  }

  lemma {:induction false} DropOneKeepsTrails(t: System, u: System, c: nat, ms: seq<Mapping>, p: nat, i: nat)
    requires Inv(u) && Trails(t, u, c, ms) && p != c && p < |u.procs| && i < |u.procs[p]|
    ensures Trails(Apply(t, Unmap(p, i)), Apply(u, Unmap(p, i)), c, ms)
  {
    forall o: nat | o < |u.objs| ensures CountIn([u.procs[p][i]], o) <= u.objs[o].refs {
      HeldRefs(u, p, o);
      OneOf(u.procs[p], i, o);
    }
    DropKeepsTrails(t, u, c, ms, [u.procs[p][i]]);
  }

  lemma {:induction false} DropAllKeepsTrails(t: System, u: System, c: nat, ms: seq<Mapping>, p: nat)
    requires Inv(u) && Trails(t, u, c, ms) && p != c && p < |u.procs|
    ensures Trails(Apply(t, Exit(p)), Apply(u, Exit(p)), c, ms)
  {
    forall o: nat | o < |u.objs| ensures CountIn(u.procs[p], o) <= u.objs[o].refs {
      HeldRefs(u, p, o);
    }
    DropKeepsTrails(t, u, c, ms, u.procs[p]);
  }

  lemma {:induction false} StepKeepsTrails(t: System, u: System, step: Step, c: nat, ms: seq<Mapping>)
    requires Inv(u) && Trails(t, u, c, ms) && !ActsOn(step, c)
    ensures Trails(Apply(t, step), Apply(u, step), c, ms)
  {
    match step
    case Map(p, capacity, cow) => NotIn(ms, |u.objs|);
    case Attach(p, o) => AddKeepsTrails(t, u, c, ms, [Mapping(o, false)]);
    case Fork(p) =>
      if p < |u.procs| {
        AddKeepsTrails(t, u, c, ms, u.procs[p]);
      }
    case Unmap(p, i) =>
      if p < |u.procs| && i < |u.procs[p]| {
        DropOneKeepsTrails(t, u, c, ms, p, i);
      }
    case Exit(p) =>
      if p < |u.procs| {
        DropAllKeepsTrails(t, u, c, ms, p);
      }
    case _ =>
  }

  lemma {:induction false} RunKeepsTrails(t: System, u: System, steps: seq<Step>, c: nat, ms: seq<Mapping>)
    requires Inv(u) && Trails(t, u, c, ms) && forall step | step in steps :: !ActsOn(step, c)
    ensures Inv(Run(u, steps)) && Trails(Run(t, steps), Run(u, steps), c, ms)
  {
    if steps != [] {
      var last := |steps| - 1;
      RunKeepsTrails(t, u, steps[..last], c, ms);
      assert steps[last] in steps;
      StepKeepsCounts(Run(u, steps[..last]), steps[last]);
      StepKeepsTrails(Run(t, steps[..last]), Run(u, steps[..last]), steps[last], c, ms);
    }
  }

  /** Exiting takes away exactly what fork gave. */
  lemma {:induction false} ExitEndsTrail(t: System, u: System, c: nat, ms: seq<Mapping>)
    requires Trails(t, u, c, ms)
    ensures Apply(t, Exit(c)) == u
  {
    DropRefsCounts(t.objs, ms);
    var v := Apply(t, Exit(c));
    assert v.procs == u.procs;
    forall o: nat | o < |u.objs| ensures v.objs[o] == u.objs[o] {
    }
    assert v.objs == u.objs;
  }

  /** The child's exit undoes the fork, whatever the rest of the system did in between: every count, and
      so every figure reported, is what it would be had the child never mapped anything. */
  lemma {:induction false} ExitUndoesFork(s: System, p: nat, steps: seq<Step>)
    requires Inv(s) && p < |s.procs| && forall step | step in steps :: !ActsOn(step, |s.procs|)
    ensures Apply(Run(Apply(s, Fork(p)), steps), Exit(|s.procs|)) == Run(Apply(s, Spawn), steps)
  {
    var c, ms, t, u := |s.procs|, s.procs[p], Apply(s, Fork(p)), Apply(s, Spawn);
    StepKeepsCounts(s, Spawn);
    AddRefsCounts(s.objs, ms);
    assert t.procs == u.procs[c := ms];
    RunKeepsTrails(t, u, steps, c, ms);
    ExitEndsTrail(Run(t, steps), Run(u, steps), c, ms);
  }

  /** In every reachable system an object with one mapper is charged to it whole, as private, and an
      object with several to each of them in equal parts, as shared: after fork and exit and anything
      else, what counts is the number of mappers left. */
  lemma {:induction false} ChargedByMappers(steps: seq<Step>, p: nat, m: Mapping, base: nat, pageSize: nat)
    requires p < |Run(System([], []), steps).procs| && m in Run(System([], []), steps).procs[p]
    ensures var s := Run(System([], []), steps);
            var n, r := Mappers(s.procs, m.obj), RegionOf(s.objs, m, base, pageSize);
            && 0 < n
            && PrivateBytes(pageSize)(r) == (if n == 1 then Bytes(s.objs, pageSize, m.obj) else 0)
            && SharedBytes(pageSize)(r) == (if n == 1 then 0 else Bytes(s.objs, pageSize, m.obj) / n)
  {
    var s := Run(System([], []), steps);
    RunKeepsCounts(steps);
    MapperCounted(s.procs[p], m);
    ProcessCounted(s.procs, s.procs[p], m.obj);
    assert Counted(s.objs, s.procs, m.obj);
  }

  /** A region with one mapper is private, whole; after fork it is shared, half to each side. */
  lemma {:induction false} ForkReclassifies(s: System, p: nat, m: Mapping, base: nat, pageSize: nat)
    requires Inv(s) && p < |s.procs| && m in s.procs[p] && s.objs[m.obj].refs == 1
    ensures var t := Apply(s, Fork(p));
            var before, after := RegionOf(s.objs, m, base, pageSize), RegionOf(t.objs, m, base, pageSize);
            && m in t.procs[|s.procs|]
            && PrivateBytes(pageSize)(before) == Bytes(s.objs, pageSize, m.obj)
            && SharedBytes(pageSize)(before) == 0
            && PrivateBytes(pageSize)(after) == 0
            && SharedBytes(pageSize)(after) == Bytes(s.objs, pageSize, m.obj) / 2
  {
    var ms := s.procs[p];
    AddRefsCounts(s.objs, ms);
    MapperCounted(ms, m);
    ProcessCounted(s.procs, ms, m.obj);
    assert Counted(s.objs, s.procs, m.obj);
  }

  // What each step does, in the figures and in the mappings

  lemma {:induction false} TouchSteps(s: System, o: nat)
    requires o < |s.objs| && s.objs[o].resident < s.objs[o].capacity
    ensures var b := s.objs[o];
            Apply(s, Touch(o)) == System(s.objs[o := Obj(b.capacity, b.resident + 1, b.refs)], s.procs)
  {
  }

  lemma {:induction false} LiveGrows(objs: seq<Obj>, o: nat, pageSize: nat)
    requires o < |objs| && 0 < objs[o].refs
    ensures var b := objs[o];
            var grown := objs[o := Obj(b.capacity, b.resident + 1, b.refs)];
            SumTo(|objs|, Live(grown, pageSize)) == SumTo(|objs|, Live(objs, pageSize)) + pageSize
  {
    var b := objs[o];
    var grown := objs[o := Obj(b.capacity, b.resident + 1, b.refs)];
    assert (b.resident + 1) * pageSize == b.resident * pageSize + pageSize;
    assert Live(grown, pageSize)(o) == Live(objs, pageSize)(o) + pageSize;
    SumToUpdate(|objs|, Live(objs, pageSize), Live(grown, pageSize), o);
  }

  lemma {:induction false} ReportedGrows(s: System, t: System, o: nat, base: nat, pageSize: nat)
    requires Inv(s) && Inv(t) && o < |s.objs| && 0 < s.objs[o].refs
    requires var b := s.objs[o]; t.objs == s.objs[o := Obj(b.capacity, b.resident + 1, b.refs)]
    ensures Reported(t, base, pageSize) + SumTo(|t.objs|, Lost(t.objs, pageSize))
         == Reported(s, base, pageSize) + SumTo(|s.objs|, Lost(s.objs, pageSize)) + pageSize
  {
    NothingCountedTwice(s, base, pageSize);
    NothingCountedTwice(t, base, pageSize);
    LiveGrows(s.objs, o, pageSize);
  }

  /** A touch of a mapped object that is not full makes one page resident: what the walks report, with
      what they lose to division, grows by exactly that page, and nobody's mappings change. */
  lemma {:induction false} TouchAddsPage(s: System, o: nat, base: nat, pageSize: nat)
    requires Inv(s) && o < |s.objs| && 0 < Mappers(s.procs, o) && s.objs[o].resident < s.objs[o].capacity
    ensures var t := Apply(s, Touch(o));
            && t.procs == s.procs && |t.objs| == |s.objs|
            && Reported(t, base, pageSize) + SumTo(|t.objs|, Lost(t.objs, pageSize))
               == Reported(s, base, pageSize) + SumTo(|s.objs|, Lost(s.objs, pageSize)) + pageSize
  {
    assert Counted(s.objs, s.procs, o);
    TouchSteps(s, o);
    StepKeepsCounts(s, Touch(o));
    ReportedGrows(s, Apply(s, Touch(o)), o, base, pageSize);
  }

  /** Touching what is full or does not exist changes nothing. */
  lemma {:induction false} FullIsFull(s: System, o: nat)
    requires o < |s.objs| ==> s.objs[o].capacity <= s.objs[o].resident
    ensures Apply(s, Touch(o)) == s
  {
  }

  /** Process p, and nobody else, has one mapping more, at the end, of object o. */
  ghost predicate MapsOneMore(s: System, t: System, p: nat, o: nat, cow: bool) {
    && |t.procs| == |s.procs| && p < |s.procs|
    && t.procs[p] == s.procs[p] + [Mapping(o, cow)]
    && (forall q: nat | q < |s.procs| && q != p :: t.procs[q] == s.procs[q])
    && (forall x: nat :: Mappers(t.procs, x) == Mappers(s.procs, x) + if x == o then 1 else 0)
  }

  lemma {:induction false} CountOne(m: Mapping, o: nat)
    ensures CountIn([m], o) == if m.obj == o then 1 else 0
  {
    assert [m][..0] == [];
  }

  lemma {:induction false} AppendedMapping(s: System, t: System, p: nat, o: nat, cow: bool)
    requires p < |s.procs| && t.procs == s.procs[p := s.procs[p] + [Mapping(o, cow)]]
    ensures MapsOneMore(s, t, p, o, cow)
  {
    RecountMap(s.procs, p, Mapping(o, cow));
    forall x: nat ensures Mappers(t.procs, x) == Mappers(s.procs, x) + if x == o then 1 else 0 {
      CountOne(Mapping(o, cow), x);
    }
  }

  /** Mapping n pages makes a new object of that size, nothing of it resident, mapped by p alone. */
  lemma {:induction false} MapAddsObject(s: System, p: nat, n: nat, cow: bool)
    requires Inv(s) && p < |s.procs| && 0 < n
    ensures var t, o := Apply(s, Map(p, n, cow)), |s.objs|;
            && MapsOneMore(s, t, p, o, cow) && Mappers(t.procs, o) == 1
            && |t.objs| == o + 1 && t.objs[o].capacity == n && t.objs[o].resident == 0
            && (forall x: nat | x < o :: t.objs[x] == s.objs[x])
  {
    AppendedMapping(s, Apply(s, Map(p, n, cow)), p, |s.objs|, cow);
    NewObjectCounts(s.procs, |s.objs|);
  }

  /** Attaching adds a mapping of an object that is there already. */
  lemma {:induction false} AttachAddsMapping(s: System, p: nat, o: nat)
    requires Inv(s) && p < |s.procs| && o < |s.objs|
    ensures var t := Apply(s, Attach(p, o));
            && MapsOneMore(s, t, p, o, false) && |t.objs| == |s.objs|
            && (forall x: nat | x < |s.objs| :: t.objs[x] == s.objs[x].(refs := Mappers(t.procs, x)))
  {
    var m := Mapping(o, false);
    AppendedMapping(s, Apply(s, Attach(p, o)), p, o, false);
    AddRefsCounts(s.objs, [m]);
    forall x: nat | x < |s.objs|
      ensures AddRefs(s.objs, [m])[x].refs == Mappers(Apply(s, Attach(p, o)).procs, x)
    {
      assert Counted(s.objs, s.procs, x);
      CountOne(m, x);
    }
  }

  /** Unmapping takes out the i-th mapping of p: those before it stay where they are and those after it
      move up by one. */
  lemma {:induction false} UnmapTakesOut(s: System, p: nat, i: nat)
    requires Inv(s) && p < |s.procs| && i < |s.procs[p]|
    ensures var t, o := Apply(s, Unmap(p, i)), s.procs[p][i].obj;
            && |t.procs| == |s.procs| && |t.procs[p]| == |s.procs[p]| - 1
            && (forall j: nat | j < |s.procs[p]| - 1 :: t.procs[p][j] == s.procs[p][if j < i then j else j + 1])
            && (forall q: nat | q < |s.procs| && q != p :: t.procs[q] == s.procs[q])
            && (forall x: nat :: Mappers(s.procs, x) == Mappers(t.procs, x) + if x == o then 1 else 0)
  {
    var t := Apply(s, Unmap(p, i));
    RecountUnmap(s.procs, p, i);
    forall x: nat
      ensures Mappers(s.procs, x) == Mappers(t.procs, x) + if x == s.procs[p][i].obj then 1 else 0
    {
      CountOne(s.procs[p][i], x);
    }
  }

  /** A child maps what its parent maps; a process that has exited maps nothing; a new one neither. */
  lemma {:induction false} ProcessesAfter(s: System, p: nat)
    requires p < |s.procs|
    ensures Apply(s, Fork(p)).procs == s.procs + [s.procs[p]]
    ensures Apply(s, Spawn).procs == s.procs + [[]] && Apply(s, Spawn).objs == s.objs
    ensures var t := Apply(s, Exit(p));
            && |t.procs| == |s.procs| && t.procs[p] == []
            && (forall q: nat | q < |s.procs| && q != p :: t.procs[q] == s.procs[q])
  {
  }

  /** A process that maps n pages and touches k of them. */
  function Touches(n: nat, cow: bool, k: nat): seq<Step> {
    if k == 0 then [Spawn, Map(0, n, cow)] else Touches(n, cow, k - 1) + [Touch(0)]
  }

  lemma {:induction false} RunPush(s: System, steps: seq<Step>, step: Step)
    ensures Run(s, steps + [step]) == Apply(Run(s, steps), step)
  {
    assert (steps + [step])[..|steps|] == steps;
  }

  lemma {:induction false} MapFirst(n: nat, cow: bool)
    requires 0 < n
    ensures Apply(System([], [[]]), Map(0, n, cow)) == System([Obj(n, 0, 1)], [[Mapping(0, cow)]])
  {
    var procs: seq<seq<Mapping>> := [[]];
    assert procs[0] + [Mapping(0, cow)] == [Mapping(0, cow)];
    assert procs[0 := [Mapping(0, cow)]] == [[Mapping(0, cow)]];
    var objs: seq<Obj> := [];
    assert objs + [Obj(n, 0, 1)] == [Obj(n, 0, 1)];
  }

  lemma {:induction false} SpawnedAndMapped(n: nat, cow: bool)
    requires 0 < n
    ensures Run(System([], []), [Spawn, Map(0, n, cow)]) == System([Obj(n, 0, 1)], [[Mapping(0, cow)]])
  {
    var none := System([], []);
    RunPush(none, [], Spawn);
    RunPush(none, [Spawn], Map(0, n, cow));
    assert [] + [Spawn] == [Spawn] && [Spawn] + [Map(0, n, cow)] == [Spawn, Map(0, n, cow)];
    assert Apply(none, Spawn) == System([], [[]]);
    MapFirst(n, cow);
  }

  lemma {:induction false} AfterTouches(n: nat, cow: bool, k: nat)
    requires 0 < n && k <= n
    ensures Run(System([], []), Touches(n, cow, k)) == System([Obj(n, k, 1)], [[Mapping(0, cow)]])
  {
    if k == 0 {
      SpawnedAndMapped(n, cow);
    } else {
      AfterTouches(n, cow, k - 1);
      RunPush(System([], []), Touches(n, cow, k - 1), Touch(0));
      TouchSteps(System([Obj(n, k - 1, 1)], [[Mapping(0, cow)]]), 0);
    }
  }

  lemma {:induction false} OneMapping(objs: seq<Obj>, m: Mapping, base: nat, pageSize: nat, f: Region -> nat)
    ensures Sum(AddressSpace(objs, [m], base, pageSize), f) == f(RegionOf(objs, m, base, pageSize))
  {
    var r := RegionOf(objs, m, base, pageSize);
    assert [m][1..] == [] && AddressSpace(objs, [], r.End(), pageSize) == [];
    assert AddressSpace(objs, [m], base, pageSize) == [r] + [] == [r];
    assert [r][..|[r]| - 1] == [];
    assert Sum([r], f) == Sum([r][..|[r]| - 1], f) + f(r);
  }

  /** The demo of a private buffer: of n pages mapped, the k that were touched are charged, as private;
      getProcessSharedMemory counts all n if they were mapped copy-on-write. */
  lemma {:induction false} TouchedIsCharged(n: nat, cow: bool, k: nat, base: nat, pageSize: nat)
    requires 0 < n && k <= n
    ensures var s := Run(System([], []), Touches(n, cow, k));
            && |s.procs| == 1
            && RealPrivate(s.objs, base, pageSize)(s.procs[0]) == k * pageSize
            && RealShared(s.objs, base, pageSize)(s.procs[0]) == 0
            && Sum(AddressSpace(s.objs, s.procs[0], base, pageSize), NonPrivateBytes())
               == if cow then n * pageSize else 0
  {
    AfterTouches(n, cow, k);
    OneMapping([Obj(n, k, 1)], Mapping(0, cow), base, pageSize, PrivateBytes(pageSize));
    OneMapping([Obj(n, k, 1)], Mapping(0, cow), base, pageSize, SharedBytes(pageSize));
    OneMapping([Obj(n, k, 1)], Mapping(0, cow), base, pageSize, NonPrivateBytes());
  }

  /** ... and after fork each side is charged for half of them, as shared. */
  lemma {:induction false} ForkedIsShared(n: nat, cow: bool, k: nat, q: nat, base: nat, pageSize: nat)
    requires 0 < n && k <= n && q < 2
    ensures var s := Run(System([], []), Touches(n, cow, k) + [Fork(0)]);
            && |s.procs| == 2
            && RealPrivate(s.objs, base, pageSize)(s.procs[q]) == 0
            && RealShared(s.objs, base, pageSize)(s.procs[q]) == k * pageSize / 2
            && Sum(AddressSpace(s.objs, s.procs[q], base, pageSize), NonPrivateBytes()) == n * pageSize
  {
    AfterTouches(n, cow, k);
    RunPush(System([], []), Touches(n, cow, k), Fork(0));
    AddRefsCounts([Obj(n, k, 1)], [Mapping(0, cow)]);
    CountOne(Mapping(0, cow), 0);
    assert AddRefs([Obj(n, k, 1)], [Mapping(0, cow)]) == [Obj(n, k, 2)];
    OneMapping([Obj(n, k, 2)], Mapping(0, cow), base, pageSize, PrivateBytes(pageSize));
    OneMapping([Obj(n, k, 2)], Mapping(0, cow), base, pageSize, SharedBytes(pageSize));
    OneMapping([Obj(n, k, 2)], Mapping(0, cow), base, pageSize, NonPrivateBytes());
  }
}
