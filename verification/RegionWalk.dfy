/**
 The address-space walk of print_memory_info and getProcessSharedMemory
 (macos/process/memory_info.cc). The kernel is an oracle over a fixed snapshot of the map.
 */
module RegionWalk {
  import opened Division
  import opened Words
  import opened Sums

  datatype Option<+T> = None | Some(value: T)

  datatype ShareMode =
    Cow | Private | Empty | Shared | TrueShared | PrivateAliased | SharedAliased | LargePage

  /** One answer of vm_region_64. The page and reference counts are 32-bit words in the source;
      each is widened to 64 bits before it is multiplied or divided. */
  datatype Region = Region(
    start: nat, size: nat, mode: ShareMode, refCount: nat, privatePages: nat, sharedPages: nat)
  {
    function End(): nat {
      start + size
    }
  }

  /** Oracle assumption: non-empty regions in ascending order that do not overlap, none
      starting below floor. */
  ghost predicate ValidFrom(rs: seq<Region>, floor: nat) {
    rs != [] ==>
      && floor <= rs[0].start && 0 < rs[0].size && rs[0].End() <= TWO_64
      && ValidFrom(rs[1..], rs[0].End())
  }

  ghost predicate ValidMap(rs: seq<Region>) {
    ValidFrom(rs, 0)
  }

  lemma {:induction false} Ascending(rs: seq<Region>, floor: nat, i: nat, j: nat)
    requires ValidFrom(rs, floor) && i <= j < |rs|
    ensures floor <= rs[i].start && 0 < rs[i].size && rs[i].End() <= TWO_64
    ensures i < j ==> rs[i].End() <= rs[j].start
    ensures rs[i].End() <= rs[j].End()
  {
    if j > 0 {
      Ascending(rs[1..], rs[0].End(), if i == 0 then 0 else i - 1, j - 1);
      Ascending(rs[1..], rs[0].End(), j - 1, j - 1);
    }
  }

  /** The map leaves the last byte of the 64-bit address space unused. WalkEndsIff shows that
      the loop ends exactly when this holds. */
  predicate EndsBelowTop(rs: seq<Region>) {
    rs == [] || rs[|rs| - 1].End() < TWO_64
  }

  /** Oracle assumption: the resident pages of a region fit in it. */
  ghost predicate ResidentFits(rs: seq<Region>, pageSize: nat) {
    forall r | r in rs :: r.privatePages * pageSize <= r.size && r.sharedPages * pageSize <= r.size
  }

  /** vm_region_64: the first region ending above the cursor, or failure. */
  function VmRegion64(rs: seq<Region>, cursor: nat): Option<Region> {
    if rs == [] then None
    else if cursor < rs[0].End() then Some(rs[0])
    else VmRegion64(rs[1..], cursor)
  }

  /** Where an exact cursor stands after the first k regions. */
  function Cursor(rs: seq<Region>, k: nat): nat
    requires k <= |rs|
  {
    if k == 0 then 0 else rs[k - 1].End()
  }

  lemma {:induction false} OracleAnswers(rs: seq<Region>, k: nat, cursor: nat)
    requires k <= |rs|
    requires forall i | 0 <= i < k :: rs[i].End() <= cursor
    requires k < |rs| ==> cursor < rs[k].End()
    ensures VmRegion64(rs, cursor) == if k < |rs| then Some(rs[k]) else None
  {
    if k > 0 {
      OracleAnswers(rs[1..], k - 1, cursor);
    }
  }

  lemma OracleAtCursor(rs: seq<Region>, k: nat)
    requires ValidMap(rs) && k <= |rs|
    ensures VmRegion64(rs, Cursor(rs, k)) == if k < |rs| then Some(rs[k]) else None
  {
    forall i | 0 <= i < k ensures rs[i].End() <= Cursor(rs, k) {
      Ascending(rs, 0, i, k - 1);
    }
    if k < |rs| {
      Ascending(rs, 0, if k > 0 then k - 1 else 0, k);
      Ascending(rs, 0, k, k);
    }
    OracleAnswers(rs, k, Cursor(rs, k));
  }

  // What one region contributes, stated over the kernel's own report.

  /** A region only this task refers to: reported private, or copy-on-write with one reference. */
  predicate CountsAsPrivate(r: Region) {
    r.mode == Private || (r.mode == Cow && r.refCount == 1)
  }

  predicate CountsAsShared(r: Region) {
    (r.mode == Cow || r.mode == Shared) && 1 < r.refCount
  }

  function PrivateBytes(pageSize: nat): Region -> nat {
    (r: Region) => if CountsAsPrivate(r) then r.privatePages * pageSize else 0
  }

  /** This task's part of the shared resident bytes: one reference's worth, rounded down. */
  function SharedBytes(pageSize: nat): Region -> nat {
    (r: Region) => if CountsAsShared(r) then r.sharedPages * pageSize / r.refCount else 0
  }

  function VirtualBytes(): Region -> nat {
    (r: Region) => r.size
  }

  function NonPrivateBytes(): Region -> nat {
    (r: Region) => if r.mode != Private then r.size else 0
  }

  function StrictlyPrivateBytes(): Region -> nat {
    (r: Region) => if r.mode == Private then r.size else 0
  }

  /** A region counts on at most one side, and never for more than its size. */
  lemma RegionBound(r: Region, pageSize: nat)
    requires r.privatePages * pageSize <= r.size && r.sharedPages * pageSize <= r.size
    ensures PrivateBytes(pageSize)(r) + SharedBytes(pageSize)(r) <= r.size
  {
    if CountsAsShared(r) {
      ShareAtMostWhole(r.sharedPages * pageSize, r.refCount);
    }
  }

  /** Neither accumulator can pass the cursor, so neither can wrap in 64 bits. */
  lemma {:induction false} WalkBound(rs: seq<Region>, pageSize: nat, k: nat)
    requires ValidMap(rs) && ResidentFits(rs, pageSize) && k <= |rs|
    ensures Sum(rs[..k], PrivateBytes(pageSize)) + Sum(rs[..k], SharedBytes(pageSize)) <= Cursor(rs, k)
  {
    if k > 0 {
      WalkBound(rs, pageSize, k - 1);
      SumPrefix(rs, PrivateBytes(pageSize), k - 1);
      SumPrefix(rs, SharedBytes(pageSize), k - 1);
      Ascending(rs, 0, if k > 1 then k - 2 else 0, k - 1);
      Ascending(rs, 0, k - 1, k - 1);
      RegionBound(rs[k - 1], pageSize);
    }
  }

  lemma CursorBelowTop(rs: seq<Region>, k: nat)
    requires ValidMap(rs) && EndsBelowTop(rs) && k <= |rs|
    ensures Cursor(rs, k) < TWO_64
  {
    if k > 0 {
      Ascending(rs, 0, k - 1, |rs| - 1);
    }
  }

  /** What one iteration adds, and that the results stay below the next cursor. */
  lemma WalkIteration(rs: seq<Region>, pageSize: nat, k: nat)
    requires ValidMap(rs) && EndsBelowTop(rs) && ResidentFits(rs, pageSize) && k < |rs|
    ensures Sum(rs[..k + 1], PrivateBytes(pageSize))
         == Sum(rs[..k], PrivateBytes(pageSize)) + PrivateBytes(pageSize)(rs[k])
    ensures Sum(rs[..k + 1], SharedBytes(pageSize))
         == Sum(rs[..k], SharedBytes(pageSize)) + SharedBytes(pageSize)(rs[k])
    ensures Sum(rs[..k + 1], PrivateBytes(pageSize)) < TWO_64
    ensures Sum(rs[..k + 1], SharedBytes(pageSize)) < TWO_64
    ensures rs[k].End() < TWO_64
  {
    SumPrefix(rs, PrivateBytes(pageSize), k);
    SumPrefix(rs, SharedBytes(pageSize), k);
    WalkBound(rs, pageSize, k + 1);
    CursorBelowTop(rs, k + 1);
  }

  /** The classification inside the first walk: what each mode and count adds, whatever else the region
      holds. share is one reference's part of the shared resident bytes, rounded down. */
  method Account(region: Region, pageSize: nat, priv: u64, shrd: u64)
    returns (realPrivate: u64, realShared: u64, ghost share: nat)
    ensures realPrivate == Wrap64(priv + PrivateBytes(pageSize)(region))
    ensures realShared == Wrap64(shrd + SharedBytes(pageSize)(region))
    ensures region.mode == Private || (region.mode == Cow && region.refCount == 1) ==>
              realPrivate == Wrap64(priv + region.privatePages * pageSize) && realShared == shrd
    ensures (region.mode == Cow || region.mode == Shared) && 1 < region.refCount ==>
              && share * region.refCount <= region.sharedPages * pageSize < (share + 1) * region.refCount
              && realPrivate == priv && realShared == Wrap64(shrd + share)
    ensures region.mode !in {Private, Cow, Shared} || (region.mode != Private && region.refCount == 0)
            || (region.mode == Shared && region.refCount == 1) ==>
              realPrivate == priv && realShared == shrd
  {
    realPrivate, realShared := priv, shrd;
    share := 0;
    var info := region;
    if info.mode == Cow && info.refCount == 1 {
      info := info.(mode := Private);
    }
    if info.mode == Private {
      realPrivate := Wrap64(realPrivate + info.privatePages * pageSize);
    } else if (info.mode == Cow || info.mode == Shared) && 1 < info.refCount {
      realShared := Wrap64(realShared + info.sharedPages * pageSize / info.refCount);
      share := info.sharedPages * pageSize / info.refCount;
      SharesAndRemainder(info.sharedPages * pageSize, info.refCount);
    }
  }

  /** print_memory_info's first walk. visited lists the regions the kernel handed it. */
  method AccountRegions(rs: seq<Region>, pageSize: nat)
    returns (realPrivate: u64, realShared: u64, address: u64, ghost visited: seq<Region>)
    requires ValidMap(rs) && EndsBelowTop(rs) && ResidentFits(rs, pageSize)
    ensures visited == rs
    ensures realPrivate == Sum(rs, PrivateBytes(pageSize))
    ensures realShared == Sum(rs, SharedBytes(pageSize))
    ensures address == Cursor(rs, |rs|)
  {
    realPrivate, realShared, address := 0, 0, 0;
    visited := [];
    while true
      invariant |visited| <= |rs| && visited == rs[..|visited|]
      invariant address == Cursor(rs, |visited|)
      invariant realPrivate == Sum(visited, PrivateBytes(pageSize))
      invariant realShared == Sum(visited, SharedBytes(pageSize))
      decreases |rs| - |visited|
    {
      ghost var k := |visited|;
      OracleAtCursor(rs, k);
      var answer := VmRegion64(rs, address);
      if answer == None {
        break;
      }
      WalkIteration(rs, pageSize, k);
      ghost var share;
      realPrivate, realShared, share := Account(answer.value, pageSize, realPrivate, realShared);
      address := answer.value.start;
      address := Wrap64(address + answer.value.size);
      visited := visited + [answer.value];
      assert visited == rs[..k + 1];
    }
  }

  /** print_memory_info's second walk: resumed where a walk stood after k regions, it is handed
      exactly the remaining ones. */
  method ResumeWalk(rs: seq<Region>, start: u64, ghost k: nat) returns (address: u64, ghost visited: seq<Region>)
    requires ValidMap(rs) && EndsBelowTop(rs) && k <= |rs| && start == Cursor(rs, k)
    ensures visited == rs[k..]
    ensures address == Cursor(rs, |rs|)
  {
    address := start;
    visited := [];
    while true
      invariant k + |visited| <= |rs| && visited == rs[k..k + |visited|]
      invariant address == Cursor(rs, k + |visited|)
      decreases |rs| - |visited|
    {
      ghost var here := k + |visited|;
      OracleAtCursor(rs, here);
      var answer := VmRegion64(rs, address);
      if answer == None {
        break;
      }
      CursorBelowTop(rs, here + 1);
      address := Wrap64(answer.value.start + answer.value.size);
      visited := visited + [answer.value];
    }
  }

  /** Both walks together: every region once, in address order. */
  method PrintMemoryInfo(rs: seq<Region>, pageSize: nat)
    returns (realPrivate: u64, realShared: u64, ghost visited: seq<Region>)
    requires ValidMap(rs) && EndsBelowTop(rs) && ResidentFits(rs, pageSize)
    ensures visited == rs
    ensures realPrivate == Sum(rs, PrivateBytes(pageSize))
    ensures realShared == Sum(rs, SharedBytes(pageSize))
  {
    var address;
    realPrivate, realShared, address, visited := AccountRegions(rs, pageSize);
    ghost var revisited;
    address, revisited := ResumeWalk(rs, address, |rs|);
    visited := visited + revisited;
  }

  lemma {:induction false} VirtualBound(rs: seq<Region>, k: nat)
    requires ValidMap(rs) && k <= |rs|
    ensures Sum(rs[..k], NonPrivateBytes()) <= Cursor(rs, k)
  {
    if k > 0 {
      VirtualBound(rs, k - 1);
      SumPrefix(rs, NonPrivateBytes(), k - 1);
      Ascending(rs, 0, if k > 1 then k - 2 else 0, k - 1);
    }
  }

  /** getProcessSharedMemory: 0 without a task port, otherwise the virtual size of every region
      not reported private. */
  method GetProcessSharedMemory(taskPortOk: bool, rs: seq<Region>) returns (shared: u64)
    requires ValidMap(rs) && EndsBelowTop(rs)
    ensures shared == if taskPortOk then Sum(rs, NonPrivateBytes()) else 0
  {
    if !taskPortOk {
      return 0;
    }
    shared := 0;
    var address: u64 := 0;
    ghost var k := 0;
    while true
      invariant k <= |rs| && address == Cursor(rs, k)
      invariant shared == Sum(rs[..k], NonPrivateBytes())
      decreases |rs| - k
    {
      OracleAtCursor(rs, k);
      var answer := VmRegion64(rs, address);
      if answer == None {
        break;
      }
      var nextAddress, size := answer.value.start, answer.value.size;
      VirtualBound(rs, k + 1);
      SumPrefix(rs, NonPrivateBytes(), k);
      CursorBelowTop(rs, k + 1);
      if answer.value.mode != Private {
        shared := Wrap64(shared + size);
      }
      address := Wrap64(nextAddress + size);
      k := k + 1;
    }
    assert rs[..k] == rs;
  }

  lemma {:induction false} IntervalSize(s: set<nat>, from: nat, size: nat)
    requires forall a: nat :: a in s <==> from <= a < from + size
    ensures |s| == size
  {
    if size == 0 {
      assert s == {};
    } else {
      IntervalSize(s - {from + size - 1}, from, size - 1);
    }
  }

  /** Address a lies in the i-th region, which is not reported private. */
  predicate LiesIn(rs: seq<Region>, i: nat, a: nat)
    requires i < |rs|
  {
    rs[i].mode != Private && rs[i].start <= a < rs[i].End()
  }

  /** An address lies in the first region, below its end, or in a later one, beyond it. */
  lemma {:induction false} CoveredOnce(rs: seq<Region>, floor: nat, a: nat)
    requires ValidFrom(rs, floor) && rs != []
    ensures (exists i: nat :: i < |rs| && LiesIn(rs, i, a))
       <==> LiesIn(rs, 0, a) || exists i: nat :: i < |rs[1..]| && LiesIn(rs[1..], i, a)
    ensures (exists i: nat :: i < |rs[1..]| && LiesIn(rs[1..], i, a)) ==> rs[0].End() <= a
  {
    if i: nat :| i < |rs| && LiesIn(rs, i, a) {
      assert i > 0 ==> LiesIn(rs[1..], i - 1, a);
    }
    if i: nat :| i < |rs[1..]| && LiesIn(rs[1..], i, a) {
      assert LiesIn(rs, i + 1, a);
      Ascending(rs, floor, 0, i + 1);
    }
  }

  lemma {:induction false} CoverageOf(rs: seq<Region>, floor: nat, s: set<nat>)
    requires ValidFrom(rs, floor) && forall a: nat :: a in s <==> exists i: nat :: i < |rs| && LiesIn(rs, i, a)
    ensures Sum(rs, NonPrivateBytes()) == |s|
  {
    if rs == [] {
      assert s == {};
    } else {
      var first, rest := set a | a in s && a < rs[0].End(), set a | a in s && rs[0].End() <= a;
      assert rs == [rs[0]] + rs[1..] && s == first + rest && first !! rest;
      SumConcat([rs[0]], rs[1..], NonPrivateBytes());
      assert Sum([rs[0]], NonPrivateBytes()) == NonPrivateBytes()(rs[0]);
      forall a: nat
        ensures a in first <==> LiesIn(rs, 0, a)
        ensures a in rest <==> exists i: nat :: i < |rs[1..]| && LiesIn(rs[1..], i, a)
      {
        CoveredOnce(rs, floor, a);
      }
      if rs[0].mode != Private {
        IntervalSize(first, rs[0].start, rs[0].size);
      } else {
        assert first == {};
      }
      CoverageOf(rs[1..], rs[0].End(), rest);
    }
  }

  /** getProcessSharedMemory counts addresses: those that lie in some region not reported private. */
  lemma {:induction false} SharedIsCoverage(rs: seq<Region>, s: set<nat>)
    requires ValidMap(rs) && forall a: nat :: a in s <==> exists i: nat :: i < |rs| && LiesIn(rs, i, a)
    ensures Sum(rs, NonPrivateBytes()) == |s|
  {
    CoverageOf(rs, 0, s);
  }

  /** On one snapshot the proportional figure never exceeds the virtual one, and the virtual one
      together with the regions reported private is the whole mapped size. */
  lemma SharedWithinVirtual(rs: seq<Region>, pageSize: nat)
    requires ResidentFits(rs, pageSize)
    ensures Sum(rs, SharedBytes(pageSize)) <= Sum(rs, NonPrivateBytes())
    ensures Sum(rs, NonPrivateBytes()) + Sum(rs, StrictlyPrivateBytes()) == Sum(rs, VirtualBytes())
  {
    forall r | r in rs ensures SharedBytes(pageSize)(r) <= NonPrivateBytes()(r) {
      RegionBound(r, pageSize);
    }
    SumMonotone(rs, SharedBytes(pageSize), NonPrivateBytes());
    SumAdd(rs, NonPrivateBytes(), StrictlyPrivateBytes(), VirtualBytes());
  }

  // Termination, over every valid map: the cursor arithmetic of the loop without its accumulators.

  datatype Walk = Running(address: nat) | Finished

  function WalkStep(rs: seq<Region>, w: Walk): Walk {
    if w.Finished? then w
    else match VmRegion64(rs, w.address)
      case None => Finished
      case Some(r) => Running(Wrap64(r.start + r.size))
  }

  function WalkAfter(rs: seq<Region>, steps: nat): Walk {
    if steps == 0 then Running(0) else WalkStep(rs, WalkAfter(rs, steps - 1))
  }

  lemma {:induction false} WalkReaches(rs: seq<Region>, k: nat)
    requires ValidMap(rs) && EndsBelowTop(rs) && k <= |rs|
    ensures WalkAfter(rs, k) == Running(Cursor(rs, k))
  {
    CursorBelowTop(rs, k);
    if k > 0 {
      WalkReaches(rs, k - 1);
      OracleAtCursor(rs, k - 1);
    }
  }

  /** A map that reaches the top of the address space sends the cursor back to 0, so after any
      number of steps the walk stands in front of some region again. */
  lemma {:induction false} WalkCycles(rs: seq<Region>, steps: nat) returns (k: nat)
    requires ValidMap(rs) && !EndsBelowTop(rs)
    ensures k < |rs| && WalkAfter(rs, steps) == Running(Cursor(rs, k))
  {
    k := 0;
    if steps > 0 {
      var j := WalkCycles(rs, steps - 1);
      OracleAtCursor(rs, j);
      Ascending(rs, 0, j, |rs| - 1);
      Ascending(rs, 0, |rs| - 1, |rs| - 1);
      if j + 1 < |rs| {
        k := j + 1;
        Ascending(rs, 0, k, |rs| - 1);
      }
    }
  }

  /** The loop ends if and only if no region reaches the very top of the address space. */
  lemma WalkEndsIff(rs: seq<Region>)
    requires ValidMap(rs)
    ensures (exists steps: nat :: WalkAfter(rs, steps) == Finished) <==> EndsBelowTop(rs)
  {
    if EndsBelowTop(rs) {
      WalkReaches(rs, |rs|);
      OracleAtCursor(rs, |rs|);
      assert WalkAfter(rs, |rs| + 1) == Finished;
    } else {
      forall steps: nat ensures WalkAfter(rs, steps) != Finished {
        var k := WalkCycles(rs, steps);
      }
    }
  }

  /** A map whose walk never ends: one page, the last of the address space. */
  lemma {:induction false} EndlessExample() returns (rs: seq<Region>)
    ensures ValidMap(rs) && rs != [] && ResidentFits(rs, 4096)
    ensures forall steps: nat :: WalkAfter(rs, steps) != Finished
  {
    var last := Region(TWO_64 - 4096, 4096, Private, 1, 1, 0);
    rs := [last];
    assert ValidFrom(rs[1..], last.End());
    WalkEndsIff(rs);
  }
}
