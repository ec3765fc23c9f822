/**
 demo_sysv_shared_memory of macos/process/xnu_footprint_demo.cpp: the search for a size and flags
 the system accepts, and what becomes of the segment.
 */
module SysVSearch {
  import opened Resources
  import opened MappingDemos

  const IPC_CREAT: nat := 512
  const IPC_EXCL: nat := 1024
  const READ_WRITE_ALL: nat := 438   // 0666
  const READ_WRITE_OWNER: nat := 384 // 0600

  const SIZES: seq<nat> := [64 * 1024, 32 * 1024, 16 * 1024, 8 * 1024, 4 * 1024]
  const FLAGS: seq<nat> := [
    IPC_CREAT + READ_WRITE_ALL,
    IPC_CREAT + IPC_EXCL + READ_WRITE_ALL,
    IPC_CREAT + READ_WRITE_OWNER,
    IPC_CREAT + IPC_EXCL + READ_WRITE_OWNER
  ]
  const ATTEMPTS: nat := 20

  /** A request to shmget. */
  datatype Request = Request(size: nat, flags: nat)

  function Pair(i: nat, j: nat): Request
    requires i < |SIZES| && j < |FLAGS|
  {
    Request(SIZES[i], FLAGS[j])
  }

  /** The requests before the one at i, j: every set of flags for each larger size, then the first j
      sets for this one. */
  function Before(i: nat, j: nat): seq<Request>
    requires i < |SIZES| && j <= |FLAGS|
    decreases i, j
  {
    if j > 0 then Before(i, j - 1) + [Pair(i, j - 1)]
    else if i > 0 then Before(i - 1, |FLAGS|)
    else []
  }

  /** How many those are. */
  function Rank(i: nat, j: nat): nat {
    4 * i + j
  }

  /** The first call that succeeds among those from one number up to another, or the latter. */
  function FirstWorking(fails: nat -> bool, from: nat, limit: nat): (n: nat)
    requires from <= limit
    ensures from <= n <= limit
    ensures n < limit ==> !fails(n)
    ensures forall m | from <= m < n :: fails(m)
    decreases limit - from
  {
    if from == limit || !fails(from) then from else FirstWorking(fails, from + 1, limit)
  }

  lemma {:induction false} FirstWorkingIs(fails: nat -> bool, from: nat, limit: nat, n: nat)
    requires from <= n <= limit && (forall m | from <= m < n :: fails(m)) && (n < limit ==> !fails(n))
    ensures FirstWorking(fails, from, limit) == n
  {
  }

  /** accepts says which size and flags, by their places in the two tables, the system accepts: the
      calls of the search fail just when it does not. */
  ghost predicate Decides(accepts: (nat, nat) -> bool, fails: nat -> bool, call: nat) {
    forall i: nat, j: nat | i < |SIZES| && j < |FLAGS| :: fails(call + Rank(i, j)) == !accepts(i, j)
  }

  /** The search stops at the lexicographically first pair the system accepts. */
  lemma {:induction false} FirstPairWorks(
      fails: nat -> bool, call: nat, accepts: (nat, nat) -> bool, i: nat, j: nat, a: nat, b: nat)
    requires Decides(accepts, fails, call) && i < |SIZES| && j < |FLAGS|
    requires FirstWorking(fails, call, call + ATTEMPTS) == call + Rank(i, j)
    requires a < |SIZES| && b < |FLAGS| && (a < i || (a == i && b < j))
    ensures accepts(i, j) && !accepts(a, b)
  {
    assert fails(call + Rank(a, b));
  }

  lemma {:induction false} RankOf(k: nat) returns (i: nat, j: nat)
    requires k < ATTEMPTS
    ensures i < |SIZES| && j < |FLAGS| && Rank(i, j) == k
  {
    i, j := k / 4, k % 4;
  }

  ghost predicate AcceptsNone(accepts: (nat, nat) -> bool) {
    forall i: nat, j: nat | i < |SIZES| && j < |FLAGS| :: !accepts(i, j)
  }

  /** The table: sizes from 64 KB down by halves to 4 KB, and four sets of flags, of which the first asks for
      a segment anyone may read and write. */
  lemma {:induction false} TableIs()
    ensures |SIZES| == 5 && |FLAGS| == 4 && ATTEMPTS == 20
    ensures Pair(0, 0) == Request(65536, 0x200 + 438) && Pair(0, 1) == Request(65536, 0x200 + 0x400 + 438)
    ensures Pair(0, 2) == Request(65536, 0x200 + 384) && Pair(0, 3) == Request(65536, 0x200 + 0x400 + 384)
    ensures forall i: nat, j: nat | i < 4 && j < 4 ::
              Pair(i, j).size == 2 * Pair(i + 1, j).size && Pair(i, j).flags == Pair(i + 1, j).flags
  {
  }

  lemma {:induction false} SizesFall(i: nat, j: nat)
    requires i <= j < |SIZES|
    ensures SIZES[j] <= SIZES[i]
  {
    if i < j {
      SizesFall(i, j - 1);
    }
  }

  /** The segment found is the largest the system accepts with any flags. */
  lemma {:induction false} LargestIsFound(
      fails: nat -> bool, call: nat, accepts: (nat, nat) -> bool, i: nat, j: nat, a: nat, b: nat)
    requires Decides(accepts, fails, call) && i < |SIZES| && j < |FLAGS| && a < |SIZES| && b < |FLAGS|
    requires FirstWorking(fails, call, call + ATTEMPTS) == call + Rank(i, j) && accepts(a, b)
    ensures Pair(a, b).size <= Pair(i, j).size
  {
    if a < i {
      FirstPairWorks(fails, call, accepts, i, j, a, b);
    } else {
      SizesFall(i, a);
    }
  }

  /** It gives up exactly if the system accepts none. */
  lemma {:induction false} NonePairWorks(fails: nat -> bool, call: nat, accepts: (nat, nat) -> bool)
    requires Decides(accepts, fails, call)
    ensures FirstWorking(fails, call, call + ATTEMPTS) == call + ATTEMPTS <==> AcceptsNone(accepts)
  {
    var n := FirstWorking(fails, call, call + ATTEMPTS);
    if n < call + ATTEMPTS {
      var i, j := RankOf(n - call);
      assert accepts(i, j);
    } else {
      forall i: nat, j: nat | i < |SIZES| && j < |FLAGS| ensures !accepts(i, j) {
        assert fails(call + Rank(i, j));
      }
    }
  }

  /** The segment has been created by this call, and rest is still to come. */
  ghost predicate Created(os: Os, call: nat, next: nat, log: seq<Event>, rest: Plan)
    reads os
  {
    var segment := Resource(Segment, next);
    && os.calls == call + 1 && os.next == next + 1 && os.log == log + [Acquired(segment)]
    && os.demo.plan == rest && os.demo.mine == Push(segment, Empty) && os.demo.order == NewestFirst
    && os.demo.start == Start(call, next, log)
  }

  ghost predicate StillIdle(os: Os, call: nat, next: nat, log: seq<Event>)
    reads os
  {
    os.Ready() && os.calls == call && os.next == next && os.log == log
  }

  ghost predicate Refused(fails: nat -> bool, start: nat, k: nat) {
    forall n | start <= n < start + k :: fails(n)
  }

  /** One shmget of the search, after those before it were refused; rest is what the demo does with the
      segment. */
  method TryPair(os: Os, ghost rest: Plan, i: nat, j: nat, before: seq<Request>, ghost start: nat)
    returns (success: bool, segment: Resource, asked: seq<Request>)
    requires os.Ready() && i < |SIZES| && j < |FLAGS| && before == Before(i, j)
    requires os.calls == start + Rank(i, j) && Refused(os.fails, start, Rank(i, j))
    modifies os
    ensures os.Valid() && asked == Before(i, j) + [Pair(i, j)]
    ensures success ==>
              && FirstWorking(os.fails, start, start + ATTEMPTS) == start + Rank(i, j)
              && segment == Resource(Segment, old(os.next))
              && Created(os, start + Rank(i, j), old(os.next), old(os.log), rest)
    ensures !success ==>
              && StillIdle(os, start + Rank(i, j + 1), old(os.next), old(os.log))
              && Refused(os.fails, start, Rank(i, j + 1))
  {
    os.Begin(Take(Segment, rest), NewestFirst);
    success, segment := os.Acquire(Segment);
    asked := before + [Request(SIZES[i], FLAGS[j])];
    if success {
      FirstWorkingIs(os.fails, start, start + ATTEMPTS, start + Rank(i, j));
    }
  }

  /** The inner loop: one size with each set of flags, until one is accepted. */
  method TryFlags(os: Os, ghost rest: Plan, i: nat, before: seq<Request>, ghost start: nat)
    returns (success: bool, segment: Resource, asked: seq<Request>, j: nat)
    requires os.Ready() && i < |SIZES| && before == Before(i, 0)
    requires os.calls == start + Rank(i, 0) && Refused(os.fails, start, Rank(i, 0))
    modifies os
    ensures os.Valid()
    ensures success ==>
              && j < |FLAGS| && FirstWorking(os.fails, start, start + ATTEMPTS) == start + Rank(i, j)
              && asked == Before(i, j) + [Pair(i, j)]
              && segment == Resource(Segment, old(os.next))
              && Created(os, start + Rank(i, j), old(os.next), old(os.log), rest)
    ensures !success ==>
              && asked == Before(i, |FLAGS|) && Refused(os.fails, start, Rank(i + 1, 0))
              && StillIdle(os, start + Rank(i + 1, 0), old(os.next), old(os.log))
  {
    success, asked, j := false, before, 0;
    segment := Resource(Segment, os.next);
    while j < |FLAGS| && !success
      invariant os.Ready() && j <= |FLAGS| && !success
      invariant asked == Before(i, j)
      invariant StillIdle(os, start + Rank(i, j), old(os.next), old(os.log)) && Refused(os.fails, start, Rank(i, j))
    {
      success, segment, asked := TryPair(os, rest, i, j, asked, start);
      if success {
        break;
      }
      j := j + 1;
    }
  }

  /** The outer loop. asked lists the requests made; on success i and j are the last of them. */
  method Search(os: Os, ghost rest: Plan)
    returns (success: bool, segment: Resource, size: nat, asked: seq<Request>, i: nat, j: nat)
    requires os.Ready()
    modifies os
    ensures os.Valid()
    ensures var n := FirstWorking(os.fails, old(os.calls), old(os.calls) + ATTEMPTS);
            if success then
              && i < |SIZES| && j < |FLAGS| && n == old(os.calls) + Rank(i, j)
              && asked == Before(i, j) + [Pair(i, j)] && size == Pair(i, j).size
              && segment == Resource(Segment, old(os.next)) && Created(os, n, old(os.next), old(os.log), rest)
            else
              && n == old(os.calls) + ATTEMPTS && asked == Before(|SIZES| - 1, |FLAGS|)
              && StillIdle(os, n, old(os.next), old(os.log))
  {
    ghost var start := os.calls;
    success, size, asked, i, j := false, 64 * 1024, [], 0, 0;
    segment := Resource(Segment, os.next);
    while i < |SIZES| && !success
      invariant os.Ready() && i <= |SIZES| && !success
      invariant asked == (if i == 0 then [] else Before(i - 1, |FLAGS|))
      invariant StillIdle(os, start + Rank(i, 0), old(os.next), old(os.log)) && Refused(os.fails, start, Rank(i, 0))
    {
      size := SIZES[i];
      success, segment, asked, j := TryFlags(os, rest, i, asked, start);
      if success {
        return;
      }
      i := i + 1;
    }
    FirstWorkingIs(os.fails, start, start + ATTEMPTS, start + ATTEMPTS);
  }

  function AttachPlan(): Plan {
    Take(Attachment, Ignore(Finish))
  }

  /** Once found, a segment is attached; a child is forked; both are let go. */
  function SegmentPlan(): Plan {
    Take(Segment, AttachPlan())
  }

  /** A segment left by an earlier run, if one is found, is removed. */
  function StalePlan(): Plan {
    Take(Segment, Finish)
  }

  /** The next identity after a call that may take one. */
  function Unused(fails: nat -> bool, call: nat, next: nat): nat {
    if fails(call) then next else next + 1
  }

  method RemoveStale(os: Os)
    requires os.Ready()
    modifies os
    ensures Followed(os, StalePlan(), NewestFirst)
    ensures os.calls == old(os.calls) + 1 && os.next == Unused(os.fails, old(os.calls), old(os.next))
  {
    os.Begin(StalePlan(), NewestFirst);
    var found, stale := os.Acquire(Segment);
    if found {
      os.Release(stale);
    }
    Done(os, StalePlan(), NewestFirst);
  }

  /** Attach, fork, detach, remove; or remove at once if attaching fails. */
  method UseSegment(os: Os, segment: Resource, size: nat) returns (attached: bool, megabytes: nat)
    requires os.Valid() && os.demo.plan == AttachPlan()
    requires os.demo.mine == Push(segment, Empty) && os.demo.order == NewestFirst
    modifies os
    ensures os.Valid() && os.demo.Idle() && os.log == os.demo.goal == old(os.demo.goal)
    ensures os.demo.start == old(os.demo.start) && old(os.next) <= os.next
    ensures attached == !os.fails(old(os.calls))
    ensures attached ==> megabytes == size / 1024 / 1024
    ensures !attached ==> os.calls == old(os.calls) + 1 && os.next == old(os.next)
  {
    megabytes := 0;
    var address;
    attached, address := os.Acquire(Attachment);
    if attached {
      megabytes := size / 1024 / 1024;
      var forked := os.Call();
      os.Release(address);
    }
    os.Release(segment);
  }

  function AfterStale(fails: nat -> bool, call: nat, next: nat, log: seq<Event>): seq<Event> {
    var n := FirstWorking(fails, call, call + ATTEMPTS);
    if n == call + ATTEMPTS then Final(SharedMemoryPlan(), fails, n, next, Empty, NewestFirst, log)
    else
      var used := Final(SegmentPlan(), fails, n, next, Empty, NewestFirst, log);
      if fails(n + 1) then Final(SharedMemoryPlan(), fails, n + 2, next + 1, Empty, NewestFirst, used) else used
  }

  /** What the whole demo logs: the stale segment; the search; then the segment, or the POSIX demo
      instead, or both if attaching failed. */
  function SysVLog(fails: nat -> bool, call: nat, next: nat, log: seq<Event>): seq<Event> {
    var cleaned := Final(StalePlan(), fails, call, next, Empty, NewestFirst, log);
    AfterStale(fails, call + 1, Unused(fails, call, next), cleaned)
  }

  lemma {:induction false} RestoredChain(a: seq<Event>, b: seq<Event>, c: seq<Event>)
    requires Restored(a, b, NewestFirst) && Restored(b, c, NewestFirst)
    ensures Restored(a, c, NewestFirst)
  {
  }

  /** The size printed in megabytes is 0 for every segment the search can find, although the segment is
      not empty: only from 1 MB on would the division keep anything. */
  lemma {:induction false} MegabytesAlwaysZero(i: nat, j: nat)
    requires i < |SIZES| && j < |FLAGS|
    ensures Pair(i, j).size / 1024 / 1024 == 0 && 4096 <= Pair(i, j).size && Pair(i, j).size % 1024 == 0
  {
    assert i in {0, 1, 2, 3, 4};
  }

  /** One of the twenty requests from this call on works, and so does the call after it. */
  predicate Attaches(fails: nat -> bool, call: nat) {
    var n := FirstWorking(fails, call, call + ATTEMPTS);
    n < call + ATTEMPTS && !fails(n + 1)
  }

  /** With the segment found: use it, or remove it and run the POSIX demo. */
  method UseFound(os: Os, segment: Resource, size: nat, ghost start: Start) returns (printed: bool, megabytes: nat)
    requires os.Valid() && Created(os, start.call, start.next, start.log, AttachPlan())
    requires segment == Resource(Segment, start.next) && size / 1024 / 1024 == 0
    requires !os.fails(start.call) && InOrder(start.log, start.next)
    modifies os
    ensures os.Ready() && start.next <= os.next && Restored(start.log, os.log, NewestFirst)
    ensures printed == !os.fails(start.call + 1) && (printed ==> megabytes == 0)
    ensures var used := Final(SegmentPlan(), os.fails, start.call, start.next, Empty, NewestFirst, start.log);
            os.log == if printed then used
                      else Final(SharedMemoryPlan(), os.fails, start.call + 2, start.next + 1, Empty, NewestFirst, used)
  {
    printed, megabytes := UseSegment(os, segment, size);
    Done(os, SegmentPlan(), NewestFirst);
    ghost var used := os.log;
    if !printed {
      DemoSharedMemory(os);
      RestoredChain(start.log, used, os.log);
    }
  }

  /** From the search on. */
  method SearchAndUse(os: Os) returns (printed: bool, megabytes: nat)
    requires os.Ready()
    modifies os
    ensures os.Ready() && old(os.next) <= os.next && Restored(old(os.log), os.log, NewestFirst)
    ensures os.log == AfterStale(os.fails, old(os.calls), old(os.next), old(os.log))
    ensures printed == Attaches(os.fails, old(os.calls)) && (printed ==> megabytes == 0)
  {
    printed, megabytes := false, 0;
    var success, segment, size, asked, i, j := Search(os, AttachPlan());
    if !success {
      DemoSharedMemory(os);
      return;
    }
    MegabytesAlwaysZero(i, j);
    printed, megabytes := UseFound(os, segment, size, os.demo.start);
  }

  method DemoSysV(os: Os) returns (printed: bool, megabytes: nat)
    requires os.Ready()
    modifies os
    ensures os.Ready() && old(os.next) <= os.next && Restored(old(os.log), os.log, NewestFirst)
    ensures os.log == SysVLog(os.fails, old(os.calls), old(os.next), old(os.log))
    ensures printed == Attaches(os.fails, old(os.calls) + 1) && (printed ==> megabytes == 0)
  {
    RemoveStale(os);
    ghost var cleaned := os.log;
    printed, megabytes := SearchAndUse(os);
    RestoredChain(old(os.log), cleaned, os.log);
  }

  lemma {:induction false} PlanLeavesNothing(
      plan: Plan, fails: nat -> bool, call: nat, next: nat, after: nat, log: seq<Event>, others: set<Resource>)
    requires Accounted(log, Empty, others, next) && next <= after
    ensures Accounted(Final(plan, fails, call, next, Empty, NewestFirst, log), Empty, others, after)
  {
    NothingLeaks(plan, fails, call, next, Empty, NewestFirst, log, others);
  }

  lemma {:induction false} RestLeavesNothing(
      fails: nat -> bool, call: nat, next: nat, log: seq<Event>, others: set<Resource>)
    requires Accounted(log, Empty, others, next)
    ensures Legal(AfterStale(fails, call, next, log)) && Live(AfterStale(fails, call, next, log)) == others
  {
    var n := FirstWorking(fails, call, call + ATTEMPTS);
    if n == call + ATTEMPTS {
      PlanLeavesNothing(SharedMemoryPlan(), fails, n, next, next, log, others);
    } else {
      PlanLeavesNothing(SegmentPlan(), fails, n, next, next + 1, log, others);
      var used := Final(SegmentPlan(), fails, n, next, Empty, NewestFirst, log);
      PlanLeavesNothing(SharedMemoryPlan(), fails, n + 2, next + 1, next + 1, used, others);
    }
  }

  /** Whatever the system refuses, no segment, attachment, descriptor or name outlives the demo. */
  lemma {:induction false} SysVLeavesNothing(
      fails: nat -> bool, call: nat, next: nat, log: seq<Event>, others: set<Resource>)
    requires Accounted(log, Empty, others, next)
    ensures Legal(SysVLog(fails, call, next, log)) && Live(SysVLog(fails, call, next, log)) == others
  {
    PlanLeavesNothing(StalePlan(), fails, call, next, Unused(fails, call, next), log, others);
    RestLeavesNothing(fails, call + 1, Unused(fails, call, next),
                      Final(StalePlan(), fails, call, next, Empty, NewestFirst, log), others);
  }
}
