/**
 What the demos hold from the operating system, and the order in which they let go of it.

 A plan lists the calls of a demo in order. What must happen when one of them fails is not part of
 the plan: it follows from it, and each demo's own cleanup code is proved to do it.
 */
module Resources {
  datatype Kind =
    | Name | Descriptor | Buffer | Mapping | Region
    | FileHandle | MappingHandle | View
    | Segment | Attachment

  datatype Resource = Resource(kind: Kind, id: nat)

  datatype Event = Acquired(r: Resource) | Released(r: Resource)

  datatype Plan =
    | Finish
    | Take(kind: Kind, rest: Plan)  // a call that acquires something or fails
    | Also(kind: Kind, rest: Plan)  // something more acquired by the call before
    | Check(rest: Plan)             // a call that acquires nothing and may fail
    | Ignore(rest: Plan)            // a call whose failure makes no difference
    | Give(rest: Plan)              // release what was acquired last

  /** What a demo holds, the first to go on top. */
  datatype Stack = Empty | Push(top: Resource, below: Stack)

  function Under(s: Stack, r: Resource): Stack {
    match s
    case Empty => Push(r, Empty)
    case Push(top, below) => Push(top, Under(below, r))
  }

  /** Just above what was acquired first. */
  function AboveLast(s: Stack, r: Resource): Stack {
    match s
    case Empty => Push(r, Empty)
    case Push(top, below) => if below == Empty then Push(r, s) else Push(top, AboveLast(below, r))
  }

  /** Most demos release the newest first. Some release in the order of acquisition, and those that make
      memory pressure do so but keep what they acquired first to the end. */
  datatype Order = NewestFirst | OldestFirst | FirstLast

  function Add(mine: Stack, r: Resource, order: Order): Stack {
    match order
    case NewestFirst => Push(r, mine)
    case OldestFirst => Under(mine, r)
    case FirstLast => AboveLast(mine, r)
  }

  function Unwound(mine: Stack, log: seq<Event>): seq<Event> {
    match mine
    case Empty => log
    case Push(top, below) => Unwound(below, log + [Released(top)])
  }

  /** The log a demo ends with: call is the number of calls made so far, fails says which calls fail,
      next is the first unused identity and mine is what the demo holds. At the first failure, and at
      the end, everything held is released. */
  function Final(
      plan: Plan, fails: nat -> bool, call: nat, next: nat, mine: Stack, order: Order, log: seq<Event>): seq<Event>
  {
    match plan
    case Finish => Unwound(mine, log)
    case Take(kind, rest) =>
      if fails(call) then Unwound(mine, log)
      else
        var r := Resource(kind, next);
        Final(rest, fails, call + 1, next + 1, Add(mine, r, order), order, log + [Acquired(r)])
    case Also(kind, rest) =>
      var r := Resource(kind, next);
      Final(rest, fails, call, next + 1, Add(mine, r, order), order, log + [Acquired(r)])
    case Check(rest) =>
      if fails(call) then Unwound(mine, log)
      else Final(rest, fails, call + 1, next, mine, order, log)
    case Ignore(rest) => Final(rest, fails, call + 1, next, mine, order, log)
    case Give(rest) =>
      if mine == Empty then Final(rest, fails, call, next, mine, order, log)
      else Final(rest, fails, call, next, mine.below, order, log + [Released(mine.top)])
  }

  /** What a log leaves live. */
  function Live(log: seq<Event>): set<Resource> {
    if log == [] then {}
    else
      match log[|log| - 1]
      case Acquired(r) => Live(log[..|log| - 1]) + {r}
      case Released(r) => Live(log[..|log| - 1]) - {r}
  }

  /** Nothing is acquired that is live, nothing released that is not. */
  ghost predicate Legal(log: seq<Event>) {
    log != [] ==>
      && Legal(log[..|log| - 1])
      && match log[|log| - 1]
         case Acquired(r) => r !in Live(log[..|log| - 1])
         case Released(r) => r in Live(log[..|log| - 1])
  }

  function Elements(mine: Stack): set<Resource> {
    match mine
    case Empty => {}
    case Push(top, below) => {top} + Elements(below)
  }

  ghost predicate Distinct(mine: Stack, next: nat) {
    mine.Push? ==> mine.top !in Elements(mine.below) && mine.top.id < next && Distinct(mine.below, next)
  }

  lemma {:induction false} AddDistinct(mine: Stack, r: Resource, next: nat, order: Order)
    requires Distinct(mine, next) && next <= r.id
    ensures r !in Elements(mine)
    ensures Distinct(Add(mine, r, order), r.id + 1)
    ensures Elements(Add(mine, r, order)) == Elements(mine) + {r}
  {
    if mine.Push? {
      AddDistinct(mine.below, r, next, order);
    }
  }

  /** The demo holds mine, the rest of the process holds others, and the log says so. */
  ghost predicate Accounted(log: seq<Event>, mine: Stack, others: set<Resource>, next: nat) {
    && Legal(log) && Live(log) == others + Elements(mine)
    && Distinct(mine, next) && others !! Elements(mine) && (forall r | r in others :: r.id < next)
  }

  lemma {:induction false} LiveAppend(log: seq<Event>, e: Event)
    ensures Live(log + [e]) == if e.Acquired? then Live(log) + {e.r} else Live(log) - {e.r}
    ensures Legal(log + [e]) <==> Legal(log) && (e.Acquired? <==> e.r !in Live(log))
  {
  }

  lemma {:induction false} TakeAccounted(
      log: seq<Event>, mine: Stack, others: set<Resource>, next: nat, kind: Kind, order: Order)
    requires Accounted(log, mine, others, next)
    ensures var r := Resource(kind, next);
            Accounted(log + [Acquired(r)], Add(mine, r, order), others, next + 1)
  {
    var r := Resource(kind, next);
    LiveAppend(log, Acquired(r));
    AddDistinct(mine, r, next, order);
  }

  lemma {:induction false} ReleaseAccounted(log: seq<Event>, mine: Stack, others: set<Resource>, next: nat)
    requires Accounted(log, mine, others, next) && mine.Push?
    ensures Accounted(log + [Released(mine.top)], mine.below, others, next)
  {
  }

  lemma {:induction false} UnwoundAccounted(log: seq<Event>, mine: Stack, others: set<Resource>, next: nat)
    requires Accounted(log, mine, others, next)
    ensures Legal(Unwound(mine, log)) && Live(Unwound(mine, log)) == others
    decreases mine
  {
    if mine.Push? {
      ReleaseAccounted(log, mine, others, next);
      UnwoundAccounted(log + [Released(mine.top)], mine.below, others, next);
    }
  }

  /** For every plan, every schedule of failures and every order of release: nothing is released that
      is not held, and what is live on return is exactly what others held on entry. */
  lemma {:induction false} NothingLeaks(
      plan: Plan, fails: nat -> bool, call: nat, next: nat, mine: Stack, order: Order,
      log: seq<Event>, others: set<Resource>)
    requires Accounted(log, mine, others, next)
    ensures var final := Final(plan, fails, call, next, mine, order, log);
            Legal(final) && Live(final) == others
  {
    UnwoundAccounted(log, mine, others, next);
    match plan
    case Finish =>
    case Take(kind, rest) =>
      var r := Resource(kind, next);
      TakeAccounted(log, mine, others, next, kind, order);
      NothingLeaks(rest, fails, call + 1, next + 1, Add(mine, r, order), order, log + [Acquired(r)], others);
    case Also(kind, rest) =>
      var r := Resource(kind, next);
      TakeAccounted(log, mine, others, next, kind, order);
      NothingLeaks(rest, fails, call, next + 1, Add(mine, r, order), order, log + [Acquired(r)], others);
    case Check(rest) => NothingLeaks(rest, fails, call + 1, next, mine, order, log, others);
    case Ignore(rest) => NothingLeaks(rest, fails, call + 1, next, mine, order, log, others);
    case Give(rest) =>
      if mine == Empty {
        NothingLeaks(rest, fails, call, next, mine, order, log, others);
      } else {
        ReleaseAccounted(log, mine, others, next);
        NothingLeaks(rest, fails, call, next, mine.below, order, log + [Released(mine.top)], others);
      }
  }

  datatype Replay = Holding(held: Stack) | OutOfOrder

  function Moved(held: Stack, e: Event): Replay {
    match e
    case Acquired(r) => Holding(Push(r, held))
    case Released(r) => if held.Push? && held.top == r then Holding(held.below) else OutOfOrder
  }

  /** A log read as a stack: every release must be of the newest resource still held. */
  function Replayed(log: seq<Event>): Replay {
    if log == [] then Holding(Empty)
    else
      match Replayed(log[..|log| - 1])
      case OutOfOrder => OutOfOrder
      case Holding(held) => Moved(held, log[|log| - 1])
  }

  lemma {:induction false} ReplayAppend(log: seq<Event>, held: Stack, e: Event)
    requires Replayed(log) == Holding(held)
    ensures Replayed(log + [e]) == Moved(held, e)
  {
  }

  function Over(mine: Stack, base: Stack): Stack {
    match mine
    case Empty => base
    case Push(top, below) => Push(top, Over(below, base))
  }

  lemma {:induction false} UnwoundNests(log: seq<Event>, base: Stack, mine: Stack)
    requires Replayed(log) == Holding(Over(mine, base))
    ensures Replayed(Unwound(mine, log)) == Holding(base)
    decreases mine
  {
    if mine.Push? {
      ReplayAppend(log, Over(mine, base), Released(mine.top));
      UnwoundNests(log + [Released(mine.top)], base, mine.below);
    }
  }

  /** Newest first, every resource is released in reverse order of acquisition, whatever fails: read
      as a stack, the log ends where it began. */
  lemma {:induction false} ReleasesNest(
      plan: Plan, fails: nat -> bool, call: nat, next: nat, mine: Stack, log: seq<Event>, base: Stack)
    requires Replayed(log) == Holding(Over(mine, base))
    ensures Replayed(Final(plan, fails, call, next, mine, NewestFirst, log)) == Holding(base)
  {
    UnwoundNests(log, base, mine);
    match plan
    case Finish =>
    case Take(kind, rest) =>
      var r := Resource(kind, next);
      ReplayAppend(log, Over(mine, base), Acquired(r));
      ReleasesNest(rest, fails, call + 1, next + 1, Push(r, mine), log + [Acquired(r)], base);
    case Also(kind, rest) =>
      var r := Resource(kind, next);
      ReplayAppend(log, Over(mine, base), Acquired(r));
      ReleasesNest(rest, fails, call, next + 1, Push(r, mine), log + [Acquired(r)], base);
    case Check(rest) => ReleasesNest(rest, fails, call + 1, next, mine, log, base);
    case Ignore(rest) => ReleasesNest(rest, fails, call + 1, next, mine, log, base);
    case Give(rest) =>
      if mine == Empty {
        ReleasesNest(rest, fails, call, next, mine, log, base);
      } else {
        ReplayAppend(log, Over(mine, base), Released(mine.top));
        ReleasesNest(rest, fails, call, next, mine.below, log + [Released(mine.top)], base);
      }
  }

  /** How often an event occurs. */
  function Times(log: seq<Event>, e: Event): nat {
    multiset(log)[e]
  }

  /** Of what is new in final: nothing is acquired twice or under an old identity, and everything,
      along with what was held at log, is released as often as it was acquired. */
  ghost predicate OnceEach(log: seq<Event>, final: seq<Event>, mine: Stack, next: nat, r: Resource) {
    var acquired := Times(final, Acquired(r)) - Times(log, Acquired(r));
    && 0 <= acquired <= (if r.id < next then 0 else 1)
    && Times(final, Released(r)) == Times(log, Released(r)) + acquired + if r in Elements(mine) then 1 else 0
  }

  lemma {:induction false} TimesAppend(log: seq<Event>, e: Event, x: Event)
    ensures Times(log + [e], x) == Times(log, x) + if e == x then 1 else 0
  {
    assert multiset(log + [e]) == multiset(log) + multiset{e};
  }

  lemma {:induction false} TakeOnce(
      log: seq<Event>, final: seq<Event>, mine: Stack, next: nat, q: Resource, order: Order, r: Resource)
    requires q.id == next && Distinct(mine, next)
    requires OnceEach(log + [Acquired(q)], final, Add(mine, q, order), next + 1, r)
    ensures OnceEach(log, final, mine, next, r)
  {
    AddDistinct(mine, q, next, order);
    TimesAppend(log, Acquired(q), Acquired(r));
    TimesAppend(log, Acquired(q), Released(r));
  }

  lemma {:induction false} ReleaseOnce(log: seq<Event>, final: seq<Event>, mine: Stack, next: nat, r: Resource)
    requires mine.Push? && Distinct(mine, next)
    requires OnceEach(log + [Released(mine.top)], final, mine.below, next, r)
    ensures OnceEach(log, final, mine, next, r)
  {
  }

  lemma {:induction false} UnwoundOnce(mine: Stack, log: seq<Event>, next: nat, r: Resource)
    requires Distinct(mine, next)
    ensures OnceEach(log, Unwound(mine, log), mine, next, r)
    decreases mine
  {
    if mine.Push? {
      UnwoundOnce(mine.below, log + [Released(mine.top)], next, r);
      ReleaseOnce(log, Unwound(mine, log), mine, next, r);
    }
  }

  lemma {:induction false} AddedOnce(
      rest: Plan, fails: nat -> bool, call: nat, next: nat, mine: Stack, order: Order,
      log: seq<Event>, q: Resource, r: Resource)
    requires Distinct(mine, next) && q.id == next
    ensures var final := Final(rest, fails, call, next + 1, Add(mine, q, order), order, log + [Acquired(q)]);
            OnceEach(log, final, mine, next, r)
    decreases rest, 1
  {
    var final := Final(rest, fails, call, next + 1, Add(mine, q, order), order, log + [Acquired(q)]);
    AddDistinct(mine, q, next, order);
    ReleasedExactlyOnce(rest, fails, call, next + 1, Add(mine, q, order), order, log + [Acquired(q)], r);
    TakeOnce(log, final, mine, next, q, order, r);
  }

  /** Whatever fails, each resource is released exactly once. */
  lemma {:induction false} ReleasedExactlyOnce(
      plan: Plan, fails: nat -> bool, call: nat, next: nat, mine: Stack, order: Order,
      log: seq<Event>, r: Resource)
    requires Distinct(mine, next)
    ensures OnceEach(log, Final(plan, fails, call, next, mine, order, log), mine, next, r)
    decreases plan, 0
  {
    UnwoundOnce(mine, log, next, r);
    var final := Final(plan, fails, call, next, mine, order, log);
    match plan
    case Finish =>
    case Take(kind, rest) =>
      if !fails(call) {
        AddedOnce(rest, fails, call + 1, next, mine, order, log, Resource(kind, next), r);
      }
    case Also(kind, rest) =>
      AddedOnce(rest, fails, call, next, mine, order, log, Resource(kind, next), r);
    case Check(rest) => ReleasedExactlyOnce(rest, fails, call + 1, next, mine, order, log, r);
    case Ignore(rest) => ReleasedExactlyOnce(rest, fails, call + 1, next, mine, order, log, r);
    case Give(rest) =>
      if mine == Empty {
        ReleasedExactlyOnce(rest, fails, call, next, mine, order, log, r);
      } else {
        ReleasedExactlyOnce(rest, fails, call, next, mine.below, order, log + [Released(mine.top)], r);
        ReleaseOnce(log, final, mine, next, r);
      }
  }

  /** A log in order, all of whose identities are used up. */
  ghost predicate InOrder(log: seq<Event>, next: nat) {
    Legal(log) && forall r | r in Live(log) :: r.id < next
  }

  /** Between the two logs everything acquired has been released, each release of something held; newest
      first, each of what was acquired last. */
  ghost predicate Restored(from: seq<Event>, log: seq<Event>, order: Order) {
    && Legal(log) && Live(log) == Live(from)
    && (order == NewestFirst && Replayed(from).Holding? ==> Replayed(log) == Replayed(from))
  }

  lemma {:induction false} FinalRestored(
      plan: Plan, fails: nat -> bool, call: nat, next: nat, order: Order, log: seq<Event>)
    requires InOrder(log, next)
    ensures Restored(log, Final(plan, fails, call, next, Empty, order, log), order)
  {
    NothingLeaks(plan, fails, call, next, Empty, order, log, Live(log));
    if order == NewestFirst && Replayed(log).Holding? {
      ReleasesNest(plan, fails, call, next, Empty, log, Replayed(log).held);
    }
  }

  /** Something acquired and not released stays live. */
  lemma {:induction false} LeftBehind(log: seq<Event>, next: nat, kind: Kind)
    requires InOrder(log, next)
    ensures var r := Resource(kind, next);
            && InOrder(log + [Acquired(r)], next + 1)
            && r !in Live(log) && Live(log + [Acquired(r)]) == Live(log) + {r}
  {
    LiveAppend(log, Acquired(Resource(kind, next)));
  }

  /** Every call that can end a demo early succeeds. */
  predicate Completes(plan: Plan, fails: nat -> bool, call: nat) {
    match plan
    case Finish => true
    case Take(_, rest) => !fails(call) && Completes(rest, fails, call + 1)
    case Check(rest) => !fails(call) && Completes(rest, fails, call + 1)
    case Ignore(rest) => Completes(rest, fails, call + 1)
    case Also(_, rest) => Completes(rest, fails, call)
    case Give(rest) => Completes(rest, fails, call)
  }

  /** Where a demo began. */
  datatype Start = Start(call: nat, next: nat, log: seq<Event>)

  /** How far a demo has come: what is left of its plan, what it holds, whether a call has ended it early,
      where it began, the log it has to end with, and whether it is to come to the end of its plan. */
  datatype Progress = Progress(
      plan: Plan, mine: Stack, order: Order, failed: bool, start: Start, goal: seq<Event>, completes: bool)
  {
    ghost predicate Idle() {
      plan == Finish && mine == Empty
    }

    /** Only what the plan calls for now may be released. */
    ghost predicate MayRelease(r: Resource) {
      (plan.Finish? || plan.Give?) && mine.Push? && mine.top == r
    }

    function Took(r: Resource): Progress
      requires plan.Take? || plan.Also?
    {
      this.(plan := plan.rest, mine := Add(mine, r, order))
    }

    function Failed(): Progress {
      this.(plan := Finish, failed := true)
    }

    function Called(ok: bool): Progress {
      if plan.Ignore? || (plan.Check? && ok) then this.(plan := plan.rest) else Failed()
    }

    function Gave(): Progress
      requires mine.Push?
    {
      this.(plan := if plan.Give? then plan.rest else plan, mine := mine.below)
    }
  }

  /** The operating system: calls fail as fails says, releases succeed. The ghost field follows a demo
      along its plan. */
  class Os {
    const fails: nat -> bool
    var calls: nat
    var next: nat
    var log: seq<Event>
    ghost var demo: Progress

    ghost predicate Valid()
      reads this
    {
      && demo.goal == Final(demo.plan, fails, calls, next, demo.mine, demo.order, log)
      && demo.completes == (!demo.failed && Completes(demo.plan, fails, calls))
    }

    /** Between demos. */
    ghost predicate Ready()
      reads this
    {
      Valid() && demo.Idle() && InOrder(log, next)
    }

    constructor (fails: nat -> bool)
      ensures Ready() && this.fails == fails && calls == next == 0 && log == []
    {
      this.fails, calls, next, log := fails, 0, 0, [];
      demo := Progress(Finish, Empty, NewestFirst, false, Start(0, 0, []), [], true);
    }

    ghost method Begin(plan: Plan, order: Order)
      requires Ready()
      modifies this`demo
      ensures Valid() && demo.plan == plan && demo.mine == Empty && demo.order == order && !demo.failed
      ensures demo.start == Start(calls, next, log)
      ensures demo.goal == Final(plan, fails, calls, next, Empty, order, log)
      ensures demo.completes == Completes(plan, fails, calls)
    {
      var goal := Final(plan, fails, calls, next, Empty, order, log);
      demo := Progress(plan, Empty, order, false, Start(calls, next, log), goal, Completes(plan, fails, calls));
    }

    /** A demo that returns without finishing its plan leaves behind what it holds. */
    ghost method Abandon()
      requires Valid()
      modifies this`demo
      ensures Valid() && demo.Idle()
    {
      demo := demo.(plan := Finish, mine := Empty, failed := true, goal := log, completes := false);
    }

    /** A call that acquires nothing. */
    method Call() returns (ok: bool)
      requires Valid() && (demo.plan.Check? || demo.plan.Ignore?)
      modifies this
      ensures Valid() && calls == old(calls) + 1 && next == old(next) && log == old(log)
      ensures ok == !fails(old(calls)) && demo == old(demo).Called(ok)
    {
      ok := !fails(calls);
      demo := demo.Called(ok);
      calls := calls + 1;
    }

    method Also(kind: Kind) returns (r: Resource)
      requires Valid() && demo.plan.Also? && demo.plan.kind == kind
      modifies this
      ensures Valid() && calls == old(calls) && next == old(next) + 1 && log == old(log) + [Acquired(r)]
      ensures r == Resource(kind, old(next)) && demo == old(demo).Took(r)
    {
      r := Resource(kind, next);
      demo := demo.Took(r);
      next, log := next + 1, log + [Acquired(r)];
    }

    method Acquire(kind: Kind) returns (ok: bool, r: Resource)
      requires Valid() && demo.plan.Take? && demo.plan.kind == kind
      modifies this
      ensures Valid() && calls == old(calls) + 1 && ok == !fails(old(calls)) && r == Resource(kind, old(next))
      ensures ok ==> next == old(next) + 1 && log == old(log) + [Acquired(r)] && demo == old(demo).Took(r)
      ensures !ok ==> next == old(next) && log == old(log) && demo == old(demo).Failed()
    {
      ok := !fails(calls);
      r := Resource(kind, next);
      calls := calls + 1;
      if ok {
        demo := demo.Took(r);
        next, log := next + 1, log + [Acquired(r)];
      } else {
        demo := demo.Failed();
      }
    }

    method Release(r: Resource)
      requires Valid() && demo.MayRelease(r)
      modifies this
      ensures Valid() && calls == old(calls) && next == old(next) && log == old(log) + [Released(r)]
      ensures demo == old(demo).Gave()
    {
      demo := demo.Gave();
      log := log + [Released(r)];
    }
  }
}
