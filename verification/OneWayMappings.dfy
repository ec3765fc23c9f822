/**
 Runs that map each file either privately or shared, never both, as every demo does. They never leak,
 so copy-on-write means eager copying on every kernel.
 */
module OneWayMappings {
  import opened CopyOnWrite

  predicate MapsOneWay(steps: seq<Step>) {
    forall i, j | 0 <= i < |steps| && 0 <= j < |steps| ::
      steps[i].MapFile? && steps[j].MapFile? && steps[i].file == steps[j].file ==> steps[i].kind == steps[j].kind
  }

  /** The kind a run maps a file with, if it does. */
  function KindOf(steps: seq<Step>, file: nat): Kind {
    if steps == [] then Private
    else if steps[0].MapFile? && steps[0].file == file then steps[0].kind
    else KindOf(steps[1..], file)
  }

  lemma {:induction false} KindOfMapping(steps: seq<Step>, i: nat)
    requires MapsOneWay(steps) && i < |steps| && steps[i].MapFile?
    ensures steps[i].kind == KindOf(steps, steps[i].file)
  {
    if !(steps[0].MapFile? && steps[0].file == steps[i].file) {
      forall a, b | 0 <= a < |steps| - 1 && 0 <= b < |steps| - 1
        ensures steps[1..][a].MapFile? && steps[1..][b].MapFile? && steps[1..][a].file == steps[1..][b].file
            ==> steps[1..][a].kind == steps[1..][b].kind
      {
        assert steps[1..][a] == steps[a + 1] && steps[1..][b] == steps[b + 1];
      }
      KindOfMapping(steps[1..], i - 1);
    }
  }

  /** All mappings of a frame are of one kind, and a frame holds at most one file, mapped as kinds says. */
  ghost predicate Uniform(l: Lazy, kinds: nat -> Kind) {
    && (forall k, q | k in l.ptes && q in l.ptes && l.ptes[k].frame == l.ptes[q].frame ::
          l.ptes[k].kind == l.ptes[q].kind)
    && (forall x, y | x in l.files && y in l.files && l.files[x] == l.files[y] :: x == y)
    && (forall x, k | x in l.files && k in l.ptes && l.ptes[k].frame == l.files[x] :: l.ptes[k].kind == kinds(x))
  }

  lemma {:induction false} UniformDoesNotLeak(l: Lazy, kinds: nat -> Kind, step: Step)
    requires Closed(l) && Uniform(l, kinds)
    ensures !Leaks(l, step)
  {
  }

  lemma {:induction false} UniformFork(l: Lazy, kinds: nat -> Kind, p: nat, c: nat)
    requires Closed(l) && Uniform(l, kinds)
    ensures Uniform(LazyStep(l, Fork(p, c)), kinds)
  {
    var m := LazyStep(l, Fork(p, c));
    if p in l.procs && c !in l.procs {
      assert OfProcess(l.ptes, c) == {};
      forall k | k in m.ptes ensures (k in l.ptes && m.ptes[k] == l.ptes[k])
                                  || ((p, k.1) in l.ptes && m.ptes[k] == l.ptes[(p, k.1)])
      {
        InheritMeans(l.ptes, p, c, k);
      }
    }
  }

  lemma {:induction false} UniformWrite(l: Lazy, kinds: nat -> Kind, k: Key, i: nat, b: char)
    requires Closed(l) && Uniform(l, kinds)
    ensures Uniform(LazyStep(l, Write(k, i, b)), kinds)
  {
    if k in l.ptes && i < PAGE_SIZE && l.ptes[k].kind == Shared {
      assert PrivateKeysOn(l.ptes, l.ptes[k].frame) == {};
    }
  }

  lemma {:induction false} StepKeepsUniform(l: Lazy, kinds: nat -> Kind, step: Step)
    requires Closed(l) && Uniform(l, kinds) && (step.MapFile? ==> step.kind == kinds(step.file))
    ensures Uniform(LazyStep(l, step), kinds)
  {
    match step
    case Fork(p, c) => UniformFork(l, kinds, p, c);
    case Write(k, i, b) => UniformWrite(l, kinds, k, i, b);
    case _ =>
  }

  lemma {:induction false} UniformNeverLeaks(l: Lazy, kinds: nat -> Kind, steps: seq<Step>)
    requires Inv(l) && Uniform(l, kinds)
    requires forall step | step in steps && step.MapFile? :: step.kind == kinds(step.file)
    ensures NeverLeaks(l, steps)
    decreases |steps|
  {
    if steps != [] {
      UniformDoesNotLeak(l, kinds, steps[0]);
      StepKeepsInv(l, steps[0]);
      StepKeepsUniform(l, kinds, steps[0]);
      UniformNeverLeaks(LazyStep(l, steps[0]), kinds, steps[1..]);
    }
  }

  /** On every kernel, a run that maps each file one way looks eager after every step. */
  lemma {:induction false} OneWayRunLooksEager(snapshot: bool, steps: seq<Step>)
    requires MapsOneWay(steps)
    ensures NeverLeaks(Boot(snapshot), steps)
    ensures forall n | 0 <= n <= |steps| :: SameViewAfter(Boot(snapshot), EagerBoot(), steps, n)
  {
    forall step | step in steps && step.MapFile? ensures step.kind == KindOf(steps, step.file) {
      var i :| 0 <= i < |steps| && steps[i] == step;
      KindOfMapping(steps, i);
    }
    UniformNeverLeaks(Boot(snapshot), (x: nat) => KindOf(steps, x), steps);
    EveryRunLooksEager(snapshot, steps);
  }
}
