/** Clearing the HTTP cache: the remover runs, then every storage partition gets a new network context
    (src/core/profile_io_data_qt.cpp:48-172). */
module CacheClearing {
  import opened Wrappers

  datatype Phase = Completed | Removing | Resetting

  /** The state, the loaded partitions, those whose context this object still observes, whether the
      remover is observed, and the clears accepted, announced as complete and given up at shutdown. */
  datatype Cache = Cache(
    phase: Phase,
    loaded: set<nat>,
    awaiting: set<nat>,
    observed: bool,
    accepted: nat,
    broadcasts: nat,
    givenUp: nat)

  const INITIAL: Cache := Cache(Completed, {}, {}, false, 0, 0, 0)

  function ClearHttpCache(c: Cache): Cache {
    if c.phase != Completed then c else c.(phase := Removing, observed := true, accepted := c.accepted + 1)
  }

  function ResetNetworkContext(c: Cache): Cache {
    c.(awaiting := c.awaiting + c.loaded)
  }

  function RemoverDone(c: Cache): Cache {
    ResetNetworkContext(c.(observed := false, phase := Resetting))
  }

  function ContextCreated(c: Cache, partition: nat): Cache {
    var c1 := c.(awaiting := c.awaiting - {partition});
    if c.phase != Resetting || c1.awaiting * c1.loaded != {} then c1
    else c1.(phase := Completed, broadcasts := c.broadcasts + 1)
  }

  function Shutdown(c: Cache): Cache {
    if c.phase != Removing then c else c.(phase := Completed, observed := false, givenUp := c.givenUp + 1)
  }

  class ProfileIOData {
    var clearHttpCacheState: Phase
    /** The storage partitions loaded, and those that have this object as their context observer. */
    var loaded: set<nat>
    var contextObserved: set<nat>
    var removerObserved: bool
    ghost var accepted: nat
    var broadcasts: nat
    ghost var givenUp: nat

    ghost function State(): Cache
      reads this
    {
      Cache(clearHttpCacheState, loaded, contextObserved, removerObserved, accepted, broadcasts, givenUp)
    }

    constructor ()
      ensures State() == INITIAL
    {
      clearHttpCacheState, loaded, contextObserved, removerObserved := Completed, {}, {}, false;
      accepted, broadcasts, givenUp := 0, 0, 0;
    }

    method Clear()
      modifies this
      ensures State() == ClearHttpCache(old(State()))
    {
      if clearHttpCacheState == Completed {
        clearHttpCacheState := Removing;
        accepted := accepted + 1;
        removerObserved := true;
      }
    }

    /** The remover tells its observers; the assertion of line 116 holds by the invariant. */
    method OnBrowsingDataRemoverDone()
      requires Inv(State()) && removerObserved
      modifies this
      ensures State() == RemoverDone(old(State())) && Inv(State())
    {
      assert clearHttpCacheState == Removing;
      removerObserved := false;
      clearHttpCacheState := Resetting;
      ResetContexts();
    }

    /** Not while the remover runs (line 139). */
    method ResetContexts()
      requires clearHttpCacheState != Removing
      modifies this`contextObserved
      ensures State() == ResetNetworkContext(old(State()))
    {
      var left := loaded;
      while left != {}
        invariant left <= loaded && contextObserved + left == old(contextObserved) + loaded
        decreases left
      {
        var storage := Next(left);
        contextObserved := contextObserved + {storage};
        left := left - {storage};
      }
    }

    method OnNetworkContextCreated(storage: nat)
      modifies this
      ensures State() == ContextCreated(old(State()), storage)
    {
      contextObserved := contextObserved - {storage};
      if clearHttpCacheState != Resetting { return; }
      var pendingReset := false;
      ghost var before := State();
      var left := loaded;
      while left != {}
        invariant left <= loaded && State() == before
        invariant pendingReset <==> (loaded - left) * contextObserved != {}
        decreases left
      {
        var p := Next(left);
        assert (loaded - (left - {p})) * contextObserved
            == (loaded - left) * contextObserved + (if p in contextObserved then {p} else {});
        if p in contextObserved { pendingReset := true; }
        left := left - {p};
      }
      assert (loaded - left) * contextObserved == contextObserved * loaded;
      if pendingReset { return; }
      clearHttpCacheState := Completed;
      broadcasts := broadcasts + 1;
    }

    method ShutdownOnUIThread()
      modifies this
      ensures State() == Shutdown(old(State()))
    {
      if clearHttpCacheState == Removing {
        clearHttpCacheState := Completed;
        givenUp := givenUp + 1;
        removerObserved := false;
      }
    }
  }

  // ---- every run ----

  datatype Step =
    | ClearAsked
    | Removed
    | Created(partition: nat)
    | ContextsReset
    | Loaded(partition: nat)
    | Unloaded(partition: nat)
    | ShutDown

  /** The remover calls its observers only, a partition tells the observer it has, and the profile
      resets contexts only when no clear is in progress. */
  predicate Enabled(c: Cache, step: Step) {
    match step
    case Removed => c.observed
    case Created(p) => p in c.awaiting
    case ContextsReset => c.phase == Completed
    case _ => true
  }

  function Apply(c: Cache, step: Step): Cache {
    match step
    case ClearAsked => ClearHttpCache(c)
    case Removed => RemoverDone(c)
    case Created(p) => ContextCreated(c, p)
    case ContextsReset => ResetNetworkContext(c)
    case Loaded(p) => c.(loaded := c.loaded + {p})
    case Unloaded(p) => c.(loaded := c.loaded - {p}, awaiting := c.awaiting - {p})
    case ShutDown => Shutdown(c)
  }

  ghost predicate ValidRun(c: Cache, steps: seq<Step>)
    decreases |steps|
  {
    steps == [] || (Enabled(c, steps[0]) && ValidRun(Apply(c, steps[0]), steps[1..]))
  }

  function Run(c: Cache, steps: seq<Step>): Cache
    decreases |steps|
  {
    if steps == [] then c else Run(Apply(c, steps[0]), steps[1..])
  }

  /** The remover is observed exactly while it runs for a clear; and every clear accepted has been
      announced, was given up at shutdown, or is in progress. */
  ghost predicate Inv(c: Cache) {
    && (c.observed <==> c.phase == Removing)
    && c.awaiting <= c.loaded
    && c.accepted == c.broadcasts + c.givenUp + if c.phase == Completed then 0 else 1
  }

  lemma {:induction false} RunKeepsInv(c: Cache, steps: seq<Step>)
    requires Inv(c) && ValidRun(c, steps)
    ensures Inv(Run(c, steps))
    decreases |steps|
  {
    if steps != [] {
      RunKeepsInv(Apply(c, steps[0]), steps[1..]);
    }
  }

  lemma EveryClearAccounted(steps: seq<Step>)
    requires ValidRun(INITIAL, steps)
    ensures Inv(Run(INITIAL, steps))
  {
    RunKeepsInv(INITIAL, steps);
  }

  /** A clear is accepted exactly if none is in progress, and then the remover runs for it; a second one asked for
      meanwhile changes nothing. */
  lemma AcceptedExactlyWhen(c: Cache)
    requires Inv(c)
    ensures var c' := ClearHttpCache(c);
            && (c'.accepted == c.accepted + 1 <==> c.phase == Completed)
            && (c.phase != Completed ==> c' == c)
            && (c.phase == Completed ==> c'.phase == Removing && c'.observed)
            && ClearHttpCache(c') == c'
  {
  }

  /** Shutting down leaves no remover behind: a clear whose remover still runs is given up without being announced,
      and one that resets the contexts goes on. */
  lemma ShutdownGivesUp(c: Cache)
    requires Inv(c)
    ensures var c' := Shutdown(c);
            && !c'.observed && c'.broadcasts == c.broadcasts && c'.awaiting == c.awaiting
            && c'.givenUp == c.givenUp + (if c.phase == Removing then 1 else 0)
            && (c'.phase == Resetting <==> c.phase == Resetting)
  {
  }

  /** Resetting the contexts, for a clear or on its own, awaits every loaded partition, and only these. */
  lemma ResetAwaitsLoaded(c: Cache)
    requires Inv(c)
    ensures ResetNetworkContext(c).awaiting == c.loaded && RemoverDone(c).awaiting == c.loaded
    ensures RemoverDone(c).phase == Resetting && !RemoverDone(c).observed
  {
  }

  /** A clear is announced only when no loaded partition waits for a context. */
  lemma AnnouncedWhenNoneAwaits(c: Cache, step: Step)
    requires Inv(c) && Enabled(c, step)
    ensures Apply(c, step).broadcasts != c.broadcasts ==> Apply(c, step).awaiting == {}
  {
  }

  /** The contexts are created for these partitions, one after the other. */
  function AllCreated(partitions: seq<nat>): (r: seq<Step>)
    ensures |r| == |partitions| && forall i :: 0 <= i < |r| ==> r[i] == Created(partitions[i])
  {
    seq(|partitions|, i requires 0 <= i < |partitions| => Created(partitions[i]))
  }

  /** Once the remover is done, creating the contexts of the loaded partitions in any order completes
      the clear, exactly with the last one. */
  lemma {:induction false} CreatingAllCompletes(c: Cache, partitions: seq<nat>)
    requires Inv(c) && c.phase == Resetting && partitions != []
    requires c.awaiting == (set p | p in partitions)
    requires forall i, j :: 0 <= i < j < |partitions| ==> partitions[i] != partitions[j]
    ensures var steps := AllCreated(partitions);
            && ValidRun(c, steps)
            && Run(c, steps).phase == Completed && Run(c, steps).broadcasts == c.broadcasts + 1
    decreases |partitions|
  {
    var p, rest := partitions[0], partitions[1..];
    var next := Apply(c, Created(p));
    assert AllCreated(partitions)[1..] == AllCreated(rest);
    assert p in c.awaiting;
    assert forall i :: 0 <= i < |rest| ==> rest[i] == partitions[i + 1];
    assert next.awaiting == (set q | q in rest) by {
      forall q | q in partitions && q != p ensures q in rest {
        var i :| 0 <= i < |partitions| && partitions[i] == q;
        assert rest[i - 1] == q;
      }
    }
    assert next.awaiting * next.loaded == next.awaiting;
    if rest == [] {
      assert AllCreated(rest) == [];
    } else {
      assert rest[0] in next.awaiting;
      CreatingAllCompletes(next, rest);
    }
  }

  /** While a clear resets the contexts and no partition is awaited, nothing ends it and no
      other clear is accepted: it takes a loaded partition when the remover is done. */
  lemma {:induction false} StuckWithoutPartition(c: Cache, steps: seq<Step>)
    requires Inv(c) && c.phase == Resetting && c.awaiting == {} && ValidRun(c, steps)
    ensures Run(c, steps).phase == Resetting && Run(c, steps).accepted == c.accepted
         && Run(c, steps).broadcasts == c.broadcasts
    decreases |steps|
  {
    if steps != [] {
      StuckWithoutPartition(Apply(c, steps[0]), steps[1..]);
    }
  }

  // ---- when a clear completes ----

  /** Some run from here completes the clear. */
  ghost predicate CanComplete(c: Cache) {
    exists steps :: ValidRun(c, steps) && Run(c, steps).phase == Completed
  }

  lemma {:induction false} Elements(s: set<nat>) returns (r: seq<nat>)
    ensures s == (set p | p in r) && forall i, j :: 0 <= i < j < |r| ==> r[i] != r[j]
    decreases s
  {
    if s == {} { return []; }
    var p := Pick(s);
    var rest := Elements(s - {p});
    r := [p] + rest;
    assert forall q :: q in r <==> q == p || q in rest;
    assert forall q :: q in s <==> q == p || q in s - {p};
  }

  /** A clear that resets the contexts can complete exactly while a partition is awaited. */
  lemma CompletesExactlyWhen(c: Cache)
    requires Inv(c) && c.phase == Resetting
    ensures CanComplete(c) <==> c.awaiting != {}
  {
    if c.awaiting == {} {
      forall steps | ValidRun(c, steps) ensures Run(c, steps).phase != Completed {
        StuckWithoutPartition(c, steps);
      }
    } else {
      var partitions := Elements(c.awaiting);
      assert partitions != [];
      CreatingAllCompletes(c, partitions);
    }
  }

  /** When the remover is done that is so exactly if a partition is loaded. */
  lemma NeedsPartition(c: Cache)
    requires Inv(c) && c.observed
    ensures CanComplete(RemoverDone(c)) <==> c.loaded != {}
  {
    assert RemoverDone(c).awaiting == c.loaded;
    CompletesExactlyWhen(RemoverDone(c));
  }

  ghost predicate Stuck(c: Cache) {
    c.phase == Resetting && c.awaiting == {}
  }

  /** The remover is done while no partition is loaded, or the last awaited partition is unloaded. */
  predicate Strands(c: Cache, step: Step) {
    || (step.Removed? && c.loaded == {})
    || (step.Unloaded? && c.phase == Resetting && c.awaiting == {step.partition})
  }

  predicate EverStrands(c: Cache, steps: seq<Step>)
    decreases |steps|
  {
    steps != [] && (Strands(c, steps[0]) || EverStrands(Apply(c, steps[0]), steps[1..]))
  }

  lemma StuckAfterStep(c: Cache, step: Step)
    requires Inv(c) && Enabled(c, step) && !Stuck(c)
    ensures Stuck(Apply(c, step)) <==> Strands(c, step)
  {
    match step
    case Removed => assert RemoverDone(c).awaiting == c.loaded;
    case Unloaded(p) =>
      if c.awaiting - {p} == {} && c.awaiting != {} { assert c.awaiting == {p}; }
    case Created(p) =>
      assert (c.awaiting - {p}) * c.loaded == c.awaiting - {p};
    case _ =>
  }

  lemma {:induction false} StaysStuck(c: Cache, steps: seq<Step>)
    requires Inv(c) && Stuck(c) && ValidRun(c, steps)
    ensures Stuck(Run(c, steps))
    decreases |steps|
  {
    if steps != [] { StaysStuck(Apply(c, steps[0]), steps[1..]); }
  }

  /** Over every run: a clear is stuck for good exactly if the remover was done while no partition was
      loaded, or the last partition awaited was unloaded. */
  lemma {:induction false} StuckExactlyWhen(c: Cache, steps: seq<Step>)
    requires Inv(c) && !Stuck(c) && ValidRun(c, steps)
    ensures Stuck(Run(c, steps)) <==> EverStrands(c, steps)
    decreases |steps|
  {
    if steps != [] {
      var next := Apply(c, steps[0]);
      StuckAfterStep(c, steps[0]);
      RunKeepsInv(c, [steps[0]]);
      assert [steps[0]][1..] == [] && Run(c, [steps[0]]) == Run(next, []) == next;
      if Stuck(next) {
        StaysStuck(next, steps[1..]);
      } else {
        StuckExactlyWhen(next, steps[1..]);
      }
    }
  }
}
