/**
 * Swap-chain processor ownership in the indirect display driver: the OS thread that assigns and unassigns
 * swap-chains, interleaved with one worker thread per processor. Every swap-chain handed to the driver
 * is numbered in order, and a processor goes by the number of its swap-chain.
 */
module SwapChain {
  import opened Options

  /** A worker thread: in its buffer loop, past it, past WdfObjectDelete, ended. */
  datatype Worker = Looping | Leaving | Deleted | Ended

  datatype After = ThenInit(chain: nat) | ThenReturn | ThenGone

  /** The OS thread: outside the driver, inside `m_ProcessingThread.reset()`, creating the device, context destroyed. */
  datatype Caller = Idle | Resetting(after: After) | Initialising(chain: nat) | Gone

  /** `failed` and `threadless` are history: chains whose device or worker thread could not be created. */
  datatype State = State(
    caller: Caller, current: Option<nat>, workers: map<nat, Worker>, deleted: seq<nat>,
    handed: nat, failed: set<nat>, threadless: set<nat>)

  const INIT := State(Idle, None, map[], [], 0, {}, {})

  datatype Step =
    | Assign | Unassign | Destroy          // the OS calls into the driver
    | WaitReturns                          // the destructor's wait for the worker ends
    | DeviceFails | DeviceOk(threadOk: bool)
    | Leave(id: nat) | Delete(id: nat) | End(id: nat)  // a worker moves

  /** WaitForSingleObject returns when the worker has ended; without a thread there is no wait. */
  predicate CanReturn(s: State) {
    s.current.Some? && s.current.value in s.workers ==> s.workers[s.current.value] == Ended
  }

  function Next(s: State, step: Step): State {
    match step
    case Assign =>
      if s.caller == Idle then s.(caller := Resetting(ThenInit(s.handed)), handed := s.handed + 1) else s
    case Unassign => if s.caller == Idle then s.(caller := Resetting(ThenReturn)) else s
    case Destroy => if s.caller == Idle then s.(caller := Resetting(ThenGone)) else s
    case WaitReturns =>
      if s.caller.Resetting? && CanReturn(s) then
        s.(current := None,
           caller := match s.caller.after
                     case ThenInit(c) => Initialising(c)
                     case ThenReturn => Idle
                     case ThenGone => Gone)
      else s
    case DeviceFails =>
      if s.caller.Initialising? then
        s.(caller := Idle, deleted := s.deleted + [s.caller.chain], failed := s.failed + {s.caller.chain})
      else s
    case DeviceOk(threadOk) =>
      if s.caller.Initialising? then
        var c := s.caller.chain;
        if threadOk then s.(caller := Idle, current := Some(c), workers := s.workers[c := Looping])
        else s.(caller := Idle, current := Some(c), threadless := s.threadless + {c})
      else s
    case Leave(id) =>
      if id in s.workers && s.workers[id] == Looping then s.(workers := s.workers[id := Leaving]) else s
    case Delete(id) =>
      if id in s.workers && s.workers[id] == Leaving then
        s.(workers := s.workers[id := Worker.Deleted], deleted := s.deleted + [id])
      else s
    case End(id) =>
      if id in s.workers && s.workers[id] == Worker.Deleted then s.(workers := s.workers[id := Ended]) else s
  }

  function Run(s: State, steps: seq<Step>): State
    decreases |steps|
  {
    if steps == [] then s else Run(Next(s, steps[0]), steps[1..])
  }

  // ---------------------------------------------------------------- the invariant

  function Pending(s: State): Option<nat> {
    match s.caller
    case Resetting(ThenInit(c)) => Some(c)
    case Initialising(c) => Some(c)
    case _ => None
  }

  predicate Settled(s: State, id: nat) {
    id in s.workers || id in s.failed || id in s.threadless
  }

  /** A chain is pending, processed, lost without a thread, or failed; never two of these. */
  ghost predicate Placed(s: State) {
    && s.workers.Keys !! s.failed && s.workers.Keys !! s.threadless && s.failed !! s.threadless
    && (forall id: nat :: Settled(s, id) ==> id < s.handed && Pending(s) != Some(id))
    && (Pending(s).Some? ==> Pending(s).value < s.handed)
    && (forall id: nat :: id < s.handed ==> Settled(s, id) || Pending(s) == Some(id))
  }

  ghost predicate DeletedOnce(s: State) {
    && (forall j, k :: 0 <= j < k < |s.deleted| ==> s.deleted[j] != s.deleted[k])
    && (forall id :: id in s.deleted <==>
          id in s.failed || (id in s.workers && s.workers[id] in {Worker.Deleted, Ended}))
  }

  /** Only the monitor's current processor may still run. */
  ghost predicate Single(s: State) {
    && (forall id :: id in s.workers && s.workers[id] != Ended ==> s.current == Some(id))
    && (s.current.Some? ==> s.current.value in s.workers || s.current.value in s.threadless)
    && (s.caller.Initialising? || s.caller == Gone ==> s.current == None)
  }

  ghost predicate Inv(s: State) {
    Placed(s) && DeletedOnce(s) && Single(s)
  }

  lemma NextKeepsInv(s: State, step: Step)
    requires Inv(s)
    ensures Inv(Next(s, step))
  {
    var t := Next(s, step);
    assert Placed(t) by { NextPlaced(s, step); }
    assert DeletedOnce(t) by { NextDeletedOnce(s, step); }
  }

  lemma NextPlaced(s: State, step: Step)
    requires Placed(s)
    ensures Placed(Next(s, step))
  {
    var t := Next(s, step);
    assert forall id: nat :: Settled(s, id) ==> Settled(t, id);
    assert forall id: nat :: Settled(t, id) ==> Settled(s, id) || Pending(s) == Some(id);
  }

  lemma NextDeletedOnce(s: State, step: Step)
    requires Placed(s) && DeletedOnce(s)
    ensures DeletedOnce(Next(s, step))
  {
  }

  lemma {:induction false} RunKeepsInv(s: State, steps: seq<Step>)
    requires Inv(s)
    ensures Inv(Run(s, steps))
    decreases |steps|
  {
    if steps != [] {
      NextKeepsInv(s, steps[0]);
      RunKeepsInv(Next(s, steps[0]), steps[1..]);
    }
  }

  // ---------------------------------------------------------------- what it means

  /**
   * In every interleaving: at most one processor is live, every processor but the current one has ended
   * with its swap-chain deleted, no swap-chain is deleted twice, and one whose device failed is deleted.
   */
  lemma InterleavingsAreSafe(steps: seq<Step>)
    ensures var s := Run(INIT, steps);
            && (forall a, b :: a in s.workers && b in s.workers && s.workers[a] != Ended && s.workers[b] != Ended ==> a == b)
            && (forall a :: a in s.workers && s.current != Some(a) ==> s.workers[a] == Ended && a in s.deleted)
            && (forall j, k :: 0 <= j < k < |s.deleted| ==> s.deleted[j] != s.deleted[k])
            && (forall a :: a in s.failed ==> a in s.deleted)
  {
    RunKeepsInv(INIT, steps);
  }

  lemma SettledMeansDeleted(s: State, id: nat)
    requires Inv(s) && s.current == None && id < s.handed && Pending(s) != Some(id)
    ensures id in s.deleted <==> id !in s.threadless
  {
  }

  /** A new processor starts only after the swap-chain of every earlier one is deleted, unless that one had no thread. */
  lemma DeletedBeforeNextStarts(steps: seq<Step>)
    ensures var s := Run(INIT, steps);
            s.caller.Initialising? ==>
              forall id: nat :: id < s.handed && id != s.caller.chain ==> (id in s.deleted <==> id !in s.threadless)
  {
    RunKeepsInv(INIT, steps);
    var s := Run(INIT, steps);
    if s.caller.Initialising? {
      forall id: nat | id < s.handed && id != s.caller.chain ensures id in s.deleted <==> id !in s.threadless {
        SettledMeansDeleted(s, id);
      }
    }
  }

  /**
   * Once the driver holds no processor and no call is in progress, a swap-chain handed over has been
   * deleted exactly when its worker thread could be created (or its device could not).
   */
  lemma DeletedExactlyUnlessThreadless(steps: seq<Step>)
    ensures var s := Run(INIT, steps);
            s.current == None && s.caller in {Idle, Gone} ==>
              forall id: nat :: id < s.handed ==> (id in s.deleted <==> id !in s.threadless)
  {
    RunKeepsInv(INIT, steps);
    var s := Run(INIT, steps);
    if s.current == None && s.caller in {Idle, Gone} {
      forall id: nat | id < s.handed ensures id in s.deleted <==> id !in s.threadless {
        SettledMeansDeleted(s, id);
      }
    }
  }

  /** Without a thread the destructor does not wait and the swap-chain is never deleted. */
  lemma ThreadlessChainIsKept()
    ensures var s := Run(INIT, [Assign, WaitReturns, DeviceOk(false), Unassign, WaitReturns]);
            s.caller == Idle && s.current == None && s.handed == 1 && s.deleted == []
  {
  }

  // ---------------------------------------------------------------- what the calls achieve

  /** Everything but a new call of the OS. */
  predicate Background(step: Step) {
    step !in {Assign, Unassign, Destroy}
  }

  predicate AllBackground(steps: seq<Step>) {
    forall k :: 0 <= k < |steps| ==> Background(steps[k])
  }

  /** The driver holds no processor and every worker has ended. */
  ghost predicate Released(s: State) {
    s.caller in {Idle, Gone} && s.current == None && forall id :: id in s.workers ==> s.workers[id] == Ended
  }

  lemma {:induction false} ReleasedStays(s: State, steps: seq<Step>)
    requires Released(s) && AllBackground(steps)
    ensures Run(s, steps) == s
    decreases |steps|
  {
    if steps != [] {
      assert Background(steps[0]);
      assert Next(s, steps[0]) == s;
      ReleasedStays(s, steps[1..]);
    }
  }

  /** A reset either still waits for the current processor or has released it. */
  lemma {:induction false} ResetReleases(s: State, after: After, steps: seq<Step>)
    requires Inv(s) && s.caller == Resetting(after) && !after.ThenInit? && AllBackground(steps)
    ensures var t := Run(s, steps);
            || (t.caller == s.caller && t.current == s.current)
            || (Released(t) && t.caller == (if after == ThenGone then Gone else Idle) && t.handed == s.handed)
    decreases |steps|
  {
    if steps != [] {
      var next := Next(s, steps[0]);
      assert Background(steps[0]);
      NextKeepsInv(s, steps[0]);
      if next.caller == s.caller {
        ResetReleases(next, after, steps[1..]);
      } else {
        assert Released(next);
        ReleasedStays(next, steps[1..]);
      }
    }
  }

  /** Unassigning and destroying release the processor, in every interleaving, by the time the call returns. */
  lemma UnassignReleases(before: seq<Step>, steps: seq<Step>)
    requires Run(INIT, before).caller == Idle && AllBackground(steps)
    ensures var t := Run(Next(Run(INIT, before), Unassign), steps);
            t.caller == Resetting(ThenReturn) || (t.caller == Idle && Released(t))
    ensures var t := Run(Next(Run(INIT, before), Destroy), steps);
            t.caller == Resetting(ThenGone) || (t.caller == Gone && Released(t))
  {
    var s := Run(INIT, before);
    RunKeepsInv(INIT, before);
    NextKeepsInv(s, Unassign);
    NextKeepsInv(s, Destroy);
    ResetReleases(Next(s, Unassign), ThenReturn, steps);
    ResetReleases(Next(s, Destroy), ThenGone, steps);
  }

  /** Chain `c` has been dealt with: it has the current processor, or its device failed and it is deleted. */
  ghost predicate Installed(s: State, c: nat) {
    && s.caller == Idle
    && if c in s.failed then c in s.deleted && s.current == None
       else s.current == Some(c) && (c in s.workers || c in s.threadless)
  }

  ghost predicate Installing(s: State, c: nat) {
    s.caller == Resetting(ThenInit(c)) || s.caller == Initialising(c) || Installed(s, c)
  }

  lemma InstallStep(s: State, c: nat, step: Step)
    requires Inv(s) && Installing(s, c) && Background(step)
    ensures Installing(Next(s, step), c)
  {
    if s.caller == Initialising(c) {
      assert Pending(s) == Some(c);
      assert !Settled(s, c);
    }
  }

  lemma {:induction false} InstallRun(s: State, c: nat, steps: seq<Step>)
    requires Inv(s) && Installing(s, c) && AllBackground(steps)
    ensures Installing(Run(s, steps), c)
    decreases |steps|
  {
    if steps != [] {
      assert Background(steps[0]);
      InstallStep(s, c, steps[0]);
      NextKeepsInv(s, steps[0]);
      InstallRun(Next(s, steps[0]), c, steps[1..]);
    }
  }

  /** An assigned chain gets the processor, or is deleted when its device fails, by the time the call returns. */
  lemma AssignInstalls(before: seq<Step>, steps: seq<Step>)
    requires Run(INIT, before).caller == Idle && AllBackground(steps)
    ensures var s := Run(INIT, before);
            var t := Run(Next(s, Assign), steps);
            t.caller == Idle ==> Installed(t, s.handed)
  {
    var s := Run(INIT, before);
    RunKeepsInv(INIT, before);
    NextKeepsInv(s, Assign);
    InstallRun(Next(s, Assign), s.handed, steps);
  }

  /** A waiting reset can always complete: the worker leaves its loop, deletes the chain and ends. */
  lemma ResetCanComplete(s: State, id: nat)
    requires Inv(s) && s.caller.Resetting? && s.current == Some(id) && id in s.workers && s.workers[id] == Looping
    ensures var t := Next(Next(Next(Next(s, Leave(id)), Delete(id)), End(id)), WaitReturns);
            t.current == None && id in t.deleted && !t.caller.Resetting?
  {
  }
}
