/** The two recursive mutexes of the logger, taken by any number of threads through nested calls of
    the logging procedures. */
module LogLocks {

  datatype Mutex = LogState | VmxGuestLog

  /** The procedures that take the mutexes; `Holder` is a caller of the exported acquire and release. */
  datatype Proc = LogToHost | LogToGuest | LogWrapper | ConfigLogging | SetupVmx | TeardownVmx | Holder

  /** The source takes the log-state mutex first; the other order is what its comments warn of. */
  datatype Order = LogFirst | VmxFirst

  function Locks(p: Proc, order: Order): (r: seq<Mutex>) {
    if p in {LogToHost, SetupVmx, TeardownVmx}
    then (if order == LogFirst then [LogState, VmxGuestLog] else [VmxGuestLog, LogState])
    else [LogState]
  }

  datatype Phase = Acquiring | Running | Releasing

  /** One activation: it holds the first `held` of its procedure's mutexes. */
  datatype Frame = Frame(proc: Proc, held: nat, phase: Phase)

  type Stack = seq<Frame>

  type System = map<nat, Stack>

  predicate FrameOk(f: Frame, order: Order) {
    && f.held <= |Locks(f.proc, order)|
    && (f.phase == Acquiring ==> f.held < |Locks(f.proc, order)|)
    && (f.phase == Releasing ==> f.held > 0)
    && (f.phase == Running ==> f.held == |Locks(f.proc, order)|)
  }

  predicate StackOk(st: Stack, order: Order) {
    forall i :: 0 <= i < |st| ==> FrameOk(st[i], order)
  }

  predicate FrameHolds(f: Frame, m: Mutex, order: Order) {
    var locks := Locks(f.proc, order);
    exists k :: 0 <= k < f.held && k < |locks| && locks[k] == m
  }

  ghost predicate Holds(st: Stack, m: Mutex, order: Order) {
    exists i :: 0 <= i < |st| && FrameHolds(st[i], m, order)
  }

  predicate Wants(st: Stack, m: Mutex, order: Order) {
    && st != []
    && var f := st[|st| - 1];
       f.phase == Acquiring && f.held < |Locks(f.proc, order)| && Locks(f.proc, order)[f.held] == m
  }

  /** A recursive mutex is granted to a thread unless another thread holds it. */
  ghost predicate Free(s: System, t: nat, m: Mutex, order: Order) {
    forall u :: u in s && u != t ==> !Holds(s[u], m, order)
  }

  /** What a step may do to the topmost activation: take its next mutex, end its body, or give back
      the mutex it took last. */
  ghost predicate FrameStep(s: System, t: nat, f: Frame, f': Frame, order: Order) {
    var locks := Locks(f.proc, order);
    || (f.phase == Acquiring && f.held < |locks| && Free(s, t, locks[f.held], order)
        && f' == Frame(f.proc, f.held + 1, if f.held + 1 < |locks| then Acquiring else Running))
    || (f.phase == Running && f.held > 0 && f' == f.(phase := Releasing))
    || (f.phase == Releasing && f.held > 1 && f' == f.(held := f.held - 1))
  }

  /** One step of thread t: call a procedure, advance the topmost activation, or return from it. */
  ghost predicate ThreadStep(s: System, t: nat, st': Stack, order: Order)
    requires t in s
  {
    var st := s[t];
    if |st'| > |st| then
      && (st == [] || st[|st| - 1].phase == Running)
      && exists p :: st' == st + [Frame(p, 0, Acquiring)]
    else
      && st != []
      && var f, below := st[|st| - 1], st[..|st| - 1];
         if |st'| < |st| then f.phase == Releasing && f.held == 1 && st' == below
         else st' == below + [st'[|st'| - 1]] && FrameStep(s, t, f, st'[|st'| - 1], order)
  }

  ghost predicate Next(s: System, s': System, order: Order) {
    exists t, st' :: t in s && ThreadStep(s, t, st', order) && s' == s[t := st']
  }

  /** A run from a state in which no thread is inside the logger, in any interleaving. */
  ghost predicate Run(states: seq<System>, order: Order) {
    && states != []
    && (forall t :: t in states[0] ==> states[0][t] == [])
    && (forall i: nat :: i + 1 < |states| ==> Next(states[i], states[i + 1], order))
  }

  /** Well-formed stacks, and no mutex held by two threads. */
  ghost predicate Inv(s: System, order: Order) {
    && (forall t :: t in s ==> StackOk(s[t], order))
    && (forall t, u, m :: t in s && u in s && Holds(s[t], m, order) && Holds(s[u], m, order) ==> t == u)
  }

  lemma HoldsAppend(below: Stack, f: Frame, m: Mutex, order: Order)
    ensures Holds(below + [f], m, order) <==> Holds(below, m, order) || FrameHolds(f, m, order)
  {
    var st := below + [f];
    if Holds(below, m, order) {
      var i :| 0 <= i < |below| && FrameHolds(below[i], m, order);
      assert st[i] == below[i];
    }
    if FrameHolds(f, m, order) { assert st[|below|] == f; }
  }

  lemma FrameStepHolds(s: System, t: nat, f: Frame, f': Frame, m: Mutex, order: Order)
    requires FrameOk(f, order) && FrameStep(s, t, f, f', order) && FrameHolds(f', m, order)
    ensures FrameHolds(f, m, order) || Free(s, t, m, order)
    ensures FrameOk(f', order)
  {
    var locks := Locks(f.proc, order);
    var k :| 0 <= k < f'.held && k < |locks| && locks[k] == m;
    if k < f.held { assert FrameHolds(f, m, order); }
  }

  /** A step only adds a mutex that was free for the thread. */
  lemma StepHolds(s: System, t: nat, st': Stack, m: Mutex, order: Order)
    requires t in s && StackOk(s[t], order) && ThreadStep(s, t, st', order) && Holds(st', m, order)
    ensures Holds(s[t], m, order) || Free(s, t, m, order)
  {
    var st := s[t];
    if |st'| > |st| {
      var p :| st' == st + [Frame(p, 0, Acquiring)];
      HoldsAppend(st, Frame(p, 0, Acquiring), m, order);
    } else {
      var f, below := st[|st| - 1], st[..|st| - 1];
      assert st == below + [f];
      HoldsAppend(below, f, m, order);
      if |st'| == |st| {
        var f' := st'[|st'| - 1];
        HoldsAppend(below, f', m, order);
        if FrameHolds(f', m, order) { FrameStepHolds(s, t, f, f', m, order); }
      }
    }
  }

  lemma StepOk(s: System, t: nat, st': Stack, order: Order)
    requires t in s && StackOk(s[t], order) && ThreadStep(s, t, st', order)
    ensures StackOk(st', order)
  {
    var st := s[t];
    if |st'| > |st| {
      var p :| st' == st + [Frame(p, 0, Acquiring)];
    }
  }

  /** What the stepping thread holds afterwards, no other thread holds. */
  lemma StepExcludes(s: System, t: nat, st': Stack, u: nat, m: Mutex, order: Order)
    requires Inv(s, order) && t in s && u in s && u != t && ThreadStep(s, t, st', order)
    ensures !(Holds(st', m, order) && Holds(s[u], m, order))
  {
    if Holds(st', m, order) { StepHolds(s, t, st', m, order); }
  }

  lemma NextInv(s: System, s': System, order: Order)
    requires Inv(s, order) && Next(s, s', order)
    ensures Inv(s', order)
  {
    var t, st' :| t in s && ThreadStep(s, t, st', order) && s' == s[t := st'];
    StepOk(s, t, st', order);
    forall u, m | u in s && u != t ensures !(Holds(st', m, order) && Holds(s[u], m, order)) {
      StepExcludes(s, t, st', u, m, order);
    }
  }

  lemma {:induction false} RunInv(states: seq<System>, order: Order, i: nat)
    requires Run(states, order) && i < |states|
    ensures Inv(states[i], order)
  {
    if i > 0 {
      RunInv(states, order, i - 1);
      NextInv(states[i - 1], states[i], order);
    }
  }

  /** In every reachable state, in either order, whatever runs holds the log-state mutex, and whatever runs
      in the VMX guest logger, its setup or its teardown holds both. */
  lemma RunningHolds(states: seq<System>, order: Order, i: nat, t: nat, j: nat)
    requires Run(states, order) && i < |states| && t in states[i]
    requires j < |states[i][t]| && states[i][t][j].phase == Running
    ensures Holds(states[i][t], LogState, order)
    ensures states[i][t][j].proc in {LogToHost, SetupVmx, TeardownVmx} ==> Holds(states[i][t], VmxGuestLog, order)
  {
    RunInv(states, order, i);
    var f := states[i][t][j];
    var locks := Locks(f.proc, order);
    assert FrameOk(f, order);
    assert FrameHolds(f, locks[0], order) && FrameHolds(f, locks[|locks| - 1], order);
  }

  /** So no two threads are ever inside the logger at the same time. */
  lemma OneInside(states: seq<System>, order: Order, i: nat, t: nat, j: nat, u: nat, k: nat)
    requires Run(states, order) && i < |states| && t in states[i] && u in states[i]
    requires j < |states[i][t]| && states[i][t][j].phase == Running
    requires k < |states[i][u]| && states[i][u][k].phase == Running
    ensures t == u
  {
    RunningHolds(states, order, i, t, j);
    RunningHolds(states, order, i, u, k);
    RunInv(states, order, i);
  }

  // ---- waiting ----

  /** Thread t waits for a mutex that thread u holds. */
  ghost predicate WaitsFor(s: System, t: nat, u: nat, order: Order) {
    t in s && u in s && t != u && exists m :: Wants(s[t], m, order) && Holds(s[u], m, order)
  }

  ghost predicate Blocked(s: System, t: nat, order: Order) {
    exists u :: WaitsFor(s, t, u, order)
  }

  /** A set of threads each of which waits for another one of the set. */
  ghost predicate Deadlocked(s: System, ts: set<nat>, order: Order) {
    ts != {} && forall t :: t in ts ==> exists u :: u in ts && WaitsFor(s, t, u, order)
  }

  /** In the source's order, whoever holds the VMX mutex holds the log-state mutex. */
  lemma VmxImpliesLogState(st: Stack)
    requires Holds(st, VmxGuestLog, LogFirst)
    ensures Holds(st, LogState, LogFirst)
  {
    var i :| 0 <= i < |st| && FrameHolds(st[i], VmxGuestLog, LogFirst);
    assert Locks(st[i].proc, LogFirst)[0] == LogState;
    assert FrameHolds(st[i], LogState, LogFirst);
  }

  /** In every reachable state of every interleaving, a thread that others wait for is not itself
      waiting; so waiting never closes into a cycle. */
  lemma HolderRuns(states: seq<System>, i: nat, t: nat, u: nat)
    requires Run(states, LogFirst) && i < |states| && WaitsFor(states[i], t, u, LogFirst)
    ensures !Blocked(states[i], u, LogFirst)
  {
    var s := states[i];
    RunInv(states, LogFirst, i);
    var m :| Wants(s[t], m, LogFirst) && Holds(s[u], m, LogFirst);
    if m == VmxGuestLog { VmxImpliesLogState(s[u]); }
    forall w | w in s && w != u ensures !WaitsFor(s, u, w, LogFirst) {
      forall m' | Holds(s[w], m', LogFirst) ensures false {
        if m' == VmxGuestLog { VmxImpliesLogState(s[w]); }
      }
    }
  }

  /** No set of threads in a reachable state is deadlocked. */
  lemma NoDeadlock(states: seq<System>, i: nat, ts: set<nat>)
    requires Run(states, LogFirst) && i < |states|
    ensures !Deadlocked(states[i], ts, LogFirst)
  {
    var s := states[i];
    forall t, u | WaitsFor(s, t, u, LogFirst) ensures !Blocked(s, u, LogFirst) {
      HolderRuns(states, i, t, u);
    }
    NoCycle(s, ts, LogFirst);
  }

  lemma NoCycle(s: System, ts: set<nat>, order: Order)
    requires forall t, u :: WaitsFor(s, t, u, order) ==> !Blocked(s, u, order)
    ensures !Deadlocked(s, ts, order)
  {
    if t :| t in ts {
      if u :| u in ts && WaitsFor(s, t, u, order) {
        assert forall w :: !WaitsFor(s, u, w, order);
      }
    }
  }

  // ---- the order matters ----

  lemma CallNext(s: System, t: nat, p: Proc, order: Order)
    requires t in s && (s[t] == [] || s[t][|s[t]| - 1].phase == Running)
    ensures Next(s, s[t := s[t] + [Frame(p, 0, Acquiring)]], order)
  {
    assert ThreadStep(s, t, s[t] + [Frame(p, 0, Acquiring)], order);
  }

  lemma TakeNext(s: System, t: nat, f: Frame, f': Frame, order: Order)
    requires t in s && s[t] == [f] && FrameStep(s, t, f, f', order)
    ensures Next(s, s[t := [f']], order)
  {
    assert ThreadStep(s, t, [f'], order);
  }

  lemma SingleHolds(f: Frame, m: Mutex, order: Order)
    ensures Holds([f], m, order) <==> FrameHolds(f, m, order)
  {
    HoldsAppend([], f, m, order);
    assert [] + [f] == [f];
  }

  lemma RunSnoc(states: seq<System>, s: System, order: Order)
    requires Run(states, order) && Next(states[|states| - 1], s, order)
    ensures Run(states + [s], order)
  {
    var more := states + [s];
    forall i: nat | i + 1 < |more| ensures Next(more[i], more[i + 1], order) {
      if i + 1 < |states| { assert Next(states[i], states[i + 1], order); }
    }
  }

  /** With the VMX mutex taken first, one thread logging to the host and one calling the log wrapper,
      which logs to the host in turn, can come to wait for each other. */
  lemma ReversedOrderDeadlocks() returns (states: seq<System>)
    ensures Run(states, VmxFirst) && Deadlocked(states[|states| - 1], {0, 1}, VmxFirst)
  {
    var host0, host1 := Frame(LogToHost, 0, Acquiring), Frame(LogToHost, 1, Acquiring);
    var wrap0, wrap1 := Frame(LogWrapper, 0, Acquiring), Frame(LogWrapper, 1, Running);
    var s: System := map[0 := [], 1 := []];
    states := [s];
    states := Calls(states, s, 0, LogToHost);
    s := s[0 := s[0] + [host0]];
    assert s[0] == [host0];
    states := Takes(states, s, 0, host0, host1);
    s := s[0 := [host1]];
    states := Calls(states, s, 1, LogWrapper);
    s := s[1 := s[1] + [wrap0]];
    assert s[1] == [wrap0];
    SingleHolds(host1, LogState, VmxFirst);
    states := Takes(states, s, 1, wrap0, wrap1);
    s := s[1 := [wrap1]];
    states := Calls(states, s, 1, LogToHost);
    s := s[1 := s[1] + [host0]];
    EachWaits(s, host0, host1, wrap1);
  }

  lemma Calls(states: seq<System>, s: System, t: nat, p: Proc) returns (more: seq<System>)
    requires Run(states, VmxFirst) && states[|states| - 1] == s && t in s
             && (s[t] == [] || s[t][|s[t]| - 1].phase == Running)
    ensures Run(more, VmxFirst) && more[|more| - 1] == s[t := s[t] + [Frame(p, 0, Acquiring)]]
  {
    CallNext(s, t, p, VmxFirst);
    more := states + [s[t := s[t] + [Frame(p, 0, Acquiring)]]];
    RunSnoc(states, more[|more| - 1], VmxFirst);
  }

  lemma Takes(states: seq<System>, s: System, t: nat, f: Frame, f': Frame) returns (more: seq<System>)
    requires Run(states, VmxFirst) && states[|states| - 1] == s && t in s && s[t] == [f]
             && FrameStep(s, t, f, f', VmxFirst)
    ensures Run(more, VmxFirst) && more[|more| - 1] == s[t := [f']]
  {
    TakeNext(s, t, f, f', VmxFirst);
    more := states + [s[t := [f']]];
    RunSnoc(states, more[|more| - 1], VmxFirst);
  }

  lemma EachWaits(s: System, host0: Frame, host1: Frame, wrap1: Frame)
    requires host0 == Frame(LogToHost, 0, Acquiring) && host1 == Frame(LogToHost, 1, Acquiring)
             && wrap1 == Frame(LogWrapper, 1, Running)
    requires 0 in s && 1 in s && s[0] == [host1] && s[1] == [wrap1, host0]
    ensures Deadlocked(s, {0, 1}, VmxFirst)
  {
    assert Locks(LogWrapper, VmxFirst)[0] == LogState && Locks(LogToHost, VmxFirst)[0] == VmxGuestLog;
    assert FrameHolds(s[1][0], LogState, VmxFirst) && FrameHolds(s[0][0], VmxGuestLog, VmxFirst);
    assert Wants(s[0], LogState, VmxFirst) && Wants(s[1], VmxGuestLog, VmxFirst);
    assert WaitsFor(s, 0, 1, VmxFirst) && WaitsFor(s, 1, 0, VmxFirst);
  }
}
