/** The tools logger on one thread: the guard flags that stop log calls made while logging, and the
    VMX guest logger that sends messages over an RPC channel and degrades when sending fails. */
module ToolsLog {
  import opened Basics

  datatype Level = Error | Critical | Warning | Message | Info | Debug

  datatype Mode = Off | Text | Fallback

  function ModeRank(m: Mode): (r: nat) {
    match m case Off => 0 case Fallback => 1 case Text => 2
  }

  datatype Mark = HandlerIn | HandlerOut | VmxIn | VmxOut

  /** The entries and exits so far, latest outermost. */
  datatype Trace = Start | Then(before: Trace, mark: Mark)

  /** How many handler calls the end of a trace lies inside, and whether it lies inside the VMX logger;
      Broken once the VMX logger has been entered inside itself or something left without being entered. */
  datatype Place = Broken | At(handler: nat, vmx: bool)

  function Moved(p: Place, m: Mark): (r: Place) {
    match p
    case Broken => Broken
    case At(h, v) =>
      match m
      case HandlerIn => At(h + 1, v)
      case HandlerOut => if h > 0 then At(h - 1, v) else Broken
      case VmxIn => if v then Broken else At(h, true)
      case VmxOut => if v then At(h, false) else Broken
  }

  function Scan(trace: Trace): (p: Place) {
    match trace
    case Start => At(0, false)
    case Then(before, m) => Moved(Scan(before), m)
  }

  function Depth(p: Place): (r: nat) {
    if p.At? then p.handler else 0
  }

  function Max(a: nat, b: nat): (r: nat)
    ensures r >= a && r >= b && (r == a || r == b)
  {
    if a < b then b else a
  }

  /** How deep handler calls have been nested anywhere in a trace; 1 means that none was entered inside
      another. */
  function Deepest(trace: Trace): (r: nat)
  {
    match trace
    case Start => 0
    case Then(before, m) => Max(Deepest(before), Depth(Scan(trace)))
  }

  /** No handler call beyond depth `cap` has been added. */
  predicate Deeper(was: nat, now: nat, cap: nat) {
    was <= now && (now <= was || now <= cap)
  }

  /** n handler calls more, one after the other. */
  function Calls(trace: Trace, n: nat): (r: Trace) {
    if n == 0 then trace else Then(Then(Calls(trace, n - 1), HandlerIn), HandlerOut)
  }

  lemma {:induction false} CallsJoin(trace: Trace, m: nat, n: nat)
    ensures Calls(Calls(trace, m), n) == Calls(trace, m + n)
  {
    if n > 0 { CallsJoin(trace, m, n - 1); }
  }

  /** A handler call, with what happened inside it, seen from outside. */
  lemma {:induction false} CallCloses(trace: Trace, inside: Trace)
    requires Scan(trace).At? && Scan(inside) == Scan(Then(trace, HandlerIn))
    ensures Scan(Then(inside, HandlerOut)) == Scan(trace)
    ensures Deepest(Then(inside, HandlerOut)) == Deepest(inside)
  {
  }

  lemma {:induction false} DeepestCalls(trace: Trace, n: nat)
    requires Scan(trace).At?
    ensures Scan(Calls(trace, n)) == Scan(trace)
    ensures Deepest(Calls(trace, n)) == if n > 0 then Max(Deepest(trace), Scan(trace).handler + 1) else Deepest(trace)
  {
    if n > 0 {
      var before := Calls(trace, n - 1);
      DeepestCalls(trace, n - 1);
      CallCloses(before, Then(before, HandlerIn));
    }
  }

  lemma {:induction false} DeepestCovers(trace: Trace)
    ensures Deepest(trace) >= Depth(Scan(trace))
  {
  }

  lemma {:induction false} CallDepth(trace: Trace, inside: Trace)
    requires Scan(trace).At? && Scan(inside) == Scan(Then(trace, HandlerIn))
    requires Deepest(inside) == Deepest(Then(trace, HandlerIn))
    ensures Scan(Then(inside, HandlerOut)) == Scan(trace)
    ensures Deepest(Then(inside, HandlerOut)) == Max(Deepest(trace), Scan(trace).handler + 1)
  {
    CallCloses(trace, inside);
  }

  /** n handler calls on, the place is the same, and they were not nested. */
  predicate Reaches(trace: Trace, after: Trace, n: nat) {
    && Scan(after) == Scan(trace)
    && Deepest(after) == if n > 0 then Max(Deepest(trace), Depth(Scan(trace)) + 1) else Deepest(trace)
  }

  lemma {:induction false} ReachesSnoc(trace: Trace, before: Trace, after: Trace, n: nat)
    requires Reaches(trace, before, n) && Reaches(before, after, 1)
    ensures Reaches(trace, after, n + 1)
  {
  }

  lemma {:induction false} VmxCloses(trace: Trace)
    requires Scan(trace).At? && !Scan(trace).vmx
    ensures var after := Then(Then(trace, VmxIn), VmxOut);
            Scan(after) == Scan(trace) && Deepest(after) == Deepest(trace)
  {
    DeepestCovers(trace);
  }

  // ---- the cache for messages to file handlers while log I/O is suspended, by numbers ----

  datatype Cache = Cache(held: nat, dropped: nat)

  /** One more message: with no room, it or the oldest goes. */
  function Put(c: Cache, max: nat): (r: Cache)
    ensures r.held + r.dropped == c.held + c.dropped + 1 && r.dropped >= c.dropped
    ensures r.dropped > c.dropped <==> c.held >= max
  {
    if c.held < max then c.(held := c.held + 1) else c.(dropped := c.dropped + 1)
  }

  // ---- the VMX guest logger as values ----

  /** The logger's mode, whether its channel is up, its level mask, the messages whose RPC has succeeded, by
      number and in order, and how many channels have been made. */
  datatype Vmx = Vmx(mode: Mode, channel: bool, mask: set<Level>, delivered: seq<nat>, made: nat)

  /** One message: without effect when masked, without a channel, or switched off; otherwise either
      exactly one RPC succeeds, or the logger is off with its channel destroyed. */
  ghost predicate LogStep(b: Vmx, a: Vmx, level: Level, id: nat) {
    if level !in b.mask || !b.channel || b.mode == Off then a == b
    else
      || (a == b.(delivered := b.delivered + [id], mode := a.mode) && 0 < ModeRank(a.mode) <= ModeRank(b.mode))
      || a == b.(mode := Off, channel := false)
  }

  /** Any number of messages: the mode only moves from text to fallback to off, and with the last
      move the channel goes. */
  ghost predicate Degrades(b: Vmx, a: Vmx) {
    && a.mask == b.mask && a.made == b.made && b.delivered <= a.delivered && ModeRank(a.mode) <= ModeRank(b.mode)
    && (b.mode == Off || !b.channel ==> a == b)
    && (a.mode != Off ==> a.channel == b.channel)
    && (a.mode == Off && b.mode != Off ==> !a.channel)
  }

  /** The configuration as far as setup reads it. */
  datatype Config = Config(useLogTextRpc: bool, vmxHandler: bool, mask: set<Level>)

  /** The level mask the logger is to have when nothing fails; empty means off. */
  function Wanted(cfg: Config, textMask: set<Level>): (r: set<Level>) {
    if cfg.useLogTextRpc then textMask else if cfg.vmxHandler then cfg.mask else {}
  }

  /** What a handler call may change. */
  datatype View = View(trace: Trace, foreign: nat, cache: Cache, vmx: Vmx)

  /** What a nested call leaves as it finds it; the cache is open to messages only while I/O is suspended. */
  datatype Guards = Guards(glibStopped: bool, handlerEnabled: bool, flushing: bool, place: Place,
                           suspended: bool, cache: Option<Cache>)

  class Logger {
    const initialized: bool
    const logEnabled: bool
    const useVmxGuestLog: bool
    const handlerMask: set<Level>
    const headerLines: nat
    const needsFileIO: bool
    const maxEntries: nat
    // the environment: the log calls the n-th foreign call makes, and whether it succeeds
    const script: nat -> seq<Level>
    const works: nat -> bool

    var glibStopped: bool
    var handlerEnabled: bool
    var headerPending: bool
    var vmx: Vmx
    var foreign: nat
    var suspended: bool
    var cache: Cache
    var trace: Trace
    ghost var flushing: bool

    constructor (initialized: bool, logEnabled: bool, useVmxGuestLog: bool, handlerMask: set<Level>, headerLines: nat,
                 needsFileIO: bool, maxEntries: nat, script: nat -> seq<Level>, works: nat -> bool)
      ensures Idle() && Settled() && vmx == Vmx(Off, false, {}, [], 0) && Deepest(trace) == 0
      ensures !suspended && cache == Cache(0, 0) && headerPending && foreign == 0
      ensures this.initialized == initialized && this.logEnabled == logEnabled && this.useVmxGuestLog == useVmxGuestLog
      ensures this.handlerMask == handlerMask && this.headerLines == headerLines && this.needsFileIO == needsFileIO
      ensures this.maxEntries == maxEntries && this.script == script && this.works == works
    {
      this.initialized, this.logEnabled, this.useVmxGuestLog := initialized, logEnabled, useVmxGuestLog;
      this.handlerMask, this.headerLines, this.script, this.works := handlerMask, headerLines, script, works;
      this.needsFileIO, this.maxEntries := needsFileIO, maxEntries;
      glibStopped, handlerEnabled, headerPending, suspended, flushing := false, true, true, false, false;
      vmx, foreign, trace, cache := Vmx(Off, false, {}, [], 0), 0, Start, Cache(0, 0);
    }

    ghost function G(): Guards
      reads this
    {
      Guards(glibStopped, handlerEnabled, flushing, Scan(trace), suspended, if suspended then None else Some(cache))
    }

    /** The flags cover the trace: inside a handler call handlers are off, save for the one call that a
        flush of the cache makes with handlers on; inside the VMX logger glib logging is stopped. */
    ghost predicate Valid()
      reads this
    {
      match Scan(trace)
      case Broken => false
      case At(h, v) => h <= Room() && (v ==> glibStopped)
    }

    /** How deep handler calls may be nested as the flags stand. */
    ghost function Room(): (r: nat)
      reads this
    {
      (if flushing then 1 else 0) + (if handlerEnabled then 0 else 1)
    }

    ghost function Cap(): (r: nat)
      reads this
    {
      if flushing then 2 else 1
    }

    /** The guards are as before and handler calls have not been nested beyond the cap. */
    twostate predicate Kept()
      reads this
    {
      Valid() && G() == old(G()) && Deeper(old(Deepest(trace)), Deepest(trace), Cap())
    }

    /** A log call made through the wrapper now has no effect. */
    ghost predicate Deaf()
      reads this
    {
      !initialized || !logEnabled || (glibStopped && !handlerEnabled)
    }

    /** A log call made now at a level of the handler enters it. */
    ghost predicate Hot()
      reads this
    {
      initialized && logEnabled && handlerEnabled && !(suspended && needsFileIO)
    }

    // ---- log calls that stay outside the handler, as values ----
    // Each function says where the logger stands afterwards, or None if some log call on the way, made by
    // foreign code or by the VMX logger itself, is at a level of the handler.

    ghost predicate Takes(calls: seq<Level>) {
      exists i :: 0 <= i < |calls| && calls[i] in handlerMask
    }

    ghost function SaidPast(v: View, level: Level): (r: Option<View>) {
      if level in handlerMask then None else Some(v)
    }

    /** A call into the RPC layer while glib logging is stopped. */
    ghost function RpcPast(v: View): (r: Option<View>) {
      if Takes(script(v.foreign)) then None else Some(v.(foreign := v.foreign + 1))
    }

    ghost function Delivered(v: View, id: nat): (r: View) {
      v.(foreign := v.foreign + 1, vmx := v.vmx.(delivered := v.vmx.delivered + [id]))
    }

    ghost function TextPast(v: View, id: nat): (r: Option<View>)
      ensures r.Some? ==> r.value.trace == v.trace && r.value.cache == v.cache && r.value.vmx.mask == v.vmx.mask
    {
      if v.vmx.mode != Text then Some(v)
      else if Takes(script(v.foreign)) || (!works(v.foreign) && Warning in handlerMask) then None
      else if works(v.foreign) then Some(Delivered(v, id))
      else Some(v.(foreign := v.foreign + 1, vmx := v.vmx.(mode := Fallback)))
    }

    ghost function ClosePast(v: View): (r: Option<View>) {
      if Takes(script(v.foreign)) || Takes(script(v.foreign + 1)) then None else Some(v.(foreign := v.foreign + 2))
    }

    ghost function DestroyPast(v: View): (r: Option<View>)
      ensures r.Some? ==> r.value.trace == v.trace && r.value.cache == v.cache && r.value.vmx.mask == v.vmx.mask
    {
      match ClosePast(v)
      case None => None
      case Some(u) => SaidPast(u.(vmx := u.vmx.(channel := false)), Debug)
    }

    /** Switching off after the last failure. */
    ghost function GiveUpPast(v: View): (r: Option<View>)
      ensures r.Some? ==> r.value.trace == v.trace && r.value.cache == v.cache && r.value.vmx.mask == v.vmx.mask
    {
      if Warning in handlerMask then None else DestroyPast(v.(vmx := v.vmx.(mode := Off)))
    }

    ghost function FallbackPast(v: View, id: nat): (r: Option<View>)
      ensures r.Some? ==> r.value.trace == v.trace && r.value.cache == v.cache && r.value.vmx.mask == v.vmx.mask
    {
      if v.vmx.mode != Fallback then Some(v)
      else if Takes(script(v.foreign)) then None
      else if works(v.foreign) then Some(Delivered(v, id))
      else GiveUpPast(v.(foreign := v.foreign + 1))
    }

    ghost function SendPast(v: View, id: nat): (r: Option<View>)
      ensures r.Some? ==> r.value.trace == v.trace && r.value.cache == v.cache && r.value.vmx.mask == v.vmx.mask
    {
      match TextPast(v, id)
      case None => None
      case Some(u) => FallbackPast(u, id)
    }

    ghost function SendOrSkipPast(v: View, id: nat): (r: Option<View>)
      ensures r.Some? ==> r.value.trace == v.trace && r.value.cache == v.cache && r.value.vmx.mask == v.vmx.mask
    {
      if v.vmx.channel then SendPast(v, id) else SaidPast(v, Debug)
    }

    /** A message to the host that its mask lets through. */
    ghost function VmxPast(v: View, id: nat): (r: Option<View>)
      ensures r.Some? ==>
                && r.value.trace == Then(Then(v.trace, VmxIn), VmxOut)
                && r.value.cache == v.cache && r.value.vmx.mask == v.vmx.mask
    {
      var u := v.(trace := Then(v.trace, VmxIn));
      match SendOrSkipPast(u, id)
      case None => None
      case Some(w) => Some(w.(trace := Then(w.trace, VmxOut)))
    }

    ghost function HostPast(v: View, level: Level, id: nat): (r: Option<View>)
      ensures r.Some? ==>
                && (r.value.trace == v.trace || r.value.trace == Then(Then(v.trace, VmxIn), VmxOut))
                && r.value.cache == v.cache && r.value.vmx.mask == v.vmx.mask
    {
      if useVmxGuestLog && level in v.vmx.mask then VmxPast(v, id) else Some(v)
    }

    /** One log call: to the host, then to the handlers. */
    ghost function LogPast(v: View, level: Level, id: nat): (r: Option<View>)
      ensures r.Some? ==>
                && (r.value.trace == v.trace || r.value.trace == Then(Then(v.trace, VmxIn), VmxOut))
                && r.value.cache == v.cache && r.value.vmx.mask == v.vmx.mask
    {
      match HostPast(v, level, id)
      case None => None
      case Some(u) => SaidPast(u, level)
    }

    /** The first n of these log calls. */
    ghost function LogsPast(v: View, calls: seq<Level>, n: nat): (r: Option<View>)
      requires n <= |calls|
    {
      if n == 0 then Some(v)
      else match LogsPast(v, calls, n - 1)
        case None => None
        case Some(u) => LogPast(u, calls[n - 1], 0)
    }

    /** What foreign code does that is called now: log calls go all the way, or, with glib logging stopped,
        to the handlers alone. */
    ghost function ForeignPast(v: View, stopped: bool): (r: Option<View>) {
      if stopped then RpcPast(v)
      else LogsPast(v.(foreign := v.foreign + 1), script(v.foreign), |script(v.foreign)|)
    }

    ghost function Entered(v: View): (r: View) {
      v.(trace := Then(v.trace, HandlerIn))
    }

    ghost function Left(v: View): (r: View) {
      v.(trace := Then(v.trace, HandlerOut))
    }

    /** One call of the handler, with the log calls it makes. */
    ghost function CallPast(v: View): (r: Option<View>) {
      match ForeignPast(Entered(v), false)
      case None => None
      case Some(w) => Some(Left(w))
    }

    /** n calls of the handler, one after the other. */
    ghost function CallsPast(v: View, n: nat): (r: Option<View>) {
      if n == 0 then Some(v)
      else match CallsPast(v, n - 1)
        case None => None
        case Some(u) => CallPast(u)
    }

    lemma {:induction false} CallsPastJoin(v: View, m: nat, n: nat)
      ensures CallsPast(v, m + n) ==
              match CallsPast(v, m)
              case None => None
              case Some(u) => CallsPast(u, n)
    {
      if n > 0 { CallsPastJoin(v, m, n - 1); }
    }

    lemma {:induction false} CallsPastNone(v: View, m: nat, n: nat)
      requires m <= n && CallsPast(v, m) == None
      ensures CallsPast(v, n) == None
    {
      if m < n { CallsPastNone(v, m, n - 1); }
    }

    lemma {:induction false} CallsPastStops(v: View, u: View, i: nat, n: nat)
      requires i < n && CallsPast(v, i) == Some(u) && CallPast(u) == None
      ensures CallsPast(v, n) == None
    {
      assert CallsPast(v, i + 1) == CallPast(u);
      CallsPastNone(v, i + 1, n);
    }

    lemma {:induction false} LogsPastDepth(v: View, calls: seq<Level>, n: nat)
      requires n <= |calls| && Scan(v.trace).At? && !Scan(v.trace).vmx
      ensures match LogsPast(v, calls, n)
              case None => true
              case Some(u) => Scan(u.trace) == Scan(v.trace) && Deepest(u.trace) == Deepest(v.trace)
    {
      if n > 0 {
        LogsPastDepth(v, calls, n - 1);
        var before := LogsPast(v, calls, n - 1);
        if before.Some? { VmxCloses(before.value.trace); }
      }
    }

    /** Handler calls that stay outside the handler leave the place as it was, one level up at most. */
    lemma {:induction false} CallsPastDepth(v: View, n: nat)
      requires Scan(v.trace).At? && !Scan(v.trace).vmx && CallsPast(v, n).Some?
      ensures Reaches(v.trace, CallsPast(v, n).value.trace, n)
    {
      if n > 0 {
        var u := CallsPast(v, n - 1).value;
        CallsPastDepth(v, n - 1);
        CallPastDepth(u);
        ReachesSnoc(v.trace, u.trace, CallPast(u).value.trace, n - 1);
      }
    }

    lemma {:induction false} CallPastDepth(v: View)
      requires Scan(v.trace).At? && !Scan(v.trace).vmx && CallPast(v).Some?
      ensures Reaches(v.trace, CallPast(v).value.trace, 1)
    {
      ForeignPastDepth(Entered(v));
      CallDepth(v.trace, ForeignPast(Entered(v), false).value.trace);
    }

    lemma {:induction false} ForeignPastDepth(v: View)
      requires Scan(v.trace).At? && !Scan(v.trace).vmx
      ensures match ForeignPast(v, false)
              case None => true
              case Some(u) => Scan(u.trace) == Scan(v.trace) && Deepest(u.trace) == Deepest(v.trace)
    {
      LogsPastDepth(v.(foreign := v.foreign + 1), script(v.foreign), |script(v.foreign)|);
    }

    // ---- when that is, told from what the handler calls log ----

    /** None of these log calls has an effect: neither the handler nor the host takes their levels. */
    ghost predicate Mute(calls: seq<Level>, mask: set<Level>) {
      forall i :: 0 <= i < |calls| ==> calls[i] !in handlerMask && !(useVmxGuestLog && calls[i] in mask)
    }

    /** The n foreign calls from number `from` on make no log call that has an effect. */
    ghost predicate Quiet(from: nat, n: nat, mask: set<Level>) {
      forall i :: from <= i < from + n ==> Mute(script(i), mask)
    }

    lemma {:induction false} MutePast(v: View, calls: seq<Level>, n: nat)
      requires n <= |calls| && Mute(calls, v.vmx.mask)
      ensures LogsPast(v, calls, n) == Some(v)
    {
      if n > 0 { MutePast(v, calls, n - 1); }
    }

    lemma {:induction false} MuteCall(v: View)
      requires Mute(script(v.foreign), v.vmx.mask)
      ensures CallPast(v) == Some(v.(trace := Calls(v.trace, 1), foreign := v.foreign + 1))
    {
      MutePast(Entered(v).(foreign := v.foreign + 1), script(v.foreign), |script(v.foreign)|);
    }

    /** Quiet handler calls show in the trace one after the other, and nothing else happens. */
    lemma {:induction false} QuietPast(v: View, n: nat)
      requires Quiet(v.foreign, n, v.vmx.mask)
      ensures CallsPast(v, n) == Some(v.(trace := Calls(v.trace, n), foreign := v.foreign + n))
    {
      if n > 0 {
        QuietPast(v, n - 1);
        var u := v.(trace := Calls(v.trace, n - 1), foreign := v.foreign + (n - 1));
        MuteCall(u);
      }
    }

    lemma {:induction false} TakesPast(v: View, calls: seq<Level>, i: nat, n: nat)
      requires i < n <= |calls| && calls[i] in handlerMask
      ensures LogsPast(v, calls, n) == None
    {
      if i < n - 1 { TakesPast(v, calls, i, n - 1); }
    }

    lemma {:induction false} CallTakes(v: View)
      requires Takes(script(v.foreign))
      ensures CallPast(v) == None
    {
      var calls := script(v.foreign);
      var k :| 0 <= k < |calls| && calls[k] in handlerMask;
      TakesPast(Entered(v).(foreign := v.foreign + 1), calls, k, |calls|);
    }

    /** In every configuration: if the first handler call with an effect logs at a level of the handler, it
        is entered inside itself, whatever goes to the host before. */
    lemma {:induction false} FirstTakesPast(v: View, i: nat, n: nat)
      requires i < n && Quiet(v.foreign, i, v.vmx.mask) && Takes(script(v.foreign + i))
      ensures CallsPast(v, n) == None
    {
      var u := v.(trace := Calls(v.trace, i), foreign := v.foreign + i);
      QuietPast(v, i);
      CallTakes(u);
      CallsPastStops(v, u, i, n);
    }

    /** If whatever goes to the host also goes to the handler, it is entered inside itself exactly when some
        handler call makes a log call with an effect. */
    lemma {:induction false} PlainPastIff(v: View, n: nat)
      requires !useVmxGuestLog || v.vmx.mask <= handlerMask
      ensures CallsPast(v, n) == None <==> !Quiet(v.foreign, n, v.vmx.mask)
    {
      if Quiet(v.foreign, n, v.vmx.mask) {
        QuietPast(v, n);
      } else {
        var i :| v.foreign <= i < v.foreign + n && !Mute(script(i), v.vmx.mask);
        if Quiet(v.foreign, n - 1, v.vmx.mask) {
          assert i == v.foreign + n - 1;
          FirstTakesPast(v, n - 1, n);
        } else {
          PlainPastIff(v, n - 1);
        }
      }
    }

    /** The handler takes no level that anyone logs at, the VMX logger included. */
    ghost predicate Harmless() {
      && (forall n: nat :: !Takes(script(n)))
      && (useVmxGuestLog ==> (Debug !in handlerMask && Warning !in handlerMask) || forall n: nat :: script(n) == [])
    }

    lemma {:induction false} HarmlessLogs(v: View, calls: seq<Level>, n: nat)
      requires n <= |calls| && Harmless() && !Takes(calls) && ((forall m: nat :: script(m) == []) ==> calls == [])
      ensures LogsPast(v, calls, n).Some?
    {
      if n > 0 {
        HarmlessLogs(v, calls, n - 1);
        assert calls[n - 1] !in handlerMask;
      }
    }

    lemma {:induction false} HarmlessPast(v: View, n: nat)
      requires Harmless()
      ensures CallsPast(v, n).Some?
    {
      if n > 0 {
        HarmlessPast(v, n - 1);
        var u := CallsPast(v, n - 1).value;
        var calls := script(u.foreign);
        HarmlessLogs(Entered(u).(foreign := u.foreign + 1), calls, |calls|);
      }
    }

    /** The log calls made so far went as told, or one has entered the handler. */
    ghost predicate Stands(past: Option<View>, depth: nat, pending: bool)
      reads this
    {
      if past.None? then Deepest(trace) > depth else Seen() == past.value && headerPending == pending
    }

    twostate predicate Goes(past: Option<View>)
      reads this
    {
      Stands(past, old(Depth(Scan(trace))), old(headerPending))
    }

    /** Between top-level calls: both guards at their initial values, nothing in progress. */
    ghost predicate Idle()
      reads this
    {
      !glibStopped && handlerEnabled && !flushing && Scan(trace) == At(0, false)
    }

    ghost predicate Settled()
      reads this
    {
      vmx.mode == Off ==> !vmx.channel
    }

    /** What bounds the recursion: how much of the logger is still open to log calls. */
    ghost function Open(): (r: nat)
      reads this
    {
      (if glibStopped then 0 else 2) + (if handlerEnabled then 1 else 0)
    }

    /** Every call into the RPC layer succeeds. */
    ghost predicate AllWork() {
      forall n: nat :: works(n)
    }

    /** Code outside the logger (the RPC layer or a log handler): it makes any number of Debug, Log
        and Warning calls, and succeeds or not. */
    method Foreign() returns (ok: bool)
      requires Valid()
      modifies this
      ensures Kept() && Degrades(old(vmx), vmx) && ok == works(old(foreign))
      ensures old(glibStopped) ==> vmx == old(vmx)
      ensures old(Deaf()) ==> Still() && foreign == old(foreign) + 1
      ensures old(Hot()) ==> Goes(ForeignPast(old(Seen()), old(glibStopped)))
      ensures AllWork() ==> vmx.mode == old(vmx.mode)
      decreases Open(), 10
    {
      ok := works(foreign);
      var calls := script(foreign);
      ForeignIs(Seen(), glibStopped);
      foreign := foreign + 1;
      LogEach(calls);
    }

    /** These log calls in turn. */
    method LogEach(calls: seq<Level>)
      requires Valid()
      modifies this
      ensures Kept() && Degrades(old(vmx), vmx)
      ensures old(glibStopped) ==> vmx == old(vmx)
      ensures old(Deaf()) ==> Still() && foreign == old(foreign)
      ensures old(Hot()) ==> Goes(SoFar(old(Seen()), calls, |calls|, old(glibStopped)))
      ensures AllWork() ==> vmx.mode == old(vmx.mode)
      decreases Open(), 9, 2
    {
      ghost var v, depth, pending := Seen(), Depth(Scan(trace)), headerPending;
      for i := 0 to |calls|
        invariant Kept() && Degrades(old(vmx), vmx)
        invariant old(glibStopped) ==> vmx == old(vmx)
        invariant old(Deaf()) ==> Still() && foreign == old(foreign)
        invariant old(Hot()) ==> Stands(SoFar(v, calls, i, old(glibStopped)), depth, pending)
        invariant AllWork() ==> vmx.mode == old(vmx.mode)
      {
        LogNext(calls, i, v, depth, pending);
      }
    }

    lemma {:induction false} ForeignIs(v: View, stopped: bool)
      ensures var calls := script(v.foreign);
              SoFar(v.(foreign := v.foreign + 1), calls, |calls|, stopped) == ForeignPast(v, stopped)
    {
      assert script(v.foreign)[..|script(v.foreign)|] == script(v.foreign);
    }

    /** One of the log calls that foreign code makes, after i others since `v`. */
    method LogNext(calls: seq<Level>, i: nat, ghost v: View, ghost depth: nat, ghost pending: bool)
      requires Valid() && i < |calls| && depth == Depth(Scan(trace))
      requires Hot() ==> Stands(SoFar(v, calls, i, glibStopped), depth, pending)
      modifies this
      ensures Kept() && Degrades(old(vmx), vmx)
      ensures old(glibStopped) ==> vmx == old(vmx)
      ensures old(Deaf()) ==> Still() && foreign == old(foreign)
      ensures old(Hot()) ==> Stands(SoFar(v, calls, i + 1, old(glibStopped)), depth, pending)
      ensures AllWork() ==> vmx.mode == old(vmx.mode)
      decreases Open(), 9, 1
    {
      SoFarSnoc(v, calls, i, glibStopped);
      Wrapper(calls[i], 0);
    }

    ghost function SoFar(v: View, calls: seq<Level>, n: nat, stopped: bool): (r: Option<View>)
      requires n <= |calls|
    {
      if !stopped then LogsPast(v, calls, n) else if Takes(calls[..n]) then None else Some(v)
    }

    ghost function WrapperPast(v: View, level: Level, id: nat, stopped: bool): (r: Option<View>) {
      if stopped then SaidPast(v, level) else LogPast(v, level, id)
    }

    lemma {:induction false} SoFarSnoc(v: View, calls: seq<Level>, n: nat, stopped: bool)
      requires n < |calls|
      ensures SoFar(v, calls, n + 1, stopped) ==
              match SoFar(v, calls, n, stopped)
              case None => None
              case Some(u) => WrapperPast(u, calls[n], 0, stopped)
    {
      if stopped {
        assert calls[..n + 1] == calls[..n] + [calls[n]];
        assert calls[..n + 1][n] == calls[n];
        assert forall i :: 0 <= i < n ==> calls[..n + 1][i] == calls[..n][i];
      }
    }

    /** A call into the RPC layer. */
    method Rpc() returns (ok: bool)
      requires Valid()
      modifies this
      ensures Kept() && Degrades(old(vmx), vmx) && ok == works(old(foreign))
      ensures old(glibStopped) ==> vmx == old(vmx)
      ensures old(Hot()) && old(glibStopped) ==> Goes(RpcPast(old(Seen())))
      ensures AllWork() ==> vmx.mode == old(vmx.mode)
      decreases Open(), 11, 0
    {
      ok := Foreign();
    }

    /** Nothing has been logged anywhere. */
    twostate predicate Still()
      reads this
    {
      trace == old(trace) && headerPending == old(headerPending) && cache == old(cache) && vmx == old(vmx)
    }

    ghost function Seen(): (v: View)
      reads this
    {
      View(trace, foreign, cache, vmx)
    }

    /** n calls of the handler: with log calls without effect they show in the trace one after the other,
        and nothing else happens; otherwise they go as told, or one of them is entered inside itself. */
    ghost predicate Called(b: View, a: View, n: nat, deaf: bool, hot: bool) {
      && (deaf ==> a == b.(trace := Calls(b.trace, n), foreign := b.foreign + n))
      && (hot ==>
           if CallsPast(b, n).None? then Deepest(a.trace) > Depth(Scan(b.trace)) + 1 else a == CallsPast(b, n).value)
    }

    /** No handler call has been entered inside itself. */
    ghost predicate Undisturbed(b: View, n: nat, deaf: bool, hot: bool) {
      deaf || (hot && CallsPast(b, n).Some?)
    }

    lemma {:induction false} CalledJoin(b: View, v: View, a: View, m: nat, n: nat, deaf: bool, hot: bool)
      requires Called(b, v, m, deaf, hot) && Called(v, a, n, deaf, hot)
      requires Scan(v.trace) == Scan(b.trace) && Deepest(v.trace) <= Deepest(a.trace)
      ensures Called(b, a, m + n, deaf, hot)
      ensures Undisturbed(b, m + n, deaf, hot) ==> Undisturbed(b, m, deaf, hot) && Undisturbed(v, n, deaf, hot)
    {
      CallsPastJoin(b, m, n);
      CallsJoin(b.trace, m, n);
    }

    /** The same where the number of later calls is only known if the earlier ones were undisturbed. */
    lemma {:induction false} CalledAlso(b: View, v: View, a: View, m: nat, n: nat, lines: nat, deaf: bool, hot: bool)
      requires Called(b, v, m, deaf, hot) && Called(v, a, lines, deaf, hot) && (deaf || hot)
      requires Scan(v.trace) == Scan(b.trace) && Deepest(v.trace) <= Deepest(a.trace)
      requires Undisturbed(b, m, deaf, hot) ==> lines == n
      ensures Called(b, a, m + n, deaf, hot)
      ensures Undisturbed(b, m + n, deaf, hot) ==> Undisturbed(b, m, deaf, hot) && Undisturbed(v, n, deaf, hot)
    {
      if Undisturbed(b, m, deaf, hot) {
        CalledJoin(b, v, a, m, n, deaf, hot);
      } else {
        CallsPastJoin(b, m, n);
      }
    }

    /** What the handler's log function does. */
    method Inside()
      requires Valid()
      modifies this
      ensures Kept() && Degrades(old(vmx), vmx)
      ensures old(glibStopped) ==> vmx == old(vmx)
      ensures old(Deaf()) ==> Still() && foreign == old(foreign) + 1
      ensures old(HotOutside()) ==> Goes(ForeignPast(old(Seen()), false))
      decreases Open(), 11, 0
    {
      var _ := Foreign();
    }

    /** One call of the handler's log function. */
    method CallHandler()
      requires Valid() && Depth(Scan(trace)) < Room()
      modifies this
      ensures Kept() && Degrades(old(vmx), vmx) && CalledOnce(old(Seen()), Seen(), old(Deaf()), old(HotOutside()))
      ensures Deepest(trace) > Depth(Scan(old(trace)))
      ensures old(glibStopped) ==> vmx == old(vmx)
      ensures old(Deaf()) || (old(HotOutside()) && CallPast(old(Seen())).Some?) ==> headerPending == old(headerPending)
      decreases Open(), 11
    {
      trace := Then(trace, HandlerIn);
      Inside();
      CallCloses(old(trace), trace);
      trace := Then(trace, HandlerOut);
    }

    /** Handlers are on outside the guards, as in a flush. */
    ghost predicate HotOutside()
      reads this
    {
      Hot() && !glibStopped
    }

    ghost predicate CalledOnce(b: View, a: View, deaf: bool, hot: bool) {
      && (deaf ==> a == Left(Entered(b)).(foreign := b.foreign + 1))
      && (hot ==> if CallPast(b).None? then Deepest(a.trace) > Depth(Scan(b.trace)) + 1 else a == CallPast(b).value)
    }

    lemma {:induction false} CalledSnoc(b: View, v: View, a: View, i: nat, deaf: bool, hot: bool)
      requires Called(b, v, i, deaf, hot) && CalledOnce(v, a, deaf, hot)
      requires Scan(v.trace) == Scan(b.trace) && Deepest(v.trace) <= Deepest(a.trace)
      ensures Called(b, a, i + 1, deaf, hot)
      ensures Undisturbed(b, i + 1, deaf, hot) ==> Undisturbed(b, i, deaf, hot) && (deaf || CallPast(v).Some?)
    {
    }

    /** One more call after i calls since `b`. */
    method CallAgain(ghost b: View, ghost i: nat, ghost deaf: bool, ghost hot: bool, ghost pending: bool)
      requires Valid() && Depth(Scan(trace)) < Room() && Scan(b.trace) == Scan(trace)
      requires deaf == Deaf() && hot == HotOutside() && Called(b, Seen(), i, deaf, hot)
      requires Undisturbed(b, i, deaf, hot) ==> headerPending == pending
      modifies this
      ensures Kept() && Degrades(old(vmx), vmx) && Called(b, Seen(), i + 1, deaf, hot)
      ensures Deepest(trace) > Depth(Scan(old(trace)))
      ensures old(glibStopped) ==> vmx == old(vmx)
      ensures Undisturbed(b, i + 1, deaf, hot) ==> headerPending == pending
      decreases Open(), 12
    {
      ghost var v := Seen();
      CallHandler();
      CalledSnoc(b, v, Seen(), i, deaf, hot);
    }

    method CallHandlers(n: nat)
      requires Valid() && Depth(Scan(trace)) < Room()
      modifies this
      ensures Kept() && Degrades(old(vmx), vmx) && Called(old(Seen()), Seen(), n, old(Deaf()), old(HotOutside()))
      ensures old(glibStopped) ==> vmx == old(vmx)
      ensures Undisturbed(old(Seen()), n, old(Deaf()), old(HotOutside())) ==> headerPending == old(headerPending)
      decreases Open(), 13
    {
      for i := 0 to n
        invariant Kept() && Degrades(old(vmx), vmx) && Called(old(Seen()), Seen(), i, old(Deaf()), old(HotOutside()))
        invariant old(glibStopped) ==> vmx == old(vmx)
        invariant Undisturbed(old(Seen()), i, old(Deaf()), old(HotOutside())) ==> headerPending == old(headerPending)
      {
        CallAgain(old(Seen()), i, old(Deaf()), old(HotOutside()), old(headerPending));
      }
    }

    function Lines(pending: bool): (r: nat) {
      if pending then headerLines + 1 else 1
    }

    /** VMToolsLogHeader, if the header is pending. */
    method LogHeader() returns (ghost lines: nat)
      requires Valid() && Depth(Scan(trace)) < Room()
      modifies this
      ensures Kept() && Degrades(old(vmx), vmx) && lines == Lines(old(headerPending)) - 1 && !headerPending
      ensures Called(old(Seen()), Seen(), lines, old(Deaf()), old(HotOutside()))
      ensures old(glibStopped) ==> vmx == old(vmx)
      decreases Open(), 14
    {
      lines := 0;
      if headerPending {
        lines := headerLines;
        CallHandlers(headerLines);
        headerPending := false;
      }
    }

    /** VMToolsLogMsg: the pending header lines, then the message, each one call of the handler. */
    method LogMsg()
      requires Valid() && Depth(Scan(trace)) < Room()
      modifies this
      ensures Kept() && Degrades(old(vmx), vmx)
      ensures Called(old(Seen()), Seen(), Lines(old(headerPending)), old(Deaf()), old(HotOutside()))
      ensures Deepest(trace) > Depth(Scan(old(trace)))
      ensures old(glibStopped) ==> vmx == old(vmx)
      ensures Undisturbed(old(Seen()), Lines(old(headerPending)), old(Deaf()), old(HotOutside())) ==> !headerPending
      decreases Open(), 15
    {
      ghost var lines := LogHeader();
      CallAgain(old(Seen()), lines, old(Deaf()), old(HotOutside()), false);
    }

    /** The same between the guards, where the handler's own log calls have no effect. */
    method LogGuarded()
      requires Valid() && glibStopped && !handlerEnabled && Depth(Scan(trace)) < Room()
      modifies this
      ensures Kept() && vmx == old(vmx) && cache == old(cache)
      ensures trace == Calls(old(trace), if old(headerPending) then headerLines + 1 else 1) && !headerPending
      ensures Deepest(trace) > Depth(Scan(old(trace)))
      decreases Open(), 16
    {
      LogMsg();
    }

    /** A message to a file handler while I/O is suspended: with no room at all it goes, with none left the
        oldest does. */
    method Hold()
      modifies this`cache
      ensures cache == Put(old(cache), maxEntries)
    {
      if maxEntries == 0 {
        cache := cache.(dropped := cache.dropped + 1);
      } else if cache.held < maxEntries {
        cache := cache.(held := cache.held + 1);
      } else {
        cache := cache.(dropped := cache.dropped + 1);
      }
    }

    /** A message of that level that reaches the handlers is given to one at once. */
    ghost predicate Enters(level: Level)
      reads this
    {
      handlerEnabled && logEnabled && level in handlerMask && !(suspended && needsFileIO)
    }

    /** A message of that level would go to the cache. */
    ghost predicate Caches(level: Level)
      reads this
    {
      handlerEnabled && logEnabled && level in handlerMask && suspended && needsFileIO
    }

    /** VMToolsLogInt: runs the handler unless one is running already; while I/O is suspended, a message
        to a file handler goes to the cache instead. */
    method LogInt(level: Level)
      requires Valid() && glibStopped
      modifies this
      ensures Kept() && vmx == old(vmx)
      ensures cache == if old(Caches(level)) then Put(old(cache), maxEntries) else old(cache)
      ensures if old(Enters(level)) then trace == Calls(old(trace), Lines(old(headerPending))) && !headerPending
              else trace == old(trace) && headerPending == old(headerPending)
      ensures if old(Enters(level)) then Deepest(trace) > Depth(Scan(old(trace))) else foreign == old(foreign)
      decreases Open(), 5
    {
      if !handlerEnabled { return; }
      handlerEnabled := false;
      if logEnabled && level in handlerMask {
        if suspended && needsFileIO {
          Hold();
        } else {
          LogGuarded();
        }
      }
      handlerEnabled := true;
    }

    /** VMToolsLogWrapper: the way in for Debug, Log and Warning. */
    method Wrapper(level: Level, id: nat)
      requires Valid()
      modifies this
      ensures Kept() && Degrades(old(vmx), vmx)
      ensures old(glibStopped) ==> vmx == old(vmx)
      ensures !old(glibStopped) && initialized && logEnabled && useVmxGuestLog ==> LogStep(old(vmx), vmx, level, id)
      ensures old(Deaf()) ==> Still() && foreign == old(foreign)
      ensures old(Hot()) ==> Goes(WrapperPast(old(Seen()), level, id, old(glibStopped)))
      ensures works(old(foreign)) ==> vmx.mode == old(vmx.mode)
      decreases Open(), 9, 0
    {
      if !initialized { return; }
      if glibStopped {
        LogInt(level);
      } else {
        Log(level, id);
      }
    }

    /** VMToolsLog: what glib calls for each message, first to the host, then in the guest. */
    method Log(level: Level, id: nat)
      requires Valid() && !glibStopped
      modifies this
      ensures Kept() && Degrades(old(vmx), vmx)
      ensures logEnabled && useVmxGuestLog ==> LogStep(old(vmx), vmx, level, id)
      ensures !(logEnabled && useVmxGuestLog) ==> vmx == old(vmx)
      ensures !useVmxGuestLog && old(Caches(level)) ==> cache == Put(old(cache), maxEntries)
      ensures !logEnabled ==> Still() && foreign == old(foreign)
      ensures old(Hot()) ==> Goes(LogPast(old(Seen()), level, id))
      ensures works(old(foreign)) ==> vmx.mode == old(vmx.mode)
      decreases Open(), 8
    {
      LogToHost(level, id);
      LogToGuest(level);
    }

    method LogToHost(level: Level, id: nat)
      requires Valid() && !glibStopped
      modifies this
      ensures Kept() && Degrades(old(vmx), vmx)
      ensures logEnabled && useVmxGuestLog ==> LogStep(old(vmx), vmx, level, id)
      ensures !(logEnabled && useVmxGuestLog) ==> Still() && foreign == old(foreign)
      ensures old(Hot()) ==> Goes(HostPast(old(Seen()), level, id))
      ensures works(old(foreign)) ==> vmx.mode == old(vmx.mode)
      decreases Open(), 7
    {
      if !logEnabled || !useVmxGuestLog { return; }
      glibStopped := true;
      VmxGuestLog(level, id);
      glibStopped := false;
    }

    method LogToGuest(level: Level)
      requires Valid() && !glibStopped
      modifies this
      ensures Kept() && vmx == old(vmx)
      ensures cache == if old(Caches(level)) then Put(old(cache), maxEntries) else old(cache)
      ensures !logEnabled ==> Still() && foreign == old(foreign)
      ensures old(Hot()) ==> Goes(SaidPast(old(Seen()), level))
      ensures trace == if old(Enters(level)) then Calls(old(trace), Lines(old(headerPending))) else old(trace)
      decreases Open(), 6
    {
      if !logEnabled { return; }
      glibStopped := true;
      LogInt(level);
      glibStopped := false;
    }

    /** Sends one message to the host, degrading from text to fallback to off as sending fails. */
    method VmxGuestLog(level: Level, id: nat)
      requires Valid() && glibStopped && !Scan(trace).vmx
      modifies this
      ensures Kept() && LogStep(old(vmx), vmx, level, id) && Degrades(old(vmx), vmx)
      ensures level !in old(vmx.mask) ==> Still() && foreign == old(foreign)
      ensures old(Hot()) && level in old(vmx.mask) ==> Goes(VmxPast(old(Seen()), id))
      ensures works(old(foreign)) ==> vmx.mode == old(vmx.mode)
      decreases Open(), 14
    {
      if level !in vmx.mask { return; }
      trace := Then(trace, VmxIn);
      SendOrSkip(id);
      trace := Then(trace, VmxOut);
    }

    /** Without a channel the message goes nowhere. */
    method SendOrSkip(id: nat)
      requires Valid() && glibStopped
      modifies this
      ensures Kept() && Degrades(old(vmx), vmx)
      ensures if !old(vmx.channel) || old(vmx.mode) == Off then vmx == old(vmx) else
                || vmx == old(vmx).(mode := Off, channel := false)
                || (vmx == old(vmx).(delivered := old(vmx.delivered) + [id], mode := vmx.mode)
                    && 0 < ModeRank(vmx.mode) <= ModeRank(old(vmx.mode)))
      ensures old(Hot()) ==> Goes(SendOrSkipPast(old(Seen()), id))
      ensures works(old(foreign)) ==> vmx.mode == old(vmx.mode)
      decreases Open(), 13, 1
    {
      if !vmx.channel {
        Wrapper(Debug, 0);
      } else {
        SendMessage(id);
      }
    }

    method SendMessage(id: nat)
      requires Valid() && glibStopped && vmx.channel
      modifies this
      ensures Kept()
      ensures vmx.mask == old(vmx.mask)
      ensures if old(vmx.mode) == Off then vmx == old(vmx) else
                || vmx == old(vmx).(mode := Off, channel := false)
                || (vmx == old(vmx).(delivered := old(vmx.delivered) + [id], mode := vmx.mode)
                    && 0 < ModeRank(vmx.mode) <= ModeRank(old(vmx.mode)))
      ensures old(Hot()) ==> Goes(SendPast(old(Seen()), id))
      ensures works(old(foreign)) ==> vmx.mode == old(vmx.mode)
      decreases Open(), 13, 0
    {
      SendText(id);
      SendFallback(id);
    }

    /** The text RPC; a failure leads to the fallback. */
    method SendText(id: nat)
      requires Valid() && glibStopped && vmx.channel
      modifies this
      ensures Kept()
      ensures if old(vmx.mode) != Text then vmx == old(vmx) && foreign == old(foreign)
              else if works(old(foreign)) then vmx == old(vmx).(delivered := old(vmx.delivered) + [id])
              else vmx == old(vmx).(mode := Fallback)
      ensures old(Hot()) ==> Goes(TextPast(old(Seen()), id))
      decreases Open(), 12
    {
      if vmx.mode == Text {
        var sent := Rpc();
        if sent {
          vmx := vmx.(delivered := vmx.delivered + [id]);
        } else {
          Complain();
          vmx := vmx.(mode := Fallback);
        }
      }
    }

    method GiveUp()
      requires Valid() && glibStopped && vmx.channel
      modifies this
      ensures Kept() && vmx == old(vmx).(mode := Off, channel := false)
      ensures old(Hot()) ==> Goes(GiveUpPast(old(Seen())))
      decreases Open(), 11, 3
    {
      Complain();
      vmx := vmx.(mode := Off);
      DestroyChannel();
    }

    /** A warning of the VMX logger itself. */
    method Complain()
      requires Valid() && glibStopped
      modifies this
      ensures Kept() && vmx == old(vmx)
      ensures old(Hot()) ==> Goes(SaidPast(old(Seen()), Warning))
      decreases Open(), 10
    {
      Wrapper(Warning, 0);
    }

    /** The fallback RPC; a failure switches the logger off. */
    method SendFallback(id: nat)
      requires Valid() && glibStopped && vmx.channel
      modifies this
      ensures Kept()
      ensures if old(vmx.mode) != Fallback then vmx == old(vmx)
              else if works(old(foreign)) then vmx == old(vmx).(delivered := old(vmx.delivered) + [id])
              else vmx == old(vmx).(mode := Off, channel := false)
      ensures old(Hot()) ==> Goes(FallbackPast(old(Seen()), id))
      decreases Open(), 12
    {
      if vmx.mode == Fallback {
        var sent := Rpc();
        if sent {
          vmx := vmx.(delivered := vmx.delivered + [id]);
        } else {
          GiveUp();
        }
      }
    }

    /** Stopping and destroying the channel are two calls into the RPC layer. */
    method CloseChannel()
      requires Valid()
      modifies this
      ensures Kept() && Degrades(old(vmx), vmx)
      ensures old(glibStopped) ==> vmx == old(vmx)
      ensures old(Hot()) && old(glibStopped) ==> Goes(ClosePast(old(Seen())))
      decreases Open(), 11, 1
    {
      var _ := Rpc();
      var _ := Rpc();
    }

    method DestroyChannel()
      requires Valid()
      modifies this
      ensures Kept() && !vmx.channel && vmx.mask == old(vmx.mask) && vmx.made == old(vmx.made)
      ensures old(vmx.delivered) <= vmx.delivered && ModeRank(vmx.mode) <= ModeRank(old(vmx.mode))
      ensures old(glibStopped) || old(vmx.mode) == Off ==> vmx == old(vmx).(channel := false)
      ensures old(Hot()) && old(glibStopped) && old(vmx.channel) ==> Goes(DestroyPast(old(Seen())))
      decreases Open(), 11, 2
    {
      if !vmx.channel { return; }
      CloseChannel();
      vmx := vmx.(channel := false);
      Wrapper(Debug, 0);
    }

    // ---- setting the VMX logger up and tearing it down ----

    /** A message of the setup itself. */
    method Say(level: Level)
      requires Valid() && !glibStopped
      modifies this
      ensures Kept() && Degrades(old(vmx), vmx)
      ensures AllWork() ==> vmx.mode == old(vmx.mode)
    {
      Log(level, 0);
    }

    method CreateChannel() returns (ok: bool)
      requires Valid() && !glibStopped
      modifies this
      ensures Kept() && vmx.mask == old(vmx.mask) && old(vmx.delivered) <= vmx.delivered
      ensures old(vmx.mode) == Off ==> vmx.mode == Off && (ok ==> vmx.channel)
      ensures AllWork() ==> ok && vmx.channel && vmx.mode == old(vmx.mode)
      ensures ModeRank(vmx.mode) <= ModeRank(old(vmx.mode)) && (!ok ==> !vmx.channel)
      ensures if old(vmx.channel) then ok && vmx == old(vmx) && foreign == old(foreign)
              else vmx.made >= old(vmx.made) + if ok then 1 else 0
    {
      if vmx.channel { return true; }
      var made := Rpc();
      if !made {
        Say(Warning);
        return false;
      }
      vmx := vmx.(channel := true, made := vmx.made + 1);
      var started := Rpc();
      if !started {
        Say(Warning);
        var _ := Rpc();
        vmx := vmx.(channel := false);
        return false;
      }
      Say(Debug);
      return true;
    }

    method LoadFallbackSetting(cfg: Config)
      requires Valid() && !glibStopped && vmx.mode == Off
      modifies this
      ensures Kept() && vmx == old(vmx).(mode := vmx.mode, mask := vmx.mask)
      ensures vmx.mode == if cfg.vmxHandler && cfg.mask != {} then Fallback else Off
      ensures vmx.mask == if cfg.vmxHandler then cfg.mask else old(vmx.mask)
    {
      if !cfg.vmxHandler {
        Say(Debug);
        return;
      }
      vmx := vmx.(mask := cfg.mask, mode := if cfg.mask != {} then Fallback else Off);
    }

    /** The text RPC: the mask comes from the caller or from the host, and from the configuration when the
        host does not answer. */
    method SetupText(cfg: Config, given: bool, givenMask: set<Level>, hostMask: set<Level>)
      requires Valid() && !glibStopped && vmx.mode == Off
      modifies this
      ensures Kept() && old(vmx.delivered) <= vmx.delivered
      ensures if old(vmx.channel) then vmx.channel && vmx.made == old(vmx.made)
              else vmx.made >= old(vmx.made) + if vmx.channel then 1 else 0
      ensures old(vmx.channel) && !given && !works(old(foreign)) ==>
                vmx.mode == if cfg.vmxHandler && cfg.mask != {} then Fallback else Off
      ensures var wanted := if given then givenMask else hostMask;
              || (vmx.mode == Off && (AllWork() ==> wanted == {}))
              || (vmx.mode == Text && vmx.mask == wanted && wanted != {} && (AllWork() ==> vmx.channel))
              || (vmx.mode == Fallback && !given && cfg.vmxHandler && vmx.mask == cfg.mask && cfg.mask != {}
                  && !AllWork())
    {
      var created := CreateChannel();
      if !created {
        Say(Info);
      } else if given {
        vmx := vmx.(mask := givenMask, mode := if givenMask != {} then Text else Off);
      } else {
        var answered := Rpc();
        if !answered {
          Say(Warning);
          LoadFallbackSetting(cfg);
        } else {
          Say(Info);
          vmx := vmx.(mask := hostMask, mode := if hostMask != {} then Text else Off);
        }
      }
    }

    /** Chooses the level mask and the mode: from the host's answer or the given level with the text
        RPC, otherwise from the configuration.  Log messages written on the way can themselves use and
        degrade the logger; even so it ends on exactly with its channel up and off without one. */
    method SetupLevelAndMode(cfg: Config, given: bool, givenMask: set<Level>, hostMask: set<Level>) returns (ok: bool)
      requires Valid() && !glibStopped
      modifies this
      ensures Kept() && old(vmx.delivered) <= vmx.delivered
      ensures ok <==> vmx.mode != Off
      ensures ok <==> vmx.channel
      ensures ok ==> vmx.mask != {}
      ensures AllWork() ==> (ok <==> Wanted(cfg, if given then givenMask else hostMask) != {})
      ensures AllWork() && ok ==> vmx.mode == if cfg.useLogTextRpc then Text else Fallback
      ensures vmx.mode == Text ==> cfg.useLogTextRpc && vmx.mask == (if given then givenMask else hostMask)
      ensures vmx.mode == Fallback ==> cfg.vmxHandler && vmx.mask == cfg.mask && !(cfg.useLogTextRpc && given)
      ensures vmx.made >= old(vmx.made) + if ok && !old(vmx.channel) then 1 else 0
      ensures AllWork() && old(vmx.channel) ==> vmx.made == old(vmx.made)
    {
      Say(Info);
      vmx := vmx.(mode := Off);
      if !cfg.useLogTextRpc {
        LoadFallbackSetting(cfg);
        if vmx.mode != Off {
          var _ := CreateChannel();
        }
      } else {
        SetupText(cfg, given, givenMask, hostMask);
      }
      if !vmx.channel {
        vmx := vmx.(mode := Off);
      }
      if vmx.mode == Off {
        DestroyChannel();
        return false;
      }
      return true;
    }

    /** No handler has been entered inside another since. */
    twostate predicate Shallow()
      reads this
    {
      Deeper(old(Deepest(trace)), Deepest(trace), 1)
    }

    /** VMTools_SetupVmxGuestLog: with no configuration at hand one is loaded, which may fail. */
    method Setup(refresh: bool, cfg: Config, loads: bool, given: bool, givenMask: set<Level>, hostMask: set<Level>)
      requires Idle() && Settled()
      modifies this
      ensures Idle() && Settled() && old(vmx.delivered) <= vmx.delivered && Shallow()
      ensures !loads ==> Degrades(old(vmx), vmx)
      ensures loads && AllWork() && cfg.useLogTextRpc ==>
                vmx.mode == if (if given then givenMask else hostMask) != {} then Text else Off
      ensures loads && AllWork() && !cfg.useLogTextRpc ==>
                vmx.mode == if cfg.vmxHandler && cfg.mask != {} then Fallback else Off
      ensures loads && vmx.mode == Text ==> cfg.useLogTextRpc && vmx.mask == (if given then givenMask else hostMask)
      ensures loads && vmx.mode == Fallback ==>
                || (cfg.useLogTextRpc && vmx.mask == (if given then givenMask else hostMask))
                || (cfg.vmxHandler && vmx.mask == cfg.mask)
      ensures loads && refresh && vmx.mode != Off ==> vmx.made > old(vmx.made)
      ensures loads && !refresh && AllWork() && old(vmx.channel) ==> vmx.made == old(vmx.made)
    {
      if !loads {
        Log(Warning, 0);
        return;
      }
      if refresh {
        DestroyChannel();
      }
      var ok := SetupLevelAndMode(cfg, given, givenMask, hostMask);
      if ok {
        Log(Info, 0);
      }
    }

    method Teardown()
      requires Idle() && Settled()
      modifies this
      ensures Idle() && Settled() && (useVmxGuestLog ==> !vmx.channel) && (vmx.channel ==> old(vmx.channel))
              && Shallow()
      ensures ModeRank(vmx.mode) <= ModeRank(old(vmx.mode)) && vmx.mask == old(vmx.mask)
      ensures old(vmx.delivered) <= vmx.delivered
    {
      if !useVmxGuestLog { return; }
      DestroyChannel();
    }

    /** A run of messages while the logger is on: the host gets the first k of those that pass the mask,
        each once and in order, and the logger is off, without its channel, exactly when some are missing,
        which does not happen while the RPCs work. */
    method LogAll(levels: seq<Level>) returns (ghost k: nat)
      requires Idle() && initialized && logEnabled && useVmxGuestLog && vmx.mode != Off && vmx.channel
      modifies this
      ensures Idle() && vmx.mask == old(vmx.mask)
      ensures AllWork() ==> vmx.mode == old(vmx.mode)
      ensures var passing := Passing(levels, 0, vmx.mask);
              && k <= |passing| && vmx.delivered == old(vmx.delivered) + passing[..k]
              && (k < |passing| <==> vmx.mode == Off) && (vmx.mode == Off <==> !vmx.channel)
    {
      ghost var states := [vmx];
      for i := 0 to |levels|
        invariant Idle() && vmx.mask == old(vmx.mask)
        invariant AllWork() ==> vmx.mode == old(vmx.mode)
        invariant |states| == i + 1 && states[0] == old(vmx) && states[i] == vmx
        invariant forall j: nat :: j < i ==> LogStep(states[j], states[j + 1], levels[j], j)
      {
        Wrapper(levels[i], i);
        states := states + [vmx];
      }
      k := DeliveredIsPrefix(states, levels, 0);
    }

    // ---- suspending and resuming I/O ----

    /** How many calls of the handler a flush of the cache makes. */
    ghost function FlushCalls(): (r: nat)
      reads this
    {
      if cache.held == 0 then 0 else cache.held + Lines(headerPending) - 1
    }

    /** Between the messages of a flush. */
    ghost predicate Flushing()
      reads this
    {
      flushing && !glibStopped && handlerEnabled && !suspended && Scan(trace) == At(0, false)
    }

    /** One message of the flush, after `done` handler calls since `b`. */
    method FlushOne(ghost b: View, ghost done: nat, ghost more: nat, ghost deaf: bool, ghost hot: bool)
      requires Flushing() && Scan(b.trace) == At(0, false) && Called(b, Seen(), done, deaf, hot)
      requires deaf == Deaf() && hot == HotOutside()
      requires Undisturbed(b, done, deaf, hot) ==> Lines(headerPending) == more
      modifies this
      ensures Flushing() && cache == old(cache) && Degrades(old(vmx), vmx)
      ensures Deeper(old(Deepest(trace)), Deepest(trace), 2)
      ensures Called(b, Seen(), done + more, deaf, hot)
      ensures Undisturbed(b, done + more, deaf, hot) ==> !headerPending
    {
      ghost var v, lines := Seen(), Lines(headerPending);
      LogMsg();
      CalledAlso(b, v, Seen(), done, more, lines, deaf, hot);
    }

    /** The flush runs the handler outside the guard: it goes exactly as told unless a log call on the way is
        at a level of the handler; then this is entered once more, but not again inside that. */
    method Flush()
      requires Idle() && !suspended
      modifies this
      ensures Idle() && !suspended && cache == old(cache).(held := 0) && Degrades(old(vmx), vmx)
      ensures Deeper(old(Deepest(trace)), Deepest(trace), 2)
      ensures var v, n := old(Seen()), old(FlushCalls());
              if !initialized || !logEnabled then
                Seen() == v.(trace := Calls(v.trace, n), foreign := v.foreign + n, cache := cache)
              else if CallsPast(v, n).None? then Deepest(trace) >= 2
              else Seen() == CallsPast(v, n).value.(cache := cache)
    {
      flushing := true;
      ghost var done: nat := 0;
      for i := 0 to cache.held
        invariant Flushing() && cache == old(cache) && Degrades(old(vmx), vmx)
        invariant Deeper(old(Deepest(trace)), Deepest(trace), 2)
        invariant Called(old(Seen()), Seen(), done, old(Deaf()), old(HotOutside()))
        invariant Undisturbed(old(Seen()), done, old(Deaf()), old(HotOutside())) ==>
                    headerPending == (old(headerPending) && i == 0)
        invariant done == if i == 0 then 0 else i + Lines(old(headerPending)) - 1
      {
        ghost var more := if i == 0 then Lines(old(headerPending)) else 1;
        FlushOne(old(Seen()), done, more, old(Deaf()), old(HotOutside()));
        done := done + more;
      }
      flushing := false;
      cache := cache.(held := 0);
    }

    /** The flush, as far as it nests. */
    method FlushCounted()
      requires Idle() && !suspended
      modifies this
      ensures Idle() && !suspended && cache == old(cache).(held := 0) && Degrades(old(vmx), vmx)
      ensures Deeper(old(Deepest(trace)), Deepest(trace), 2)
      ensures if initialized && logEnabled && CallsPast(old(Seen()), old(FlushCalls())).None? then Deepest(trace) >= 2
              else Shallow()
    {
      DeepestCalls(trace, FlushCalls());
      if CallsPast(Seen(), FlushCalls()).Some? { CallsPastDepth(Seen(), FlushCalls()); }
      Flush();
    }

    method Suspend()
      requires Idle() && Settled()
      modifies this
      ensures Idle() && Settled() && suspended && vmx == old(vmx) && trace == old(trace) && cache == old(cache)
    {
      suspended := true;
    }

    /** VMTools_ResumeLogIO: in every configuration and under every environment, a handler is entered inside
        itself exactly when a log call on the way through the flush is at a level it takes. */
    method Resume()
      requires Idle() && Settled()
      modifies this
      ensures Idle() && Settled() && !suspended && cache == Cache(0, 0) && Degrades(old(vmx), vmx)
      ensures Deeper(old(Deepest(trace)), Deepest(trace), 2)
      ensures !initialized || !logEnabled || CallsPast(old(Seen()), old(FlushCalls())).Some? ==> Shallow()
      ensures old(Deepest(trace)) <= 1 ==>
                (Deepest(trace) == 2 <==>
                 initialized && logEnabled && CallsPast(old(Seen()), old(FlushCalls())).None?)
    {
      suspended := false;
      FlushCounted();
      Log(Debug, 0);
      if cache.dropped > 0 {
        Log(Warning, 0);
        cache := cache.(dropped := 0);
      }
    }

    /** What a public call has brought about when it is over. */
    ghost predicate Done(call: Call)
      reads this
    {
      match call
      case LogCall(_) => true
      case SetupCall(_, cfg, loads, given, givenMask, hostMask) =>
        loads && AllWork() ==>
          if cfg.useLogTextRpc then vmx.mode == if (if given then givenMask else hostMask) != {} then Text else Off
          else vmx.mode == if cfg.vmxHandler && cfg.mask != {} then Fallback else Off
      case TeardownCall => useVmxGuestLog ==> !vmx.channel
      case SuspendCall => suspended
      case ResumeCall => !suspended && cache == Cache(0, 0)
    }

    /** Any run of public calls, whatever the RPC layer, the handlers and the host do: it ends, the
        guards are back at their initial values, the VMX logger was never entered inside itself, and a
        logger that is off has no channel.  No handler was entered inside another more than once, and
        not at all unless a log call is at a level of the handler while a resume flushes the cache. */
    method Run(calls: seq<Call>)
      requires Idle() && Settled()
      modifies this
      ensures Idle() && Settled() && old(vmx.delivered) <= vmx.delivered
      ensures calls != [] ==> Done(calls[|calls| - 1])
      ensures Deeper(old(Deepest(trace)), Deepest(trace), 2)
      ensures ResumeCall !in calls || Harmless() ==> Shallow()
      ensures (forall i :: 0 <= i < |calls| ==> !calls[i].SetupCall?) ==> Wanes(old(vmx), vmx)
    {
      for i := 0 to |calls|
        invariant Idle() && Settled() && old(vmx.delivered) <= vmx.delivered
        invariant i > 0 ==> Done(calls[i - 1])
        invariant Deeper(old(Deepest(trace)), Deepest(trace), 2)
        invariant ResumeCall !in calls || Harmless() ==> Shallow()
        invariant (forall j :: 0 <= j < i ==> !calls[j].SetupCall?) ==> Wanes(old(vmx), vmx)
      {
        match calls[i]
        case LogCall(level) => Wrapper(level, i);
        case SetupCall(refresh, cfg, loads, given, givenMask, hostMask) =>
          Setup(refresh, cfg, loads, given, givenMask, hostMask);
        case TeardownCall => Teardown();
        case SuspendCall => Suspend();
        case ResumeCall =>
          if Harmless() { HarmlessPast(Seen(), FlushCalls()); }
          Resume();
      }
    }
  }

  /** A logger whose handler logs: one message held back while I/O is suspended, and the resume enters the
      handler inside itself. */
  method ResumeNests() returns (logger: Logger)
    ensures Deepest(logger.trace) == 2
  {
    logger := new Logger(true, true, false, {Warning, Debug}, 0, true, 1, n => [Debug], n => true);
    logger.Suspend();
    logger.Log(Warning, 0);
    assert logger.script(logger.foreign)[0] in logger.handlerMask;
    logger.FirstTakesPast(logger.Seen(), 0, 1);
    logger.Resume();
  }

  /** The logger has at most lost: its mode, or its channel. */
  ghost predicate Wanes(b: Vmx, a: Vmx) {
    ModeRank(a.mode) <= ModeRank(b.mode) && a.mask == b.mask && (a.channel ==> b.channel)
  }

  datatype Call =
    | LogCall(level: Level)
    | SetupCall(refresh: bool, cfg: Config, loads: bool, given: bool, givenMask: set<Level>, hostMask: set<Level>)
    | TeardownCall
    | SuspendCall
    | ResumeCall

  // ---- what reaches the host between two setups ----

  /** The numbers of the messages the mask lets through, from message `from` on. */
  function Passing(levels: seq<Level>, from: nat, mask: set<Level>): (r: seq<nat>)
    requires from <= |levels|
    decreases |levels| - from
  {
    if from == |levels| then []
    else if levels[from] in mask then [from] + Passing(levels, from + 1, mask)
    else Passing(levels, from + 1, mask)
  }

  /** These are all the messages that pass, in order. */
  lemma {:induction false} PassingIs(levels: seq<Level>, from: nat, mask: set<Level>)
    requires from <= |levels|
    ensures var r := Passing(levels, from, mask);
            && (forall i :: i in r <==> from <= i < |levels| && levels[i] in mask)
            && forall i, j :: 0 <= i < j < |r| ==> r[i] < r[j]
    decreases |levels| - from
  {
    if from < |levels| {
      PassingIs(levels, from + 1, mask);
      var rest := Passing(levels, from + 1, mask);
      assert forall j :: 0 <= j < |rest| ==> rest[j] in rest;
    }
  }

  /** Over any run of messages, the host receives the messages that pass the mask, each once and in
      order, up to the first one whose two attempts both fail; that one switches the logger off and
      takes its channel down, and nothing is sent after it. */
  lemma {:induction false} DeliveredIsPrefix(states: seq<Vmx>, levels: seq<Level>, from: nat) returns (k: nat)
    requires |states| == |levels| + 1 && from <= |levels|
    requires forall i: nat :: from <= i < |levels| ==> LogStep(states[i], states[i + 1], levels[i], i)
    requires states[from].mode != Off && states[from].channel
    ensures var passing, last := Passing(levels, from, states[from].mask), states[|levels|];
            && k <= |passing| && last.delivered == states[from].delivered + passing[..k]
            && (k < |passing| <==> last.mode == Off)
            && (last.mode == Off <==> !last.channel)
    decreases |levels| - from
  {
    var b := states[from];
    var passing := Passing(levels, from, b.mask);
    if from == |levels| {
      k := 0;
    } else {
      var a := states[from + 1];
      assert LogStep(b, a, levels[from], from);
      if levels[from] in b.mask && a.mode == Off {
        SilentOnceOff(states, levels, from + 1);
        k := 0;
      } else {
        k := DeliveredIsPrefix(states, levels, from + 1);
        if levels[from] in b.mask {
          var rest := Passing(levels, from + 1, b.mask);
          assert ([from] + rest)[..k + 1] == [from] + rest[..k];
          assert b.delivered + [from] + rest[..k] == b.delivered + ([from] + rest[..k]);
          k := k + 1;
        }
      }
    }
  }

  lemma {:induction false} SilentOnceOff(states: seq<Vmx>, levels: seq<Level>, from: nat)
    requires |states| == |levels| + 1 && from <= |levels|
    requires forall i: nat :: from <= i < |levels| ==> LogStep(states[i], states[i + 1], levels[i], i)
    requires states[from].mode == Off
    ensures states[|levels|] == states[from]
    decreases |levels| - from
  {
    if from < |levels| {
      assert LogStep(states[from], states[from + 1], levels[from], from);
      SilentOnceOff(states, levels, from + 1);
    }
  }
}
