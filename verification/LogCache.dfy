/** The bounded cache that holds log messages of file handlers while log I/O is suspended, and drops
    the oldest when it is full. */
module LogCache {
  import opened Basics

  datatype Entry = Entry(handler: nat, text: nat)

  /** The logger's suspension state, with everything emitted, everything accepted for logging, and
      everything dropped so far. */
  datatype State = State(suspended: bool, cached: seq<Entry>, droppedCount: nat,
                         emitted: seq<Entry>, accepted: seq<Entry>, lost: seq<Entry>)

  const START := State(false, [], 0, [], [], [])

  // ---- the operations ----

  class Log {
    const files: set<nat>     // the handlers that write to files
    const maxEntries: nat
    var suspended: bool
    var cached: seq<Entry>
    var droppedCount: nat
    var emitted: seq<Entry>
    ghost var accepted: seq<Entry>
    ghost var lost: seq<Entry>

    ghost function Now(): State
      reads this
    {
      State(suspended, cached, droppedCount, emitted, accepted, lost)
    }

    constructor (files: set<nat>, maxEntries: nat)
      ensures Now() == START && this.files == files && this.maxEntries == maxEntries
    {
      this.files, this.maxEntries := files, maxEntries;
      suspended, cached, droppedCount, emitted, accepted, lost := false, [], 0, [], [], [];
    }

    /** A message that passed its handler's mask. */
    method LogInt(e: Entry)
      modifies this
      ensures Now() == Logged(old(Now()), e, files, maxEntries)
    {
      accepted := accepted + [e];
      if suspended && e.handler in files {
        if maxEntries == 0 {
          droppedCount := droppedCount + 1;
          lost := lost + [e];
          return;
        }
        if |cached| < maxEntries {
          cached := cached + [e];
        } else {
          lost := lost + [cached[0]];
          cached := cached[1..];
          droppedCount := droppedCount + 1;
          cached := cached + [e];
        }
      } else {
        emitted := emitted + [e];
      }
    }

    method Suspend()
      modifies this
      ensures Now() == old(Now()).(suspended := true)
    {
      suspended := true;
    }

    /** Resumes, flushes the cache, and logs how many messages were flushed and dropped, as far as
        these two messages pass the mask. */
    method Resume(flushed: Option<Entry>, dropped: Option<Entry>)
      modifies this
      ensures Now() == Resumed(old(Now()), flushed, dropped, files, maxEntries)
    {
      suspended := false;
      var i := 0;
      while i < |cached|
        invariant 0 <= i <= |cached|
        invariant Now() == old(Now()).(suspended := false, emitted := old(emitted) + cached[..i])
      {
        emitted := emitted + [cached[i]];
        i := i + 1;
      }
      assert cached[..i] == cached;
      cached := [];
      if flushed.Some? {
        LogInt(flushed.value);
      }
      if droppedCount > 0 {
        if dropped.Some? {
          LogInt(dropped.value);
        }
        droppedCount := 0;
      }
    }
  }

  function Logged(s: State, e: Entry, files: set<nat>, max: nat): (r: State) {
    var t := s.(accepted := s.accepted + [e]);
    if !s.suspended || e.handler !in files then t.(emitted := s.emitted + [e])
    else if max == 0 then t.(droppedCount := s.droppedCount + 1, lost := s.lost + [e])
    else if |s.cached| < max then t.(cached := s.cached + [e])
    else t.(cached := s.cached[1..] + [e], droppedCount := s.droppedCount + 1, lost := s.lost + [s.cached[0]])
  }

  function LoggedIf(s: State, e: Option<Entry>, files: set<nat>, max: nat): (r: State) {
    if e.Some? then Logged(s, e.value, files, max) else s
  }

  function Resumed(s: State, flushed: Option<Entry>, dropped: Option<Entry>, files: set<nat>, max: nat): (r: State) {
    var t := s.(suspended := false, emitted := s.emitted + s.cached, cached := []);
    var u := LoggedIf(t, flushed, files, max);
    if u.droppedCount > 0 then LoggedIf(u, dropped, files, max).(droppedCount := 0) else u
  }

  // ---- runs ----

  datatype Event = Message(entry: Entry) | SuspendIO | ResumeIO(flushed: Option<Entry>, dropped: Option<Entry>)

  function Run(h: seq<Event>, files: set<nat>, max: nat): (s: State) {
    if h == [] then START
    else
      var s := Run(h[..|h| - 1], files, max);
      match h[|h| - 1]
      case Message(e) => Logged(s, e, files, max)
      case SuspendIO => s.(suspended := true)
      case ResumeIO(flushed, dropped) => Resumed(s, flushed, dropped, files, max)
  }

  /** Any run of calls takes a new log to `Run`. */
  method Play(log: Log, h: seq<Event>)
    requires log.Now() == START
    modifies log
    ensures log.Now() == Run(h, log.files, log.maxEntries)
  {
    for n := 0 to |h|
      invariant log.Now() == Run(h[..n], log.files, log.maxEntries)
    {
      assert h[..n + 1][..n] == h[..n];
      match h[n]
      case Message(e) => log.LogInt(e);
      case SuspendIO => log.Suspend();
      case ResumeIO(flushed, dropped) => log.Resume(flushed, dropped);
    }
    assert h[..|h|] == h;
  }

  /** Whether the last suspension has not been resumed. */
  predicate IsSuspended(h: seq<Event>) {
    h != [] && match h[|h| - 1]
               case Message(_) => IsSuspended(h[..|h| - 1])
               case SuspendIO => true
               case ResumeIO(_, _) => false
  }

  /** The file-handler messages logged while suspended, since the last resume. */
  function Burst(h: seq<Event>, files: set<nat>): (r: seq<Entry>) {
    if h == [] then []
    else
      var g := h[..|h| - 1];
      match h[|h| - 1]
      case Message(e) => if IsSuspended(g) && e.handler in files then Burst(g, files) + [e] else Burst(g, files)
      case SuspendIO => Burst(g, files)
      case ResumeIO(_, _) => []
  }

  function LastOf(s: seq<Entry>, max: nat): (r: seq<Entry>) {
    if |s| <= max then s else s[|s| - max..]
  }

  /** Over every run with a fixed cap, the cache is the last messages of the current burst, at most
      the cap, in order, and the drop counter says exactly how many of the burst are missing. */
  lemma {:induction false} CacheIsLastOfBurst(h: seq<Event>, files: set<nat>, max: nat)
    ensures var s := Run(h, files, max);
            && s.suspended == IsSuspended(h)
            && s.cached == LastOf(Burst(h, files), max)
            && s.droppedCount == |Burst(h, files)| - |s.cached|
            && (!s.suspended ==> s.cached == [] && s.droppedCount == 0)
  {
    if h != [] {
      var g := h[..|h| - 1];
      CacheIsLastOfBurst(g, files, max);
      if h[|h| - 1].Message? {
        LastOfSnoc(Burst(g, files), h[|h| - 1].entry, max);
      }
    }
  }

  lemma LastOfSnoc(s: seq<Entry>, e: Entry, max: nat)
    ensures LastOf(s + [e], max) ==
            if max == 0 then [] else if |s| < max then s + [e] else LastOf(s, max)[1..] + [e]
  {
  }

  // ---- what is emitted and what is lost, told from the history ----

  function One(e: Option<Entry>): (r: seq<Entry>) {
    if e.Some? then [e.value] else []
  }

  /** The two messages that a resume logs itself: the second only if the burst did not fit. */
  function Notices(h: seq<Event>, flushed: Option<Entry>, dropped: Option<Entry>, files: set<nat>, max: nat)
    : (r: seq<Entry>)
  {
    One(flushed) + if |Burst(h, files)| > max then One(dropped) else []
  }

  /** Everything that has been logged. */
  function Submitted(h: seq<Event>, files: set<nat>, max: nat): (r: seq<Entry>) {
    if h == [] then []
    else
      var g := h[..|h| - 1];
      match h[|h| - 1]
      case Message(e) => Submitted(g, files, max) + [e]
      case SuspendIO => Submitted(g, files, max)
      case ResumeIO(flushed, dropped) => Submitted(g, files, max) + Notices(g, flushed, dropped, files, max)
  }

  /** What the handlers have been given: every message at once, save those to files while suspended; of
      these the last of each burst, at most the cap, when it is resumed. */
  function Given(h: seq<Event>, files: set<nat>, max: nat): (r: seq<Entry>) {
    if h == [] then []
    else
      var g := h[..|h| - 1];
      match h[|h| - 1]
      case Message(e) =>
        if IsSuspended(g) && e.handler in files then Given(g, files, max) else Given(g, files, max) + [e]
      case SuspendIO => Given(g, files, max)
      case ResumeIO(flushed, dropped) =>
        Given(g, files, max) + LastOf(Burst(g, files), max) + Notices(g, flushed, dropped, files, max)
  }

  lemma LoggedAtOnce(s: State, e: Option<Entry>, files: set<nat>, max: nat)
    requires !s.suspended
    ensures LoggedIf(s, e, files, max) == s.(accepted := s.accepted + One(e), emitted := s.emitted + One(e))
  {
    assert s.accepted + [] == s.accepted && s.emitted + [] == s.emitted;
  }

  /** What a resume adds. */
  lemma ResumedIs(s: State, flushed: Option<Entry>, dropped: Option<Entry>, files: set<nat>, max: nat)
    ensures var notices := One(flushed) + if s.droppedCount > 0 then One(dropped) else [];
            Resumed(s, flushed, dropped, files, max) ==
            State(false, [], 0, s.emitted + s.cached + notices, s.accepted + notices, s.lost)
  {
    var t := s.(suspended := false, emitted := s.emitted + s.cached, cached := []);
    LoggedAtOnce(t, flushed, files, max);
    var u := LoggedIf(t, flushed, files, max);
    LoggedAtOnce(u, dropped, files, max);
    Assoc(s.emitted + s.cached, One(flushed), One(dropped));
    Assoc(s.accepted, One(flushed), One(dropped));
    assert One(flushed) + [] == One(flushed);
  }

  /** Over every run, what was logged and what the handlers have been given. */
  lemma {:induction false} GivenExactly(h: seq<Event>, files: set<nat>, max: nat)
    ensures Run(h, files, max).accepted == Submitted(h, files, max)
    ensures Run(h, files, max).emitted == Given(h, files, max)
  {
    if h != [] {
      var g := h[..|h| - 1];
      GivenExactly(g, files, max);
      CacheIsLastOfBurst(g, files, max);
      if h[|h| - 1].ResumeIO? {
        ResumedIs(Run(g, files, max), h[|h| - 1].flushed, h[|h| - 1].dropped, files, max);
      }
    }
  }

  /** How much of a run lies behind the last resume. */
  function SinceResume(h: seq<Event>): (r: nat)
    ensures r <= |h|
  {
    if h == [] || h[|h| - 1].ResumeIO? then 0 else SinceResume(h[..|h| - 1]) + 1
  }

  /** How many of n messages do not fit. */
  function Excess(n: nat, max: nat): (r: nat)
    ensures r <= n
  {
    if n <= max then 0 else n - max
  }

  /** The cache holds the last messages of a burst, and the others are what was lost since `before`. */
  ghost predicate Holds(s: State, before: seq<Entry>, burst: seq<Entry>, max: nat) {
    s.cached == LastOf(burst, max) && s.lost == before + burst[..Excess(|burst|, max)]
  }

  lemma HoldsSnoc(s: State, e: Entry, before: seq<Entry>, burst: seq<Entry>, files: set<nat>, max: nat)
    requires Holds(s, before, burst, max) && s.suspended && e.handler in files
    ensures Logged(s, e, files, max).lost == before + (burst + [e])[..Excess(|burst| + 1, max)]
  {
    var n, more := Excess(|burst|, max), Excess(|burst| + 1, max);
    if |burst| < max {
      assert (burst + [e])[..more] == burst[..n];
    } else {
      var first := if max == 0 then e else s.cached[0];
      assert (burst + [e])[..more] == burst[..n] + [first];
      Assoc(before, burst[..n], [first]);
    }
  }

  /** Over every run, exactly the first messages of each burst are lost, those that did not fit; none is
      lost before the burst or by the resume. */
  lemma {:induction false} LostExactly(h: seq<Event>, files: set<nat>, max: nat)
    ensures var burst, before := Burst(h, files), h[..|h| - SinceResume(h)];
            Run(h, files, max).lost == Run(before, files, max).lost + burst[..Excess(|burst|, max)]
  {
    if h == [] || h[|h| - 1].ResumeIO? {
      assert h[..|h|] == h;
    } else {
      var g, last := h[..|h| - 1], h[|h| - 1];
      LostExactly(g, files, max);
      CacheIsLastOfBurst(g, files, max);
      var before := h[..|h| - SinceResume(h)];
      assert g[..|g| - SinceResume(g)] == before;
      if last.Message? && IsSuspended(g) && last.entry.handler in files {
        HoldsSnoc(Run(g, files, max), last.entry, Run(before, files, max).lost, Burst(g, files), files, max);
      }
    }
  }

  lemma ResumeLosesNothing(g: seq<Event>, flushed: Option<Entry>, dropped: Option<Entry>, files: set<nat>, max: nat)
    ensures Run(g + [ResumeIO(flushed, dropped)], files, max).lost == Run(g, files, max).lost
  {
    assert (g + [ResumeIO(flushed, dropped)])[..|g|] == g;
    ResumedIs(Run(g, files, max), flushed, dropped, files, max);
  }

  /** Without a suspension everything goes to its handler at once and nothing is lost. */
  lemma {:induction false} NeverSuspended(h: seq<Event>, files: set<nat>, max: nat)
    requires SuspendIO !in h
    ensures var s := Run(h, files, max); !s.suspended && s.emitted == s.accepted && s.lost == [] && s.cached == []
  {
    if h != [] {
      var g := h[..|h| - 1];
      NeverSuspended(g, files, max);
      assert h[|h| - 1] != SuspendIO;
      if h[|h| - 1].ResumeIO? {
        ResumedIs(Run(g, files, max), h[|h| - 1].flushed, h[|h| - 1].dropped, files, max);
        var s := Run(g, files, max);
        assert s.emitted + s.cached == s.emitted;
      }
    }
  }

  /** Over every run, a handler that does not write to files is given everything logged to it. */
  lemma {:induction false} OthersMissNothing(h: seq<Event>, files: set<nat>, max: nat, k: nat)
    requires k !in files
    ensures var s := Run(h, files, max); OfHandler(s.emitted, k) == OfHandler(s.accepted, k)
  {
    if h != [] {
      var g := h[..|h| - 1];
      var s := Run(g, files, max);
      OthersMissNothing(g, files, max, k);
      match h[|h| - 1]
      case Message(e) =>
        OfHandlerSnoc(s.emitted, e, k);
        OfHandlerSnoc(s.accepted, e, k);
      case SuspendIO =>
      case ResumeIO(flushed, dropped) =>
        EmittedInOrder(g, files, max, k);
        ResumedIs(s, flushed, dropped, files, max);
        SameOfHandler(s, One(flushed) + if s.droppedCount > 0 then One(dropped) else [], k);
    }
  }

  lemma SameOfHandler(s: State, notices: seq<Entry>, k: nat)
    requires OfHandler(s.emitted, k) == OfHandler(s.accepted, k)
    requires forall i :: 0 <= i < |s.cached| ==> s.cached[i].handler != k
    ensures OfHandler(s.emitted + s.cached + notices, k) == OfHandler(s.accepted + notices, k)
  {
    NoneOfHandler(s.cached, k);
    OfHandlerConcat(s.emitted, s.cached, k);
    OfHandlerConcat(s.emitted + s.cached, notices, k);
    OfHandlerConcat(s.accepted, notices, k);
    assert OfHandler(s.emitted, k) + [] == OfHandler(s.emitted, k);
  }

  /** Nothing is lost silently or twice: what was accepted is what was emitted, dropped or is cached. */
  lemma {:induction false} Conservation(h: seq<Event>, files: set<nat>, max: nat)
    ensures var s := Run(h, files, max);
            multiset(s.accepted) == multiset(s.emitted) + multiset(s.lost) + multiset(s.cached)
  {
    if h != [] {
      var g := h[..|h| - 1];
      Conservation(g, files, max);
      CacheIsLastOfBurst(g, files, max);
      var s := Run(g, files, max);
      match h[|h| - 1]
      case Message(e) => LoggedConserves(s, e, files, max);
      case SuspendIO =>
      case ResumeIO(flushed, dropped) =>
        var t := s.(suspended := false, emitted := s.emitted + s.cached, cached := []);
        if flushed.Some? { LoggedConserves(t, flushed.value, files, max); }
        var u := LoggedIf(t, flushed, files, max);
        if dropped.Some? { LoggedConserves(u, dropped.value, files, max); }
    }
  }

  ghost predicate Balanced(s: State) {
    multiset(s.accepted) == multiset(s.emitted) + multiset(s.lost) + multiset(s.cached)
  }

  lemma LoggedConserves(s: State, e: Entry, files: set<nat>, max: nat)
    requires Balanced(s) && (max > 0 ==> |s.cached| <= max)
    ensures Balanced(Logged(s, e, files, max))
  {
    assert multiset(s.accepted + [e]) == multiset(s.accepted) + multiset{e};
    if !s.suspended || e.handler !in files {
      assert multiset(s.emitted + [e]) == multiset(s.emitted) + multiset{e};
    } else if max == 0 {
      assert multiset(s.lost + [e]) == multiset(s.lost) + multiset{e};
    } else if |s.cached| < max {
      assert multiset(s.cached + [e]) == multiset(s.cached) + multiset{e};
    } else {
      var first, rest := s.cached[0], s.cached[1..];
      assert s.cached == [first] + rest;
      assert multiset(s.cached) == multiset{first} + multiset(rest);
      assert multiset(rest + [e]) == multiset(rest) + multiset{e};
      assert multiset(s.lost + [first]) == multiset(s.lost) + multiset{first};
    }
  }

  // ---- order ----

  /** `f` says where in `b` the elements of `a` stand, in order. */
  ghost predicate Embeds(f: seq<nat>, a: seq<Entry>, b: seq<Entry>) {
    && |f| == |a|
    && (forall i :: 0 <= i < |f| ==> f[i] < |b| && b[f[i]] == a[i])
    && (forall i, j :: 0 <= i < j < |f| ==> f[i] < f[j])
  }

  /** `a` is `b` with some elements left out. */
  ghost predicate IsSubsequence(a: seq<Entry>, b: seq<Entry>) {
    exists f: seq<nat> :: Embeds(f, a, b)
  }

  lemma SubsequenceSnoc(a: seq<Entry>, b: seq<Entry>, e: Entry)
    requires IsSubsequence(a, b)
    ensures IsSubsequence(a + [e], b + [e]) && IsSubsequence(a, b + [e])
  {
    var f: seq<nat> :| Embeds(f, a, b);
    assert Embeds(f, a, b + [e]);
    assert Embeds(f + [|b|], a + [e], b + [e]);
  }

  /** Leaving out one more element keeps a subsequence. */
  lemma SubsequenceDrop(x: seq<Entry>, e: Entry, y: seq<Entry>, b: seq<Entry>)
    requires IsSubsequence(x + [e] + y, b)
    ensures IsSubsequence(x + y, b)
  {
    var a := x + [e] + y;
    var f: seq<nat> :| Embeds(f, a, b);
    var g := f[..|x|] + f[|x| + 1..];
    assert forall i :: 0 <= i < |g| ==> g[i] == f[if i < |x| then i else i + 1];
    assert forall i :: 0 <= i < |x + y| ==> (x + y)[i] == a[if i < |x| then i else i + 1];
    assert Embeds(g, x + y, b);
  }

  function OfHandler(s: seq<Entry>, h: nat): (r: seq<Entry>) {
    if s == [] then []
    else
      var front, e := OfHandler(s[..|s| - 1], h), s[|s| - 1];
      if e.handler == h then front + [e] else front
  }

  lemma OfHandlerSnoc(s: seq<Entry>, e: Entry, h: nat)
    ensures OfHandler(s + [e], h) == if e.handler == h then OfHandler(s, h) + [e] else OfHandler(s, h)
  {
    assert (s + [e])[..|s|] == s;
  }

  lemma {:induction false} OfHandlerConcat(a: seq<Entry>, b: seq<Entry>, h: nat)
    ensures OfHandler(a + b, h) == OfHandler(a, h) + OfHandler(b, h)
  {
    if b == [] {
      assert a + b == a;
    } else {
      var b', e := b[..|b| - 1], b[|b| - 1];
      OfHandlerConcat(a, b', h);
      OfHandlerSnoc(a + b', e, h);
      assert a + b == a + b' + [e];
    }
  }

  lemma {:induction false} NoneOfHandler(s: seq<Entry>, h: nat)
    requires forall i :: 0 <= i < |s| ==> s[i].handler != h
    ensures OfHandler(s, h) == []
  {
    if s != [] { NoneOfHandler(s[..|s| - 1], h); }
  }

  /** What a handler has been given and will be given is, in order, part of what was logged to it. */
  ghost predicate InOrder(s: State, h: nat) {
    IsSubsequence(OfHandler(s.emitted, h) + OfHandler(s.cached, h), OfHandler(s.accepted, h))
  }

  ghost predicate OnlyFiles(s: State, files: set<nat>) {
    && (forall i :: 0 <= i < |s.cached| ==> s.cached[i].handler in files)
    && (!s.suspended ==> s.cached == [])
  }

  lemma EmitInOrder(s: State, e: Entry, h: nat)
    requires InOrder(s, h) && (e.handler == h ==> OfHandler(s.cached, h) == [])
    ensures InOrder(s.(accepted := s.accepted + [e], emitted := s.emitted + [e]), h)
  {
    var out, held, all := OfHandler(s.emitted, h), OfHandler(s.cached, h), OfHandler(s.accepted, h);
    OfHandlerSnoc(s.accepted, e, h);
    OfHandlerSnoc(s.emitted, e, h);
    SubsequenceSnoc(out + held, all, e);
    if e.handler == h { assert out + [e] + held == out + held + [e]; }
  }

  lemma LoseInOrder(s: State, e: Entry, h: nat)
    requires InOrder(s, h)
    ensures InOrder(s.(accepted := s.accepted + [e], lost := s.lost + [e], droppedCount := s.droppedCount + 1), h)
  {
    OfHandlerSnoc(s.accepted, e, h);
    SubsequenceSnoc(OfHandler(s.emitted, h) + OfHandler(s.cached, h), OfHandler(s.accepted, h), e);
  }

  lemma CacheInOrder(s: State, e: Entry, h: nat)
    requires InOrder(s, h)
    ensures InOrder(s.(accepted := s.accepted + [e], cached := s.cached + [e]), h)
  {
    var out, held, all := OfHandler(s.emitted, h), OfHandler(s.cached, h), OfHandler(s.accepted, h);
    OfHandlerSnoc(s.accepted, e, h);
    OfHandlerSnoc(s.cached, e, h);
    SubsequenceSnoc(out + held, all, e);
    assert out + (held + [e]) == out + held + [e];
  }

  lemma ReplaceInOrder(s: State, e: Entry, h: nat)
    requires InOrder(s, h) && s.cached != []
    ensures InOrder(s.(accepted := s.accepted + [e], cached := s.cached[1..] + [e], droppedCount := s.droppedCount + 1,
                       lost := s.lost + [s.cached[0]]), h)
  {
    var first, rest := s.cached[0], s.cached[1..];
    assert s.cached == [first] + rest;
    OfHandlerConcat([first], rest, h);
    assert OfHandler([first], h) == if first.handler == h then [first] else [];
    OfHandlerSnoc(s.accepted, e, h);
    OfHandlerSnoc(rest, e, h);
    DropFirst(OfHandler(s.emitted, h), OfHandler(s.cached, h), OfHandler(rest, h), first,
              OfHandler(s.accepted, h), e, h);
  }

  lemma LoggedOnlyFiles(s: State, e: Entry, files: set<nat>, max: nat)
    requires OnlyFiles(s, files)
    ensures OnlyFiles(Logged(s, e, files, max), files)
  {
  }

  lemma LoggedInOrder(s: State, e: Entry, files: set<nat>, max: nat, h: nat)
    requires InOrder(s, h) && OnlyFiles(s, files) && (max > 0 ==> |s.cached| <= max)
    ensures InOrder(Logged(s, e, files, max), h)
  {
    if !s.suspended || e.handler !in files {
      if e.handler == h { NoneOfHandler(s.cached, h); }
      EmitInOrder(s, e, h);
    } else if max == 0 {
      LoseInOrder(s, e, h);
    } else if |s.cached| < max {
      CacheInOrder(s, e, h);
    } else {
      ReplaceInOrder(s, e, h);
    }
  }

  lemma DropFirst(out: seq<Entry>, held: seq<Entry>, rest: seq<Entry>, first: Entry, all: seq<Entry>, e: Entry, h: nat)
    requires IsSubsequence(out + held, all)
    requires held == if first.handler == h then [first] + rest else rest
    ensures IsSubsequence(out + rest, all) && IsSubsequence(out + (rest + [e]), all + [e])
            && IsSubsequence(out + rest, all + [e])
  {
    if first.handler == h {
      assert out + held == out + [first] + rest;
      SubsequenceDrop(out, first, rest, all);
    }
    SubsequenceSnoc(out + rest, all, e);
    assert out + (rest + [e]) == out + rest + [e];
  }

  /** Over every run, each handler is given its messages in the order they were logged. */
  lemma {:induction false} EmittedInOrder(h: seq<Event>, files: set<nat>, max: nat, handler: nat)
    ensures InOrder(Run(h, files, max), handler) && OnlyFiles(Run(h, files, max), files)
  {
    if h == [] {
      var none := OfHandler([], handler);
      assert none + none == [] && Embeds([], none + none, none);
    } else {
      var g := h[..|h| - 1];
      EmittedInOrder(g, files, max, handler);
      CacheIsLastOfBurst(g, files, max);
      var s := Run(g, files, max);
      match h[|h| - 1]
      case Message(e) =>
        LoggedInOrder(s, e, files, max, handler);
        LoggedOnlyFiles(s, e, files, max);
      case SuspendIO =>
      case ResumeIO(flushed, dropped) =>
        ResumedInOrder(s, flushed, dropped, files, max, handler);
    }
  }

  lemma FlushInOrder(s: State, h: nat)
    requires InOrder(s, h)
    ensures InOrder(s.(suspended := false, emitted := s.emitted + s.cached, cached := []), h)
  {
    var t := s.(suspended := false, emitted := s.emitted + s.cached, cached := []);
    OfHandlerConcat(s.emitted, s.cached, h);
    assert OfHandler(t.emitted, h) + OfHandler(t.cached, h) == OfHandler(s.emitted, h) + OfHandler(s.cached, h);
  }

  /** A message logged after the flush goes straight to its handler. */
  lemma LoggedIfInOrder(s: State, e: Option<Entry>, files: set<nat>, max: nat, h: nat)
    requires InOrder(s, h) && !s.suspended && s.cached == []
    ensures var t := LoggedIf(s, e, files, max); InOrder(t, h) && !t.suspended && t.cached == []
  {
    if e.Some? { EmitInOrder(s, e.value, h); }
  }

  lemma ResumedInOrder(s: State, flushed: Option<Entry>, dropped: Option<Entry>, files: set<nat>, max: nat, h: nat)
    requires InOrder(s, h)
    ensures InOrder(Resumed(s, flushed, dropped, files, max), h)
    ensures OnlyFiles(Resumed(s, flushed, dropped, files, max), files)
  {
    FlushInOrder(s, h);
    var t := s.(suspended := false, emitted := s.emitted + s.cached, cached := []);
    LoggedIfInOrder(t, flushed, files, max, h);
    LoggedIfInOrder(LoggedIf(t, flushed, files, max), dropped, files, max, h);
  }
}
