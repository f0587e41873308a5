/** The guest statistics handle: protocol negotiation with the host, unmarshalling, and lookups. */
module GuestStats {
  import opened Basics

  datatype Error =
    | Success | NotEnabled | NotAvailable | NoInfo | InvalidHandle | InvalidArg | Other | UnsupportedVersion

  const DATA_VERSION: nat := 3
  const MAX_STATISTIC_ID: nat := 39
  const SIZE_VERSION: nat := 4
  const SIZE_V2: nat := 669
  const SIZE_V3: nat := 16

  /** A V3 statistic: a union with its discriminant. */
  datatype Stat = Stat(d: nat, valid: bool, value: int)

  /** A version 2 statistic, known by its place in the structure. */
  datatype Field = Field(valid: bool, value: int)

  /** Decoding one union: whether it succeeds, and what it leaves in the table. */
  datatype Item = Item(ok: bool, left: Stat)

  /** What the host sends. The payload is read as version 2 fields or as a version 3 XDR stream, whose
      count may fail to decode; the stream ends after the last item. */
  datatype Reply = NoReply | Refused(unknownCommand: bool)
    | Data(len: nat, version: nat, session: nat, fields: seq<Field>, count: Option<nat>, items: seq<Item>)

  /** What the handle's buffer holds. `stats` is the room for entries, of which numStats are in use. */
  datatype Table = Nothing | TableV2(fields: seq<Field>) | TableV3(numStats: nat, stats: seq<Stat>)

  datatype State = State(version: nat, session: nat, table: Table)

  // ---- negotiation ----

  datatype Outcome = Failed(error: Error) | Got(version: nat, reply: Reply)

  datatype Negotiated = Negotiated(outcome: Outcome, session: nat, next: nat)

  /** The request loop, against the host's replies from number `at` on. */
  function Negotiate(host: nat -> Reply, at: nat, version: nat, session: nat): (r: Negotiated)
    requires version == 2 || version == 3
    ensures r.outcome.Got? ==>
              r.outcome.version in {2, 3} && r.next > 0 && r.outcome.reply == host(r.next - 1) && r.outcome.reply.Data?
    ensures r.outcome.Failed? ==> r.outcome.error != Success
    ensures r.outcome.Got? && r.session != 0 ==> r.outcome.reply.session == r.session
    ensures at < r.next <= at + (if session != 0 then 1 else 0) + (if version == 3 || session != 0 then 2 else 1)
    decreases session != 0, version
  {
    match host(at)
    case Data(_, _, replySession, _, _, _) =>
      if session != 0 && session != replySession then Negotiate(host, at + 1, DATA_VERSION, 0)
      else Negotiated(Got(version, host(at)), session, at + 1)
    case NoReply => Negotiated(Failed(Other), session, at + 1)
    case Refused(unknownCommand) =>
      if version == 2 || unknownCommand then Negotiated(Failed(NotEnabled), session, at + 1)
      else Negotiate(host, at + 1, 2, 0)
  }

  /** An update never sends more than three requests, whatever the host replies. */
  lemma AtMostThree(host: nat -> Reply, at: nat, version: nat, session: nat)
    requires version == 2 || version == 3
    ensures at + 1 <= Negotiate(host, at, version, session).next <= at + 3
  {
  }

  /** Three requests are needed when the session changed and the host knows version 2 only. */
  lemma ThreeNeeded(host: nat -> Reply, at: nat, version: nat, session: nat)
    requires (version == 2 || version == 3) && session != 0
    requires host(at).Data? && host(at).session != session && host(at + 1) == Refused(false) && host(at + 2).Data?
    ensures Negotiate(host, at, version, session) == Negotiated(Got(2, host(at + 2)), 0, at + 3)
  {
    assert Negotiate(host, at + 1, 3, 0) == Negotiate(host, at + 2, 2, 0);
  }

  // ---- accepting a reply ----

  /** The stream delivers statistic k + 1 as its item k. */
  predicate InOrder(items: seq<Item>, k: nat) {
    k < |items| && items[k].ok && items[k].left.d == k + 1
  }

  /** Where unmarshalling entries k..n stops. */
  function Stop(items: seq<Item>, k: nat, n: nat): (r: nat)
    requires k <= n
    ensures k <= r <= n && (r < n ==> !InOrder(items, r)) && forall j :: k <= j < r ==> InOrder(items, j)
    decreases n - k
  {
    if k < n && InOrder(items, k) then Stop(items, k + 1, n) else k
  }

  function Usable(count: nat): (r: nat) {
    if count >= MAX_STATISTIC_ID then MAX_STATISTIC_ID - 1 else count
  }

  /** The buffer for n entries: the old table if large enough, else bytes that are not a table. */
  function Room(t: Table, n: nat, scratch: nat -> Stat): (r: seq<Stat>)
    ensures |r| >= n
  {
    if t.TableV3? && n <= |t.stats| then t.stats else seq(n, scratch)
  }

  /** The buffer after unmarshalling stopped at `stop`: the entry that failed may be overwritten too. */
  function Written(room: seq<Stat>, items: seq<Item>, stop: nat, n: nat): (r: seq<Stat>) {
    seq(|room|, j requires 0 <= j < |room| =>
      if (j < stop || (j == stop && j < n)) && j < |items| then items[j].left else room[j])
  }

  datatype Accepted = Accepted(state: State, error: Error)

  function AcceptV2(s: State, reply: Reply): (r: Accepted)
    requires reply.Data?
  {
    if reply.version != 2 || reply.len != SIZE_V2 then Accepted(s, Other)
    else Accepted(State(2, reply.session, TableV2(reply.fields)), Success)
  }

  function AcceptV3(s: State, reply: Reply, scratch: nat -> Stat): (r: Accepted)
    requires reply.Data?
  {
    if reply.version != 3 || reply.len < SIZE_V3 then Accepted(s, Other)
    else if reply.count == None then Accepted(State(3, reply.session, s.table), Success)
    else
      var n := Usable(reply.count.value);
      var stop := Stop(reply.items, 0, n);
      var table := TableV3(n, Written(Room(s.table, n, scratch), reply.items, stop, n));
      Accepted(State(3, if stop == n then reply.session else 0, table), Success)
  }

  function Accept(s: State, version: nat, reply: Reply, scratch: nat -> Stat): (r: Accepted)
    requires reply.Data? && version in {2, 3}
  {
    if reply.len < SIZE_VERSION then Accepted(s, Other)
    else if version == 2 then AcceptV2(s, reply)
    else AcceptV3(s, reply, scratch)
  }

  predicate KnownVersion(v: nat) {
    v in {0, 2, 3}
  }

  function Asked(s: State): (r: nat) {
    if s.version == 0 then DATA_VERSION else s.version
  }

  /** One call of VMGuestLib_UpdateInfo. */
  function Update(s: State, host: nat -> Reply, at: nat, scratch: nat -> Stat): (r: Accepted)
    requires KnownVersion(s.version)
    ensures KnownVersion(r.state.version)
  {
    var g := Negotiate(host, at, Asked(s), s.session);
    var a := if g.outcome.Failed? then Accepted(s, g.outcome.error)
             else Accept(s.(session := g.session), g.outcome.version, g.outcome.reply, scratch);
    if a.error != Success then Accepted(a.state.(session := 0), a.error) else a
  }

  // ---- lookups ----

  /** Undefined: the code reads a table of the wrong kind. */
  datatype Answer = Fails(error: Error) | Value(stat: Stat) | Undefined

  function FieldAt(fields: seq<Field>, id: nat): (r: Field) {
    if id < |fields| then fields[id] else Field(false, 0)
  }

  /** Reading statistic `id`; `both` for the getters that serve both protocol versions. */
  function Lookup(s: State, id: nat, both: bool): (r: Answer)
    requires 0 < id
  {
    if s.session == 0 then Fails(NoInfo)
    else if both && s.version == 2 then
      if !s.table.TableV2? then Undefined
      else
        var f := FieldAt(s.table.fields, id);
        if !f.valid then Fails(NotAvailable) else Value(Stat(id, f.valid, f.value))
    else if s.version != 3 || !s.table.TableV3? then Undefined
    else if id - 1 >= s.table.numStats then Fails(UnsupportedVersion)
    else if id - 1 >= |s.table.stats| then Undefined
    else if !s.table.stats[id - 1].valid then Fails(NotAvailable)
    else Value(s.table.stats[id - 1])
  }

  // ---- the code ----

  class Host {
    const replies: nat -> Reply
    var sent: nat

    constructor (replies: nat -> Reply)
      ensures this.replies == replies && sent == 0
    {
      this.replies, sent := replies, 0;
    }

    method SendOne() returns (reply: Reply)
      modifies this
      ensures reply == replies(old(sent)) && sent == old(sent) + 1
    {
      reply := replies(sent);
      sent := sent + 1;
    }
  }

  class Handle {
    var version: nat
    var sessionId: nat
    var table: Table
    const scratch: nat -> Stat

    constructor (scratch: nat -> Stat)
      ensures View() == State(0, 0, Nothing) && this.scratch == scratch
    {
      version, sessionId, table := 0, 0, Nothing;
      this.scratch := scratch;
    }

    function View(): (r: State)
      reads this
    {
      State(version, sessionId, table)
    }

    /** The request loop. */
    method Request(host: Host) returns (outcome: Outcome)
      requires KnownVersion(version)
      modifies this`sessionId, host
      ensures outcome.Got? ==> outcome.reply.Data? && outcome.version in {2, 3}
      ensures Negotiated(outcome, sessionId, host.sent) ==
              Negotiate(host.replies, old(host.sent), Asked(old(View())), old(sessionId))
    {
      var hostVersion := version;
      if hostVersion == 0 {
        hostVersion := DATA_VERSION;
      }
      while true
        invariant hostVersion in {2, 3}
        invariant Negotiate(host.replies, host.sent, hostVersion, sessionId) ==
                  Negotiate(host.replies, old(host.sent), Asked(old(View())), old(sessionId))
        decreases sessionId != 0, hostVersion
      {
        var reply := host.SendOne();
        match reply {
          case Data(_, _, replySession, _, _, _) =>
            if sessionId != 0 && sessionId != replySession {
              hostVersion := DATA_VERSION;
              sessionId := 0;
            } else {
              return Got(hostVersion, reply);
            }
          case NoReply =>
            return Failed(Other);
          case Refused(unknownCommand) =>
            if hostVersion == 2 || unknownCommand {
              return Failed(NotEnabled);
            }
            hostVersion := 2;
            sessionId := 0;
        }
      }
    }

    /** The unmarshalling loop: how far it got, and the buffer it leaves. */
    method Unmarshal(room: seq<Stat>, items: seq<Item>, n: nat) returns (stats: seq<Stat>, count: nat)
      requires n <= |room|
      ensures count == Stop(items, 0, n) && stats == Written(room, items, count, n)
    {
      stats, count := room, 0;
      while count < n
        invariant count <= n && count <= |items| && |stats| == |room|
        invariant Stop(items, 0, n) == Stop(items, count, n)
        invariant stats == Written(room, items, count, count)
      {
        if count >= |items| {
          break;
        }
        stats := stats[count := items[count].left];
        if !items[count].ok {
          break;
        }
        if stats[count].d != count + 1 {
          break;
        }
        count := count + 1;
      }
    }

    method StoreV3(reply: Reply) returns (ret: Error)
      requires reply.Data? && KnownVersion(version)
      modifies this`version, this`sessionId, this`table
      ensures Accepted(View(), ret) == AcceptV3(old(View()), reply, scratch)
    {
      if reply.version != 3 {
        return Other;
      }
      if reply.len < SIZE_V3 {
        return Other;
      }
      version := reply.version;
      sessionId := reply.session;
      if reply.count == None {
        return Success;
      }
      var count := reply.count.value;
      if count >= MAX_STATISTIC_ID {
        count := MAX_STATISTIC_ID - 1;
      }
      var room := if table.TableV3? && count <= |table.stats| then table.stats else seq(count, scratch);
      var stats, stop := Unmarshal(room, reply.items, count);
      table := TableV3(count, stats);
      if stop < count {
        sessionId := 0;
      }
      return Success;
    }

    method StoreV2(reply: Reply) returns (ret: Error)
      requires reply.Data? && KnownVersion(version)
      modifies this`version, this`sessionId, this`table
      ensures Accepted(View(), ret) == AcceptV2(old(View()), reply)
    {
      if reply.version != 2 {
        return Other;
      }
      if reply.len != SIZE_V2 {
        return Other;
      }
      version := reply.version;
      sessionId := reply.session;
      table := TableV2(reply.fields);
      return Success;
    }

    method UpdateInfoInt(host: Host) returns (ret: Error)
      requires KnownVersion(version)
      modifies this`version, this`sessionId, this`table, host
      ensures KnownVersion(version)
      ensures var g := Negotiate(host.replies, old(host.sent), Asked(old(View())), old(sessionId));
              && host.sent == g.next
              && Accepted(View(), ret) ==
                 if g.outcome.Failed? then Accepted(old(View()).(session := g.session), g.outcome.error)
                 else Accept(old(View()).(session := g.session), g.outcome.version, g.outcome.reply, scratch)
    {
      var outcome := Request(host);
      if outcome.Failed? {
        return outcome.error;
      }
      if outcome.reply.len < SIZE_VERSION {
        return Other;
      }
      if outcome.version == 2 {
        ret := StoreV2(outcome.reply);
      } else {
        ret := StoreV3(outcome.reply);
      }
    }

    method UpdateInfo(host: Host) returns (ret: Error)
      requires KnownVersion(version)
      modifies this`version, this`sessionId, this`table, host
      ensures KnownVersion(version)
      ensures Accepted(View(), ret) == Update(old(View()), host.replies, old(host.sent), scratch)
      ensures host.sent == Negotiate(host.replies, old(host.sent), Asked(old(View())), old(sessionId)).next
      ensures old(host.sent) < host.sent <= old(host.sent) + 3
    {
      ret := UpdateInfoInt(host);
      if ret != Success {
        sessionId := 0;
      }
    }

    method CheckArgs(outArg: bool) returns (error: Error)
      ensures error == if !outArg then InvalidArg else if sessionId == 0 then NoInfo else Success
    {
      if !outArg {
        return InvalidArg;
      }
      if sessionId == 0 {
        return NoInfo;
      }
      return Success;
    }
  }

  method GetStat(handle: Handle?, outArg: bool, id: nat, both: bool) returns (answer: Answer)
    requires 0 < id
    ensures handle == null ==> answer == Fails(InvalidHandle)
    ensures handle != null ==> answer == if !outArg then Fails(InvalidArg) else Lookup(handle.View(), id, both)
  {
    if handle == null {
      return Fails(InvalidHandle);
    }
    var error := handle.CheckArgs(outArg);
    if error != Success {
      return Fails(error);
    }
    if both && handle.version == 2 {
      if !handle.table.TableV2? {
        return Undefined;
      }
      var f := FieldAt(handle.table.fields, id);
      return if !f.valid then Fails(NotAvailable) else Value(Stat(id, f.valid, f.value));
    }
    if handle.version != 3 || !handle.table.TableV3? {
      return Undefined;
    }
    var statIdx := id - 1;
    if statIdx >= handle.table.numStats {
      return Fails(UnsupportedVersion);
    }
    if statIdx >= |handle.table.stats| {
      return Undefined;
    }
    var stat := handle.table.stats[statIdx];
    return if !stat.valid then Fails(NotAvailable) else Value(stat);
  }

  // ---- what an update guarantees ----

  /** A table whose entry i is statistic i + 1. */
  ghost predicate Ordered(t: Table) {
    t.TableV3? && t.numStats <= |t.stats| && forall i :: 0 <= i < t.numStats ==> t.stats[i].d == i + 1
  }

  /** While there is a session, the table is of the handle's version and in order. */
  ghost predicate Coherent(s: State) {
    s.session != 0 ==> if s.version == 2 then s.table.TableV2? else s.version == 3 && Ordered(s.table)
  }

  /** Every statistic that will be used arrives in its place. */
  ghost predicate Complete(reply: Reply)
    requires reply.Data? && reply.count.Some?
  {
    forall j :: 0 <= j < reply.count.value && j + 1 < MAX_STATISTIC_ID ==> InOrder(reply.items, j)
  }

  /** The reply is one that the protocol version in force accepts. */
  ghost predicate WellFormed(version: nat, reply: Reply)
    requires reply.Data?
  {
    if version == 2 then reply.version == 2 && reply.len == SIZE_V2 else reply.version == 3 && reply.len >= SIZE_V3
  }

  /** The version 3 reply opens a session, but its count does not decode. */
  ghost predicate Blind(version: nat, reply: Reply)
    requires reply.Data?
  {
    version == 3 && WellFormed(3, reply) && reply.count == None && reply.session != 0
  }

  lemma StopIsComplete(reply: Reply)
    requires reply.Data? && reply.count.Some?
    ensures var n := Usable(reply.count.value); Stop(reply.items, 0, n) == n <==> Complete(reply)
  {
  }

  /** After accepting a reply, the handle is coherent unless the count was lost and the old table is bad. */
  lemma AcceptCoherentIff(s: State, version: nat, reply: Reply, scratch: nat -> Stat)
    requires reply.Data? && version in {2, 3} && Accept(s, version, reply, scratch).error == Success
    ensures Coherent(Accept(s, version, reply, scratch).state) <==> !Blind(version, reply) || Ordered(s.table)
  {
    if version == 3 && reply.count.Some? {
      var n := Usable(reply.count.value);
      var stop := Stop(reply.items, 0, n);
      if stop == n {
        forall i | 0 <= i < n ensures Written(Room(s.table, n, scratch), reply.items, n, n)[i].d == i + 1 {
          assert InOrder(reply.items, i);
        }
      }
    }
  }

  ghost predicate BlindUpdate(s: State, host: nat -> Reply, at: nat)
    requires KnownVersion(s.version)
  {
    var o := Negotiate(host, at, Asked(s), s.session).outcome;
    o.Got? && Blind(o.version, o.reply)
  }

  /** Exactly when an update leaves a handle whose lookups can be trusted. */
  lemma UpdateCoherentIff(s: State, host: nat -> Reply, at: nat, scratch: nat -> Stat)
    requires KnownVersion(s.version)
    ensures Coherent(Update(s, host, at, scratch).state) <==> !BlindUpdate(s, host, at) || Ordered(s.table)
  {
    var g := Negotiate(host, at, Asked(s), s.session);
    if g.outcome.Got? {
      var t, o := s.(session := g.session), g.outcome;
      assert Accept(t, o.version, o.reply, scratch).error == Success <==> WellFormed(o.version, o.reply);
      if WellFormed(o.version, o.reply) {
        AcceptCoherentIff(t, o.version, o.reply, scratch);
      }
    }
  }

  /** The reply that an update ends up with, if its negotiation succeeds. */
  ghost function Final(s: State, host: nat -> Reply, at: nat): (r: Outcome)
    requires KnownVersion(s.version)
  {
    Negotiate(host, at, Asked(s), s.session).outcome
  }

  /** There is information exactly after a well-formed reply with a session number that is not 0, which
      in version 3 must be complete or blind. Otherwise every lookup says so. */
  lemma InfoIff(s: State, host: nat -> Reply, at: nat, scratch: nat -> Stat)
    requires KnownVersion(s.version)
    ensures var o, t := Final(s, host, at), Update(s, host, at, scratch).state;
            && (t.session != 0 <==>
                 && o.Got? && WellFormed(o.version, o.reply) && o.reply.session != 0
                 && (o.version == 3 && o.reply.count.Some? ==> Complete(o.reply)))
            && (t.session != 0 ==> t.session == o.reply.session && t.version == o.version)
            && var error := Update(s, host, at, scratch).error;
               && (error == Success <==> o.Got? && WellFormed(o.version, o.reply))
               && (error != Success ==> t == s.(session := 0) && error == if o.Failed? then o.error else Other)
  {
    var o := Final(s, host, at);
    if o.Got? && o.reply.count.Some? { StopIsComplete(o.reply); }
  }

  /** With information, a lookup gives the statistic asked for, as this reply carries it. */
  lemma LookupAfterUpdate(s: State, host: nat -> Reply, at: nat, scratch: nat -> Stat, id: nat)
    requires KnownVersion(s.version) && 0 < id
    requires Update(s, host, at, scratch).state.session != 0 && !BlindUpdate(s, host, at)
    ensures var o, t := Final(s, host, at), Update(s, host, at, scratch).state;
            && Update(s, host, at, scratch).error == Success
            && o.Got? && (o.version == 2 || (o.version == 3 && o.reply.count.Some?))
            && (o.version == 2 ==>
                 if id < |o.reply.fields| && o.reply.fields[id].valid then
                   Lookup(t, id, true) == Value(Stat(id, true, o.reply.fields[id].value))
                 else Lookup(t, id, true) == Fails(NotAvailable))
            && (o.version == 3 ==> forall both ::
                 if id > o.reply.count.value || id >= MAX_STATISTIC_ID then
                   Lookup(t, id, both) == Fails(UnsupportedVersion)
                 else
                   && id <= |o.reply.items|
                   && var x := o.reply.items[id - 1].left;
                      x.d == id && Lookup(t, id, both) == if x.valid then Value(x) else Fails(NotAvailable))
  {
    InfoIff(s, host, at, scratch);
    var o := Final(s, host, at);
    if o.version == 3 {
      var n := Usable(o.reply.count.value);
      StopIsComplete(o.reply);
      if id <= n { assert InOrder(o.reply.items, id - 1); }
    }
  }

  /** Which version an update settles on, and which reply: it asks at the handle's version, or at 3 when
      that is not settled, starts over like a fresh handle when the session has changed, and falls back to
      version 2 when version 3 is refused. */
  lemma FirstReplyDecides(s: State, host: nat -> Reply, at: nat)
    requires KnownVersion(s.version)
    ensures host(at).Data? && s.session in {0, host(at).session} ==>
              Final(s, host, at) == Got(if s.version == 2 then 2 else 3, host(at))
    ensures host(at).Data? && s.session !in {0, host(at).session} ==>
              Final(s, host, at) == Final(State(0, 0, Nothing), host, at + 1)
    ensures host(at).NoReply? ==> Final(s, host, at) == Failed(Other)
    ensures host(at).Refused? ==>
              Final(s, host, at) == if s.version == 2 || host(at).unknownCommand then Failed(NotEnabled)
                                    else Final(State(2, 0, Nothing), host, at + 1)
  {
  }

  /** The table after a version 3 reply whose unmarshalling gets as far as `stop` of `n` entries: what came
      before the stop is the reply's, the entry that stopped it too if there is one, and the rest is the old
      table's. */
  lemma TableAfter(s: State, reply: Reply, scratch: nat -> Stat, n: nat, stop: nat, j: nat)
    requires reply.Data? && WellFormed(3, reply) && reply.count.Some?
    requires n == (if reply.count.value < 38 then reply.count.value else 38) && stop <= n
    requires (stop < n ==> !InOrder(reply.items, stop)) && forall i :: 0 <= i < stop ==> InOrder(reply.items, i)
    requires s.table.TableV3? && n <= |s.table.stats| && j < |s.table.stats|
    ensures var r := AcceptV3(s, reply, scratch);
            && r.error == Success && r.state.session == (if stop < n then 0 else reply.session)
            && r.state.table.TableV3? && r.state.table.numStats == n && |r.state.table.stats| == |s.table.stats|
            && r.state.table.stats[j] ==
               if j < n && j <= stop && j < |reply.items| then reply.items[j].left else s.table.stats[j]
  {
  }

  // ---- runs ----

  datatype Point = Point(state: State, at: nat)

  /** A fresh handle after k updates against one stream of replies. */
  function RunTo(host: nat -> Reply, scratch: nat -> Stat, k: nat): (r: Point)
    ensures KnownVersion(r.state.version) && r.at <= 3 * k
  {
    if k == 0 then Point(State(0, 0, Nothing), 0)
    else
      var p := RunTo(host, scratch, k - 1);
      Point(Update(p.state, host, p.at, scratch).state, Negotiate(host, p.at, Asked(p.state), p.state.session).next)
  }

  method Run(handle: Handle, host: Host, k: nat)
    requires handle.View() == State(0, 0, Nothing) && host.sent == 0
    modifies handle`version, handle`sessionId, handle`table, host
    ensures Point(handle.View(), host.sent) == RunTo(host.replies, handle.scratch, k)
    ensures host.sent <= 3 * k
  {
    for i := 0 to k
      invariant Point(handle.View(), host.sent) == RunTo(host.replies, handle.scratch, i)
    {
      var _ := handle.UpdateInfo(host);
    }
  }

  /** Update number j of the run (from 0) loses the count. */
  ghost predicate BlindAt(host: nat -> Reply, scratch: nat -> Stat, j: nat) {
    var p := RunTo(host, scratch, j);
    BlindUpdate(p.state, host, p.at)
  }

  /** No lookup returns another statistic, and only the version 3 getters on a version 2 handle read the
      wrong kind of table. */
  ghost predicate Sound(s: State) {
    forall id: nat, both :: 0 < id ==> SoundFor(s, id, both)
  }

  ghost predicate SoundFor(s: State, id: nat, both: bool)
    requires 0 < id
  {
    match Lookup(s, id, both)
    case Fails(_) => true
    case Value(x) => x.d == id
    case Undefined => s.version == 2 && !both
  }

  /** Every entry in use that is valid is the statistic of its place. */
  ghost predicate ValidInPlace(t: Table) {
    && t.TableV3? && t.numStats <= |t.stats|
    && forall i :: 0 <= i < t.numStats && t.stats[i].valid ==> t.stats[i].d == i + 1
  }

  /** A handle at version 3 with a session. */
  lemma SoundV3Iff(s: State)
    requires s.version == 3 && s.session != 0
    ensures Sound(s) <==> ValidInPlace(s.table)
  {
    if Sound(s) {
      assert SoundFor(s, 1, true);
      assert s.table.TableV3?;
      assert SoundFor(s, |s.table.stats| + 1, true);
      forall i | 0 <= i < s.table.numStats && s.table.stats[i].valid ensures s.table.stats[i].d == i + 1 {
        assert SoundFor(s, i + 1, true);
      }
    }
  }

  /** Exactly when the lookups after an update can be trusted: the count was not lost, or it was and the
      table from before has every valid entry in its place. */
  lemma UpdateSoundIff(s: State, host: nat -> Reply, at: nat, scratch: nat -> Stat)
    requires KnownVersion(s.version)
    ensures Sound(Update(s, host, at, scratch).state) <==> !BlindUpdate(s, host, at) || ValidInPlace(s.table)
  {
    var t := Update(s, host, at, scratch).state;
    if BlindUpdate(s, host, at) {
      SoundV3Iff(t);
    } else {
      UpdateCoherentIff(s, host, at, scratch);
      if t.session != 0 && t.version == 3 { SoundV3Iff(t); }
    }
  }

  /** The same after any run of updates of a fresh handle. */
  lemma LookupSoundIff(host: nat -> Reply, scratch: nat -> Stat, k: nat)
    ensures Sound(RunTo(host, scratch, k).state) <==>
            k == 0 || !BlindAt(host, scratch, k - 1) || ValidInPlace(RunTo(host, scratch, k - 1).state.table)
  {
    if k > 0 {
      var p := RunTo(host, scratch, k - 1);
      UpdateSoundIff(p.state, host, p.at, scratch);
    }
  }

  /** An entry that fails to decode or is out of place: the update reports success, and every later
      lookup before the next update reports no information. */
  lemma FailedEntryMeansNoInfo(host: nat -> Reply, scratch: nat -> Stat, k: nat, j: nat, id: nat, both: bool)
    requires k > 0 && 0 < id
    requires var p := RunTo(host, scratch, k - 1); var o := Final(p.state, host, p.at);
             && o.Got? && o.version == 3 && WellFormed(3, o.reply) && o.reply.count.Some?
             && j < o.reply.count.value && j + 1 < MAX_STATISTIC_ID && !InOrder(o.reply.items, j)
    ensures var p := RunTo(host, scratch, k - 1); Update(p.state, host, p.at, scratch).error == Success
    ensures Lookup(RunTo(host, scratch, k).state, id, both) == Fails(NoInfo)
  {
    var p := RunTo(host, scratch, k - 1);
    InfoIff(p.state, host, p.at, scratch);
    StopIsComplete(Final(p.state, host, p.at).reply);
  }

  /** The run in which a blind update makes a rejected table visible: statistic 7 is answered for 1. */
  function Misplaced(v: int): (r: nat -> Reply) {
    n => if n == 0 then Data(SIZE_V3, 3, 5, [], Some(1), [Item(true, Stat(7, true, v))])
         else Data(SIZE_V3, 3, 5, [], None, [])
  }

  lemma BlindUpdateAnswersAnother(scratch: nat -> Stat, v: int)
    ensures Lookup(RunTo(Misplaced(v), scratch, 1).state, 1, true) == Fails(NoInfo)
    ensures Lookup(RunTo(Misplaced(v), scratch, 2).state, 1, true) == Value(Stat(7, true, v))
    ensures !Sound(RunTo(Misplaced(v), scratch, 2).state)
  {
    var host := Misplaced(v);
    var bad := [Item(true, Stat(7, true, v))];
    assert Stop(bad, 0, 1) == 0;
    assert Negotiate(host, 0, 3, 0) == Negotiated(Got(3, host(0)), 0, 1);
    var one := RunTo(host, scratch, 1);
    assert one.state.version == 3 && one.state.session == 0 && one.at == 1;
    assert one.state.table.stats[0] == Stat(7, true, v);
    assert Negotiate(host, 1, 3, 0) == Negotiated(Got(3, host(1)), 0, 2);
    var two := RunTo(host, scratch, 2).state;
    assert two == State(3, 5, one.state.table);
    assert !SoundFor(two, 1, true);
  }
}
