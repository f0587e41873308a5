/** HGFS directory listing: requests at a negotiated version, replies holding batches of
    entries, and a filler that may run full. */
module Readdir {
  import opened Basics

  const NAME_MAX: nat := 255

  datatype DirEntry = DirEntry(name: string, attr: nat)

  datatype Version = V1 | V2 | V3

  /** Unescapable is the escape function's own negative result, which becomes the listing's. */
  datatype Errno = EPROTO | ENAMETOOLONG | ENOSPC | EIO | OtherErrno | Unescapable

  datatype Code = Zero | Error(errno: Errno)

  /** How the server and the transport treat one request: answer with up to size + 1 entries,
      refuse the protocol version, or fail. */
  datatype Answer = Batch(size: nat) | Refuse | Fail(errno: Errno)

  /** The answer to the n-th request, which may depend on the version it is made at. */
  type Plan = (nat, Version) -> Answer

  /** The empty name is the protocol's end mark, so no directory entry has it. */
  predicate Named(es: seq<DirEntry>) {
    forall i :: 0 <= i < |es| ==> es[i].name != ""
  }

  type Escape = string -> Option<string>

  datatype Item = Item(name: string, attr: nat)

  function Rank(v: Version): (r: nat) {
    match v case V1 => 1 case V2 => 2 case V3 => 3
  }

  function Older(v: Version): (r: Version)
    requires v != V1
    ensures Rank(r) < Rank(v)
  {
    if v == V3 then V2 else V1
  }

  /** The entries of a reply: a stretch of the directory from the offset on at version 3, where an
      empty one means the end; a single entry otherwise, where an empty name means the end. */
  function Reply(dir: seq<DirEntry>, v: Version, pos: nat, size: nat): (r: seq<DirEntry>)
    ensures v != V3 ==> |r| == 1
    ensures pos < |dir| ==> 1 <= |r| <= |dir| - pos && forall i :: 0 <= i < |r| ==> r[i] == dir[pos + i]
  {
    if pos >= |dir| then (if v == V3 then [] else [DirEntry("", 0)])
    else if v != V3 then [dir[pos]]
    else dir[pos..if size < |dir| - pos then pos + size + 1 else |dir|]
  }

  // ---- what one reply delivers to a filler with room ----

  datatype Outcome = More | AtEnd | Stuck

  datatype Walked = Walked(items: seq<Item>, end: nat, outcome: Outcome)

  /** From index `at` on, entries are delivered in turn.  An over-long name is skipped together with
      the rest of its reply, which is asked for again; a name whose escaped form does not fit is
      looked at once more for each remaining entry of the reply and ends the listing. */
  function Walk(es: seq<DirEntry>, at: nat, esc: Escape): (w: Walked)
    requires at <= |es|
    ensures at <= w.end <= |es|
    ensures at < |es| && w.outcome.More? ==> at < w.end
    decreases |es| - at
  {
    if at == |es| then Walked([], at, More)
    else if |es[at].name| > NAME_MAX then Walked([], at + 1, More)
    else if es[at].name == "" then Walked([], at, AtEnd)
    else match esc(es[at].name)
      case None => Walked([], |es|, Stuck)
      case Some(name) =>
        var w := Walk(es, at + 1, esc);
        w.(items := [Item(name, es[at].attr)] + w.items)
  }

  // ---- a whole listing for a filler with room ----

  datatype Listed = Listed(items: seq<Item>, code: Code)

  datatype Settled = Settled(n: nat, v: Version, answer: Answer)

  /** One request with its retries: each refused version is given up for an older one. */
  function Negotiate(plan: Plan, n: nat, v: Version): (r: Settled)
    ensures Rank(r.v) <= Rank(v) && r.n == n + 1 + Rank(v) - Rank(r.v)
    ensures r.answer.Refuse? ==> r.v == V1
    ensures r.answer == plan(r.n - 1, r.v)
    ensures forall w :: Rank(r.v) < Rank(w) <= Rank(v) ==> plan(n + Rank(v) - Rank(w), w).Refuse?
    decreases Rank(v)
  {
    if plan(n, v).Refuse? && v != V1 then Negotiate(plan, n + 1, Older(v)) else Settled(n + 1, v, plan(n, v))
  }

  datatype Turn = Ends(items: seq<Item>, code: Code) | GoesOn(items: seq<Item>, n: nat, v: Version, pos: nat)

  /** One round of the listing: a request with its retries, and the walk over the reply. */
  function Round(dir: seq<DirEntry>, plan: Plan, n: nat, v: Version, pos: nat, esc: Escape): (r: Turn)
    requires pos <= |dir|
    ensures r.GoesOn? ==> pos < r.pos <= |dir|
  {
    var s := Negotiate(plan, n, v);
    if s.answer.Fail? then Ends([], Error(s.answer.errno))
    else if s.answer.Refuse? then Ends([], Error(EPROTO))
    else if pos == |dir| then Ends([], Zero)
    else
      var w := Walk(Reply(dir, s.v, pos, s.answer.size), 0, esc);
      match w.outcome
      case AtEnd => Ends(w.items, Zero)
      case Stuck => Ends(w.items, Error(Unescapable))
      case More => GoesOn(w.items, s.n, s.v, pos + w.end)
  }

  /** The items delivered from position `pos` on, when the next request is the n-th and goes out at
      version `v`, and the code the listing ends with. */
  function Listing(dir: seq<DirEntry>, plan: Plan, n: nat, v: Version, pos: nat, esc: Escape): (r: Listed)
    requires pos <= |dir|
    decreases |dir| - pos
  {
    match Round(dir, plan, n, v, pos, esc)
    case Ends(items, code) => Listed(items, code)
    case GoesOn(items, n', v', pos') =>
      var rest := Listing(dir, plan, n', v', pos', esc);
      Listed(items + rest.items, rest.code)
  }

  // ---- the client ----

  class Server {
    const dir: seq<DirEntry>
    const plan: Plan
    var requests: nat

    constructor (dir: seq<DirEntry>, plan: Plan)
      ensures this.dir == dir && this.plan == plan && requests == 0
    {
      this.dir, this.plan, requests := dir, plan, 0;
    }

    method Ask(v: Version) returns (answer: Answer)
      modifies this
      ensures answer == plan(old(requests), v) && requests == old(requests) + 1
    {
      answer := plan(requests, v);
      requests := requests + 1;
    }
  }

  class Filler {
    const capacity: Option<nat>
    var got: seq<Item>

    constructor (capacity: Option<nat>)
      ensures this.capacity == capacity && got == []
    {
      this.capacity, got := capacity, [];
    }

    ghost predicate Full()
      reads this
    {
      capacity.Some? && capacity.value <= |got|
    }

    method Fill(item: Item) returns (refused: bool)
      modifies this
      ensures refused <==> old(Full())
      ensures got == if refused then old(got) else old(got) + [item]
    {
      refused := capacity.Some? && capacity.value <= |got|;
      if !refused { got := got + [item]; }
    }
  }

  class Client {
    var versionSearchRead: Version

    constructor ()
      ensures versionSearchRead == V3
    {
      versionSearchRead := V3;
    }

    /** Asks for the entries at an offset, falling back to older versions as the server refuses them. */
    method RequestDirEntries(server: Server, offset: nat) returns (result: Code, used: Version, entries: seq<DirEntry>)
      modifies this, server
      ensures var s := Negotiate(server.plan, old(server.requests), old(versionSearchRead));
              server.requests == s.n && versionSearchRead == used == s.v &&
              match s.answer
              case Batch(size) => result == Zero && entries == Reply(server.dir, used, offset, size)
              case Refuse => result == Error(EPROTO)
              case Fail(errno) => result == Error(errno)
    {
      while true
        invariant Negotiate(server.plan, server.requests, versionSearchRead)
               == Negotiate(server.plan, old(server.requests), old(versionSearchRead))
        decreases Rank(versionSearchRead)
      {
        used := versionSearchRead;
        var answer := server.Ask(used);
        match answer
        case Batch(size) =>
          return Zero, used, Reply(server.dir, used, offset, size);
        case Fail(errno) =>
          return Error(errno), used, [];
        case Refuse =>
          if used == V3 {
            versionSearchRead := V2;
          } else if used == V2 {
            versionSearchRead := V1;
          } else {
            return Error(EPROTO), used, [];
          }
      }
    }
  }

  /** `all` is the walk over a whole reply behind what the filler had before it; `got` is what the
      filler has before entry `at`. */
  ghost predicate Ahead(es: seq<DirEntry>, at: nat, esc: Escape, got: seq<Item>, all: Walked)
    requires at <= |es|
  {
    var rest := Walk(es, at, esc);
    all == rest.(items := got + rest.items)
  }

  lemma AheadStep(es: seq<DirEntry>, at: nat, esc: Escape, got: seq<Item>, all: Walked)
    requires at < |es| && Ahead(es, at, esc, got, all)
    requires 0 < |es[at].name| <= NAME_MAX && esc(es[at].name).Some?
    ensures var item := Item(esc(es[at].name).value, es[at].attr);
            Ahead(es, at + 1, esc, got + [item], all) && got < all.items
  {
    Assoc(got, [Item(esc(es[at].name).value, es[at].attr)], Walk(es, at + 1, esc).items);
  }

  lemma AheadStops(es: seq<DirEntry>, at: nat, esc: Escape, got: seq<Item>, all: Walked)
    requires at <= |es| && Ahead(es, at, esc, got, all) && Walk(es, at, esc).items == []
    ensures all == Walk(es, at, esc).(items := got)
  {
    assert got + [] == got;
  }

  /** Delivers the entries of one reply.  A filler that runs full stops it with ENOSPC. */
  method ReadDirFromReply(pos: nat, entries: seq<DirEntry>, used: Version, esc: Escape, filler: Filler)
    returns (result: Code, newPos: nat, done: bool)
    requires used != V3 ==> |entries| == 1
    requires pos + |entries| < 0x1_0000_0000
    modifies filler
    ensures var w := Walk(entries, 0, esc);
            if result == Error(ENOSPC) then
              && filler.Full() && old(filler.got) <= filler.got && filler.got < old(filler.got) + w.items && !done
            else
              && filler.got == old(filler.got) + w.items && newPos == pos + w.end
              && done == (w.outcome.AtEnd? || entries == [])
              && (result == Error(Unescapable) <==> w.outcome.Stuck?)
    ensures result in {Zero, Error(ENAMETOOLONG), Error(ENOSPC), Error(Unescapable)}
  {
    result, newPos, done := Zero, pos, false;
    var replyCount, at := |entries|, 0;
    if used == V3 && replyCount == 0 {
      return Zero, pos, true;
    }
    ghost var w := Walk(entries, 0, esc);
    ghost var all := w.(items := filler.got + w.items);
    while replyCount > 0
      invariant 0 <= replyCount <= |entries| && !done
      invariant old(filler.got) <= filler.got && newPos == pos + (|entries| - replyCount)
      invariant 0 <= at <= |entries| - replyCount && Ahead(entries, at, esc, filler.got, all)
      invariant at < |entries| - replyCount ==> StuckAt(entries, at, esc) && result == Error(Unescapable)
      invariant at == |entries| - replyCount ==> result == Zero
    {
      replyCount := replyCount - 1;
      var entry := entries[at];
      if |entry.name| > NAME_MAX {
        AheadStops(entries, at, esc, filler.got, all);
        return Error(ENAMETOOLONG), newPos + 1, false;
      } else if entry.name == "" {
        AheadStops(entries, at, esc, filler.got, all);
        return Zero, newPos, true;
      }
      var escaped := esc(entry.name);
      if escaped.None? {
        result := Error(Unescapable);
        newPos := newPos + 1;
        continue;
      }
      AheadStep(entries, at, esc, filler.got, all);
      var refused := filler.Fill(Item(escaped.value, entry.attr));
      if refused {
        return Error(ENOSPC), newPos, false;
      }
      newPos := newPos + 1;
      at := at + 1;
    }
    AheadStops(entries, at, esc, filler.got, all);
  }

  predicate StuckAt(es: seq<DirEntry>, at: nat, esc: Escape) {
    at < |es| && 0 < |es[at].name| <= NAME_MAX && esc(es[at].name).None?
  }

  /** The body of the listing loop: one request and the walk over its reply.  `stop` says that the
      loop is left, by an error, by a full filler or at the end of the directory. */
  method ReadRound(client: Client, server: Server, pos: nat, esc: Escape, filler: Filler)
    returns (stop: bool, result: Code, newPos: nat)
    requires pos <= |server.dir| < 0xffff_ffff
    modifies client, server, filler
    ensures var turn := Round(server.dir, server.plan, old(server.requests), old(client.versionSearchRead), pos, esc);
            || (stop && result == Zero && filler.Full()
                && old(filler.got) <= filler.got && filler.got < old(filler.got) + turn.items)
            || (filler.got == old(filler.got) + turn.items &&
                match turn
                case Ends(_, code) => stop && result == code
                case GoesOn(_, n, v, next) =>
                  !stop && newPos == next && server.requests == n && client.versionSearchRead == v)
  {
    var used, entries, done;
    newPos := pos;
    result, used, entries := client.RequestDirEntries(server, pos);
    if result != Zero { return true, result, pos; }
    result, newPos, done := ReadDirFromReply(pos, entries, used, esc, filler);
    if result == Error(ENAMETOOLONG) {
      return done, Zero, newPos;
    } else if result == Error(ENOSPC) {
      return true, Zero, newPos;
    } else if result != Zero {
      return true, result, newPos;
    }
    return done, result, newPos;
  }

  /** Having delivered `got`, the listing still has to come to `all`. */
  ghost predicate Remaining(dir: seq<DirEntry>, plan: Plan, n: nat, v: Version, pos: nat, esc: Escape,
                            got: seq<Item>, all: Listed)
  {
    && pos <= |dir|
    && all == Listed(got + Listing(dir, plan, n, v, pos, esc).items, Listing(dir, plan, n, v, pos, esc).code)
  }

  lemma RoundAdvances(dir: seq<DirEntry>, plan: Plan, n: nat, v: Version, pos: nat, esc: Escape,
                      got: seq<Item>, all: Listed)
    requires Remaining(dir, plan, n, v, pos, esc, got, all)
    ensures var turn := Round(dir, plan, n, v, pos, esc);
            && got + turn.items <= all.items
            && (turn.Ends? ==> all == Listed(got + turn.items, turn.code))
            && (turn.GoesOn? ==> Remaining(dir, plan, turn.n, turn.v, turn.pos, esc, got + turn.items, all))
  {
    var whole := Listing(dir, plan, n, v, pos, esc);
    match Round(dir, plan, n, v, pos, esc)
    case Ends(items, code) =>
      assert whole == Listed(items, code);
    case GoesOn(items, n', v', pos') =>
      var rest := Listing(dir, plan, n', v', pos', esc);
      assert whole == Listed(items + rest.items, rest.code);
      Assoc(got, items, rest.items);
  }

  /** The whole listing: the filler receives the items of `Listing`, or, once it runs full, a proper
      prefix of them, and the listing ends; without a full filler the code is the listing's own. */
  method Readdir(client: Client, server: Server, esc: Escape, filler: Filler) returns (result: Code)
    requires |server.dir| < 0xffff_ffff && filler.got == []
    modifies client, server, filler
    ensures var all := Listing(server.dir, server.plan, old(server.requests), old(client.versionSearchRead), 0, esc);
            || (filler.got == all.items && result == all.code)
            || (filler.Full() && filler.got < all.items && result == Zero)
  {
    var stop, pos := false, 0;
    ghost var all := Listing(server.dir, server.plan, server.requests, client.versionSearchRead, 0, esc);
    result := Zero;
    while !stop
      invariant 0 <= pos
      invariant stop ==> || (filler.got == all.items && result == all.code)
                         || (filler.Full() && filler.got < all.items && result == Zero)
      invariant !stop ==>
        Remaining(server.dir, server.plan, server.requests, client.versionSearchRead, pos, esc, filler.got, all)
      decreases !stop, |server.dir| - pos
    {
      RoundAdvances(server.dir, server.plan, server.requests, client.versionSearchRead, pos, esc, filler.got, all);
      stop, result, pos := ReadRound(client, server, pos, esc, filler);
    }
  }

  // ---- what a listing should deliver ----

  /** An entry shows when its name is within the limit and its escaped form fits. */
  predicate Shows(e: DirEntry, esc: Escape) {
    0 < |e.name| <= NAME_MAX && esc(e.name).Some?
  }

  /** The directory's visible entries from a position on, in its own order. */
  function Visible(dir: seq<DirEntry>, pos: nat, esc: Escape): (r: seq<Item>)
    requires pos <= |dir|
    decreases |dir| - pos
  {
    if pos == |dir| then []
    else if Shows(dir[pos], esc) then [Item(esc(dir[pos].name).value, dir[pos].attr)] + Visible(dir, pos + 1, esc)
    else Visible(dir, pos + 1, esc)
  }

  /** What is visible before the first name of legal length that cannot be escaped, and how a listing
      that meets with no other failure ends. */
  function Reached(dir: seq<DirEntry>, pos: nat, esc: Escape): (r: Listed)
    requires pos <= |dir|
    decreases |dir| - pos
  {
    if pos == |dir| then Listed([], Zero)
    else if StuckAt(dir, pos, esc) then Listed([], Error(Unescapable))
    else
      var rest := Reached(dir, pos + 1, esc);
      if Shows(dir[pos], esc) then Listed([Item(esc(dir[pos].name).value, dir[pos].attr)] + rest.items, rest.code)
      else rest
  }

  ghost predicate AllEscape(dir: seq<DirEntry>, pos: nat, esc: Escape) {
    forall i: nat :: pos <= i < |dir| ==> !StuckAt(dir, i, esc)
  }

  /** All visible entries are reached exactly when every name of legal length can be escaped. */
  lemma {:induction false} ReachedIsVisibleIff(dir: seq<DirEntry>, pos: nat, esc: Escape)
    requires pos <= |dir|
    ensures Reached(dir, pos, esc).items <= Visible(dir, pos, esc)
    ensures Reached(dir, pos, esc) == Listed(Visible(dir, pos, esc), Zero) <==> AllEscape(dir, pos, esc)
    ensures Reached(dir, pos, esc).code == Zero <==> AllEscape(dir, pos, esc)
    decreases |dir| - pos
  {
    if pos < |dir| {
      ReachedIsVisibleIff(dir, pos + 1, esc);
      assert AllEscape(dir, pos, esc) <==> !StuckAt(dir, pos, esc) && AllEscape(dir, pos + 1, esc);
    }
  }

  /** A reply that starts at `pos` delivers what is reached in its stretch and leaves the rest to reach. */
  lemma {:induction false} WalkExact(dir: seq<DirEntry>, pos: nat, es: seq<DirEntry>, at: nat, esc: Escape)
    requires Named(dir) && at <= |es| && pos + |es| <= |dir|
    requires forall i :: 0 <= i < |es| ==> es[i] == dir[pos + i]
    ensures var w, all := Walk(es, at, esc), Reached(dir, pos + at, esc);
            match w.outcome
            case AtEnd => false
            case Stuck => all == Listed(w.items, Error(Unescapable))
            case More => var rest := Reached(dir, pos + w.end, esc); all == Listed(w.items + rest.items, rest.code)
    decreases |es| - at
  {
    if at < |es| {
      var e, p := es[at], pos + at;
      assert e == dir[p];
      if |e.name| <= NAME_MAX && esc(e.name).Some? {
        WalkExact(dir, pos, es, at + 1, esc);
        var item, w := [Item(esc(e.name).value, e.attr)], Walk(es, at + 1, esc);
        assert Walk(es, at, esc) == Walked(item + w.items, w.end, w.outcome);
        var next := Reached(dir, p + 1, esc);
        assert Reached(dir, p, esc) == Listed(item + next.items, next.code);
        Assoc(item, w.items, Reached(dir, pos + w.end, esc).items);
      }
    }
  }

  /** The same for the batch that a request at `pos` is answered with. */
  lemma BatchExact(dir: seq<DirEntry>, v: Version, pos: nat, size: nat, esc: Escape)
    requires Named(dir) && pos < |dir|
    ensures var w, all := Walk(Reply(dir, v, pos, size), 0, esc), Reached(dir, pos, esc);
            match w.outcome
            case AtEnd => false
            case Stuck => all == Listed(w.items, Error(Unescapable))
            case More =>
              && pos + w.end <= |dir|
              && var rest := Reached(dir, pos + w.end, esc); all == Listed(w.items + rest.items, rest.code)
  {
    WalkExact(dir, pos, Reply(dir, v, pos, size), 0, esc);
  }

  lemma RoundExact(dir: seq<DirEntry>, plan: Plan, n: nat, v: Version, pos: nat, esc: Escape)
    requires Named(dir) && pos <= |dir|
    ensures var answer, all := Negotiate(plan, n, v).answer, Reached(dir, pos, esc);
            match Round(dir, plan, n, v, pos, esc)
            case Ends(items, code) =>
              if answer.Batch? then all == Listed(items, code)
              else items == [] && code == if answer.Fail? then Error(answer.errno) else Error(EPROTO)
            case GoesOn(items, _, _, pos') =>
              var rest := Reached(dir, pos', esc);
              all == Listed(items + rest.items, rest.code)
  {
    var s := Negotiate(plan, n, v);
    if s.answer.Batch? && pos < |dir| {
      BatchExact(dir, s.v, pos, s.answer.size, esc);
    }
  }

  /** Whatever the batching, the refusals and the failures: a listing delivers what is reached, each
      entry once and in order, or, if a request fails, a prefix of it and that request's error. */
  lemma {:induction false} ListingExact(dir: seq<DirEntry>, plan: Plan, n: nat, v: Version, pos: nat, esc: Escape)
    requires Named(dir) && pos <= |dir|
    ensures var r, all := Listing(dir, plan, n, v, pos, esc), Reached(dir, pos, esc);
            r.items <= all.items && (r == all || FailsWith(plan, r.code)) && (Steady(plan) ==> r == all)
    decreases |dir| - pos
  {
    var turn := Round(dir, plan, n, v, pos, esc);
    RoundExact(dir, plan, n, v, pos, esc);
    if turn.GoesOn? {
      ListingExact(dir, plan, turn.n, turn.v, turn.pos, esc);
    } else {
      var s := Negotiate(plan, n, v);
      assert Steady(plan) ==> !plan(s.n - 1, s.v).Fail? && !plan(s.n - 1, V1).Refuse?;
      assert Fatal(s.answer, s.v, turn.code) ==> FailsWith(plan, turn.code);
    }
  }

  /** An answer at that version ends a listing with that code: a failure, or the refusal of the oldest version. */
  predicate Fatal(answer: Answer, v: Version, code: Code) {
    if answer.Refuse? then v == V1 && code == Error(EPROTO) else answer.Fail? && code == Error(answer.errno)
  }

  ghost predicate FailsWith(plan: Plan, code: Code) {
    exists n: nat, v :: Fatal(plan(n, v), v, code)
  }

  /** No request fails, and version 1 is never refused. */
  ghost predicate Steady(plan: Plan) {
    forall n: nat, v :: !plan(n, v).Fail? && !plan(n, V1).Refuse?
  }

  /** Against any server that does not fail, however it batches and whichever versions it refuses, the
      listing is exactly the visible entries with a good end if and only if every name of legal length
      can be escaped. */
  lemma ListingExactIff(dir: seq<DirEntry>, plan: Plan, v: Version, esc: Escape)
    requires Named(dir) && Steady(plan)
    ensures Listing(dir, plan, 0, v, 0, esc) == Listed(Visible(dir, 0, esc), Zero) <==> AllEscape(dir, 0, esc)
  {
    ListingExact(dir, plan, 0, v, 0, esc);
    ReachedIsVisibleIff(dir, 0, esc);
  }

  /** One name that cannot be escaped hides every entry behind it and fails the listing. */
  lemma UnescapableEndsListing(e: DirEntry, rest: seq<DirEntry>, plan: Plan, v: Version, esc: Escape)
    requires Named(rest) && Steady(plan) && 0 < |e.name| <= NAME_MAX && esc(e.name).None?
    ensures Listing([e] + rest, plan, 0, v, 0, esc) == Listed([], Error(Unescapable))
  {
    ListingExact([e] + rest, plan, 0, v, 0, esc);
  }
}
