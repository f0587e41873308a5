/** Per-operation protocol versions that fall back when the server refuses them, and the delete and
    rename calls that clear a read-only attribute once. */
module VersionNegotiation {
  import opened Basics

  datatype Op = Open | Read | Write | Close | SearchOpen | SearchRead | Getattr | Setattr | CreateDir
    | DeleteFile | DeleteDir | Rename | QueryVolumeInfo | CreateSymlink

  datatype Status = StatusSuccess | NoSuchFileOrDir | InvalidName | InvalidHandle | OperationNotPermitted | FileExists
    | NotDirectory | DirNotEmpty | ProtocolError | AccessDenied | SharingViolation | NoSpace | OperationNotSupported
    | NameTooLong | GenericError | UnknownStatus(code: nat)

  const EPERM: int := 1
  const ENOENT: int := 2
  const EIO: int := 5
  const EBADF: int := 9
  const EACCES: int := 13
  const EEXIST: int := 17
  const ENOTDIR: int := 20
  const ENOSPC: int := 28
  const ENAMETOOLONG: int := 36
  const ENOTEMPTY: int := 39
  const EPROTO: int := 71
  const EOPNOTSUPP: int := 95

  /** Only one status means that the version is not supported, and three that access is denied. */
  function ConvertStatus(s: Status): (r: int)
    ensures r <= 0 && (r == 0 <==> s == StatusSuccess) && (r == -EPROTO <==> s == ProtocolError)
    ensures Denied(r) <==> s in {AccessDenied, SharingViolation, OperationNotPermitted}
  {
    match s
    case StatusSuccess => 0
    case NoSuchFileOrDir => -ENOENT
    case InvalidName => -ENOENT
    case InvalidHandle => -EBADF
    case OperationNotPermitted => -EPERM
    case FileExists => -EEXIST
    case NotDirectory => -ENOTDIR
    case DirNotEmpty => -ENOTEMPTY
    case ProtocolError => -EPROTO
    case AccessDenied => -EACCES
    case SharingViolation => -EACCES
    case NoSpace => -ENOSPC
    case OperationNotSupported => -EOPNOTSUPP
    case NameTooLong => -ENAMETOOLONG
    case GenericError => -EIO
    case UnknownStatus(_) => -EIO
  }

  predicate Denied(result: int) {
    result == -EACCES || result == -EPERM
  }

  // ---- versions ----

  /** The operations that have a version 2 between 3 and 1. */
  predicate HasV2(op: Op) {
    op in {Open, SearchRead, Getattr, Setattr, CreateDir}
  }

  predicate IsVersion(op: Op, v: nat) {
    v == 1 || v == 3 || (v == 2 && HasV2(op))
  }

  /** How many downgrades version v of op still has. */
  function Left(op: Op, v: nat): (r: nat)
    requires IsVersion(op, v)
  {
    if v == 1 then 0 else if v == 2 then 1 else if HasV2(op) then 2 else 1
  }

  function Older(op: Op, v: nat): (r: nat)
    requires IsVersion(op, v) && v > 1
    ensures IsVersion(op, r) && r < v && Left(op, r) + 1 == Left(op, v)
    ensures r == 2 <==> v == 3 && op in {Open, SearchRead, Getattr, Setattr, CreateDir}
  {
    if v == 3 && HasV2(op) then 2 else 1
  }

  /** What happens to one request: errors of packing, sending and unpacking (0 for none), and the
      status of the reply. */
  datatype Step = Step(packErr: nat, sendErr: nat, status: Status, unpackErr: nat)

  /** Owner-write and the other permission bits. */
  datatype Attr = Attr(ownerWrite: bool, others: nat)

  /** What the client did: requests sent, with the version and the status of the reply (None when the
      transport failed); the attributes that setattr is called with; the attempt to clear read-only, and
      its success with the attributes found; the attempt to restore it. */
  datatype Event = Sent(op: Op, v: nat, status: Option<Status>)
    | Putting(path: string, attr: Attr)
    | Clearing(path: string)
    | Cleared(path: string, found: Attr)
    | Restoring(path: string)

  /** The events since the last reset, oldest first. */
  datatype Log = Start | Then(front: Log, last: Event)

  predicate IsSend(e: Event, op: Op) {
    e.Sent? && e.op == op
  }

  /** A request of op that the server refused while an older version was left. */
  predicate IsDowngrade(e: Event, op: Op) {
    IsSend(e, op) && e.status == Some(ProtocolError) && e.v > 1
  }

  /** The version switch of op after an event. */
  function NextVersion(op: Op, v: nat, e: Event): (r: nat)
    requires IsVersion(op, v)
    ensures IsVersion(op, r)
  {
    if IsDowngrade(e, op) && v > 1 then Older(op, v) else v
  }

  /** The version switch of op after a log. */
  function Replay(log: Log, op: Op): (r: nat)
    ensures IsVersion(op, r)
  {
    match log
    case Start => 3
    case Then(front, e) => NextVersion(op, Replay(front, op), e)
  }

  /** Every request was sent at the version that the log before it determines. */
  ghost predicate Obeys(log: Log) {
    match log
    case Start => true
    case Then(front, e) => Obeys(front) && (e.Sent? ==> e.v == Replay(front, e.op))
  }

  /** The operations that look into a successful reply and can fail on it. */
  predicate Unpacks(op: Op) {
    op in {Open, Read, Getattr}
  }

  /** The result of a request that was sent. */
  function Result(op: Op, step: Step): (r: int) {
    if step.sendErr != 0 then 0 - step.sendErr
    else if step.status == StatusSuccess then (if Unpacks(op) then 0 - step.unpackErr else 0)
    else ConvertStatus(step.status)
  }

  function Answer(step: Step): (r: Option<Status>) {
    if step.sendErr == 0 then Some(step.status) else None
  }

  /** What the caller is told: statfs hides one error. */
  function Reported(op: Op, step: Step): (r: int) {
    if op == QueryVolumeInfo && Answer(step) == Some(OperationNotPermitted) then 0 else Result(op, step)
  }

  /** What a retry loop returns whose last attempt is this step; setattr sends even when packing fails. */
  function Outcome(op: Op, last: Step): (r: int) {
    if last.packErr != 0 && op != Setattr then 0 - last.packErr else Reported(op, last)
  }

  /** When a call succeeds, and what it reports when it does not. */
  lemma OutcomeIs(op: Op, last: Step)
    ensures last.packErr != 0 && op != Setattr ==> Outcome(op, last) == 0 - last.packErr
    ensures (last.packErr == 0 || op == Setattr) && last.sendErr != 0 ==> Outcome(op, last) == 0 - last.sendErr
    ensures (last.packErr == 0 || op == Setattr) && last.sendErr == 0 ==>
              (Outcome(op, last) == 0 <==>
                || (last.status == StatusSuccess && (op in {Open, Read, Getattr} ==> last.unpackErr == 0))
                || (last.status == OperationNotPermitted && op == QueryVolumeInfo))
    ensures (last.packErr == 0 || op == Setattr) && last.sendErr == 0 && Outcome(op, last) != 0 ==>
              Outcome(op, last) ==
              if last.status == StatusSuccess then 0 - last.unpackErr else ConvertStatus(last.status)
  {
  }

  /** Which statuses an error code stands for. */
  lemma StatusesOf(s: Status)
    ensures ConvertStatus(s) == -ENOENT <==> s in {NoSuchFileOrDir, InvalidName}
    ensures ConvertStatus(s) == -EACCES <==> s in {AccessDenied, SharingViolation}
    ensures ConvertStatus(s) == -EIO <==> s == GenericError || s.UnknownStatus?
    ensures ConvertStatus(s) == -EBADF <==> s == InvalidHandle
    ensures ConvertStatus(s) == -EPERM <==> s == OperationNotPermitted
    ensures ConvertStatus(s) == -EEXIST <==> s == FileExists
    ensures ConvertStatus(s) == -ENOTDIR <==> s == NotDirectory
    ensures ConvertStatus(s) == -ENOTEMPTY <==> s == DirNotEmpty
    ensures ConvertStatus(s) == -ENOSPC <==> s == NoSpace
    ensures ConvertStatus(s) == -EOPNOTSUPP <==> s == OperationNotSupported
    ensures ConvertStatus(s) == -ENAMETOOLONG <==> s == NameTooLong
  {
  }

  // ---- counting ----

  datatype Mark = Mark(path: string, attr: Attr)

  /** Requests of op and how many of them were denied; attempts to clear read-only and successful ones;
      restores; requests of op since the last successful clear, whether the last of those was refused
      with an older version left, and the server's answer to it; what a clear last found, and what
      setattr was last called with. */
  datatype Tally = Tally(sends: nat, denials: nat, tries: nat, clears: nat, restores: nat,
                         since: nat, downgraded: bool, verdict: Option<Status>, found: Option<Mark>, put: Option<Mark>)

  function Counted(t: Tally, e: Event, op: Op): (r: Tally) {
    match e
    case Sent(o, _, status) =>
      if o != op then t
      else t.(sends := t.sends + 1, since := t.since + 1, downgraded := IsDowngrade(e, op), verdict := status,
              denials := t.denials + if IsDenial(status) then 1 else 0)
    case Clearing(_) => t.(tries := t.tries + 1)
    case Cleared(path, attr) =>
      t.(clears := t.clears + 1, since := 0, downgraded := false, verdict := None, found := Some(Mark(path, attr)))
    case Restoring(_) => t.(restores := t.restores + 1)
    case Putting(path, attr) => t.(put := Some(Mark(path, attr)))
  }

  function Count(log: Log, op: Op): (r: Tally) {
    match log
    case Start => Tally(0, 0, 0, 0, 0, 0, false, None, None, None)
    case Then(front, e) => Counted(Count(front, op), e, op)
  }

  predicate IsDenial(answer: Option<Status>) {
    answer.Some? && Denied(ConvertStatus(answer.value))
  }

  predicate Target(op: Op) {
    op in {DeleteFile, DeleteDir, Rename}
  }

  function AsMark(path: string, cleared: Option<Attr>): (r: Option<Mark>) {
    if cleared.Some? then Some(Mark(path, cleared.value)) else None
  }

  /** What was found, with the owner allowed to write. */
  function Writable(m: Mark): (r: Mark)
    ensures r.path == m.path && r.attr.ownerWrite && r.attr.others == m.attr.others
  {
    Mark(m.path, Attr(true, m.attr.others))
  }

  /** A call that began at tally `was` is going to send again. */
  ghost predicate Running(was: Tally, t: Tally, cleared: Option<Mark>, left: nat) {
    var once := if cleared.Some? then 1 else 0;
    && was.sends <= t.sends && t.sends + left <= was.sends + 1 + once && t.denials == was.denials + once
    && t.tries == was.tries + once && t.clears == was.clears + once
    && t.restores == was.restores && (cleared.Some? ==> t.found == cleared && !IsDenial(t.verdict))
    && (cleared.Some? ==> t.put == Some(Writable(cleared.value)))
    && (t.sends > was.sends ==> t.verdict == None || t.verdict == Some(ProtocolError))
  }

  /** A first denial could not be cleared. */
  ghost predicate Uncleared(was: Tally, t: Tally) {
    t.denials > was.denials && t.clears == was.clears
  }

  /** What the caller is told: the error of packing, or what the server's last answer comes to, or, after a
      first denial that could not be cleared, the error of clearing. */
  ghost predicate Reports(was: Tally, t: Tally, op: Op, result: int, last: Step) {
    if last.packErr != 0 then result == 0 - last.packErr && !Uncleared(was, t)
    else t.verdict == Answer(last) && if Uncleared(was, t) then result != 0 else result == Result(op, last)
  }

  /** The call is over: at most three requests of its own; read-only tried to be cleared exactly when
      one is denied, and restored exactly when, after a successful clear, a second one is; both on the
      same path, the restore with the permissions found less the owner's write permission. */
  ghost predicate Ended(was: Tally, t: Tally, path: string) {
    && t.sends <= was.sends + 3 && was.denials <= t.denials <= was.denials + 2
    && t.tries == was.tries + (if t.denials > was.denials then 1 else 0)
    && was.clears <= t.clears <= t.tries - was.tries + was.clears
    && t.restores == was.restores + (if t.denials == was.denials + 2 then 1 else 0)
    && (t.denials == was.denials + 2 <==> t.clears > was.clears && IsDenial(t.verdict))
    && (t.clears > was.clears ==> t.found.Some? && t.found.value.path == path)
    && (t.restores > was.restores ==> t.put == Some(Mark(path, Attr(false, t.found.value.attr.others))))
    && (t.clears > was.clears && t.restores == was.restores ==>
         t.put == Some(Mark(path, Attr(true, t.found.value.attr.others))))
  }

  /** The call did not give up early: unless packing fails, it sends, and sends again after clearing
      read-only and after a refused version with an older one left. */
  ghost predicate Persists(was: Tally, t: Tally, last: Step) {
    last.packErr == 0 ==> t.sends > was.sends && (t.clears > was.clears ==> t.since > 0) && !t.downgraded
  }

  /** A call is over with this tally and result; `last` is what happened to its own last request. */
  ghost predicate Over(was: Tally, t: Tally, op: Op, path: string, result: int, last: Step) {
    Ended(was, t, path) && Reports(was, t, op, result, last) && Persists(was, t, last)
  }

  // ---- how each pass of the loop moves the tally ----

  lemma NotSent(was: Tally, t: Tally, op: Op, path: string, cleared: Option<Attr>, left: nat, last: Step)
    requires Running(was, t, AsMark(path, cleared), left) && last.packErr != 0
    ensures Over(was, t, op, path, 0 - last.packErr, last)
  {
  }

  lemma RefusedVersion(was: Tally, t: Tally, path: string, cleared: Option<Attr>, left: nat, e: Event, op: Op)
    requires Running(was, t, AsMark(path, cleared), left + 1) && IsDowngrade(e, op)
    ensures Running(was, Counted(t, e, op), AsMark(path, cleared), left) && Counted(t, e, op).sends > was.sends
  {
  }

  lemma Answered(was: Tally, t: Tally, path: string, cleared: Option<Attr>, left: nat, e: Event, op: Op, last: Step)
    requires Running(was, t, AsMark(path, cleared), left) && IsSend(e, op) && !IsDowngrade(e, op) && !IsDenial(e.status)
    requires last.packErr == 0 && e.status == Answer(last)
    ensures Over(was, Counted(t, e, op), op, path, Result(op, last), last) && !Uncleared(was, Counted(t, e, op))
  {
  }

  lemma DeniedAgain(was: Tally, t: Tally, path: string, found: Attr, left: nat, e: Event, op: Op, last: Step)
    requires Running(was, t, AsMark(path, Some(found)), left) && IsSend(e, op) && IsDenial(e.status)
    requires last.packErr == 0 && e.status == Answer(last)
    ensures var u := Restored(Counted(t, e, op), path, found, op);
            Over(was, u, op, path, Result(op, last), last) && !Uncleared(was, u)
  {
  }

  function Restored(t: Tally, path: string, found: Attr, op: Op): (r: Tally) {
    Counted(Counted(t, Restoring(path), op), Putting(path, Attr(false, found.others)), op)
  }

  lemma DeniedFirst(was: Tally, t: Tally, path: string, left: nat, e: Event, op: Op, result: int, last: Step,
                    put: Option<Mark>)
    requires Running(was, t, None, left) && IsSend(e, op) && IsDenial(e.status)
    requires last.packErr == 0 && e.status == Answer(last)
    ensures result != 0 ==>
              Over(was, Counted(Counted(t, e, op), Clearing(path), op).(put := put), op, path, result, last)
  {
  }

  lemma DeniedFirstCleared(was: Tally, t: Tally, path: string, left: nat, e: Event, op: Op, found: Attr,
                           put: Option<Mark>)
    requires Running(was, t, None, left) && IsSend(e, op) && IsDenial(e.status)
    requires put == Some(Mark(path, Attr(true, found.others)))
    ensures var u := Counted(Counted(Counted(t, e, op), Clearing(path), op).(put := put), Cleared(path, found), op);
            Running(was, u, AsMark(path, Some(found)), left) && u.sends > was.sends
  {
  }

  // ---- the restore is not an inverse ----

  /** A call that restored read-only put back what clearing had found only if the owner could not write:
      a file that its owner could write is read-only afterwards. */
  lemma RestoreUndoesIff(was: Tally, t: Tally, path: string)
    requires Ended(was, t, path) && t.restores > was.restores
    ensures t.found.Some? && t.found.value.path == path
    ensures t.put == t.found <==> !t.found.value.attr.ownerWrite
  {
    assert t.clears > was.clears;
  }

  class Session {
    const plan: nat -> Step
    const cache: nat -> Option<Attr>
    const replies: nat -> Attr
    var at: nat
    var version: Op -> nat
    ghost var log: Log

    // what a retry loop of op returns whose last attempt is step i
    ghost const outcome: (Op, nat) -> int

    ghost predicate Valid()
      reads this
    {
      && Obeys(log) && (forall op: Op :: version(op) == Replay(log, op))
      && forall op: Op, i: nat {:trigger Outcome(op, plan(i))} :: outcome(op, i) == Outcome(op, plan(i))
    }

    constructor (plan: nat -> Step, cache: nat -> Option<Attr>, replies: nat -> Attr)
      ensures Valid() && log == Start && at == 0 && this.plan == plan && this.cache == cache && this.replies == replies
    {
      this.plan, this.cache, this.replies, at := plan, cache, replies, 0;
      outcome := (op: Op, i: nat) => Outcome(op, plan(i));
      version := _ => 3;
      log := Start;
    }

    method ResetOps()
      requires Valid()
      modifies this`version, this`log
      ensures Valid() && log == Start && forall op: Op :: version(op) == 3
    {
      version := _ => 3;
      log := Start;
    }

    method Lower(op: Op)
      requires IsVersion(op, version(op)) && version(op) > 1
      modifies this`version
      ensures forall o: Op :: version(o) == if o == op then Older(op, old(version(op))) else old(version)(o)
    {
      var was := version;
      var older := Older(op, was(op));
      version := o => if o == op then older else was(o);
    }

    /** One pass through a retry loop: pack, send, convert the status, and fall back if the version is
        refused and an older one is left. A failed packing ends every operation but Setattr, which
        sends regardless. */
    method Attempt(op: Op) returns (sent: bool, again: bool, answer: Option<Status>, result: int)
      requires Valid()
      modifies this`at, this`version, this`log
      ensures Valid()
      ensures at == old(at) + 1
      ensures var step := plan(old(at));
              && sent == (step.packErr == 0 || op == Setattr)
              && if sent then answer == Answer(step) && result == Result(op, step) else result == 0 - step.packErr
      ensures log == if sent then Then(old(log), Sent(op, old(version(op)), answer)) else old(log)
      ensures if sent then again == IsDowngrade(log.last, op) else !again && answer == None
      ensures version(op) == if again then Older(op, old(version(op))) else old(version(op))
    {
      var step, opUsed := plan(at), version(op);
      at := at + 1;
      again, answer, result := false, None, 0 - step.packErr;
      sent := step.packErr == 0 || op == Setattr;
      if sent {
        answer, result := Answer(step), Result(op, step);
        again := answer == Some(ProtocolError) && opUsed > 1;
        if again {
          Lower(op);
        }
        log := Then(log, Sent(op, opUsed, answer));
      }
    }

    /** The other operations have sent nothing and keep their versions. */
    ghost predicate OthersKept(op: Op, before: Log, versions: Op -> nat)
      reads this
    {
      forall o: Op :: o != op ==> Count(log, o) == Count(before, o) && version(o) == versions(o)
    }

    /** How a retry loop ends whose last attempt is step i. */
    ghost predicate Concluded(op: Op, i: nat, sent: bool, result: int)
      reads this
    {
      && (sent <==> plan(i).packErr == 0 || op == Setattr)
      && (sent ==>
           log.Then? && IsSend(log.last, op) && !IsDowngrade(log.last, op) && log.last.status == Answer(plan(i)))
      && result == Outcome(op, plan(i))
    }

    /** One pass of the retry loop: another one costs a downgrade. */
    method Try(op: Op) returns (sent: bool, again: bool, result: int)
      requires Valid()
      modifies this`at, this`version, this`log
      ensures Valid() && at == old(at) + 1 && OthersKept(op, old(log), old(version))
      ensures Count(log, op).sends <= Count(old(log), op).sends + 1
      ensures again ==>
                && Left(op, version(op)) < Left(op, old(version(op)))
                && Count(log, op).sends + Left(op, version(op)) <=
                   Count(old(log), op).sends + Left(op, old(version(op)))
                && Answer(plan(old(at))) == Some(ProtocolError)
      ensures !again ==> Concluded(op, old(at), sent, result)
    {
      var answer;
      sent, again, answer, result := Attempt(op);
      if !again && op == QueryVolumeInfo && answer == Some(OperationNotPermitted) {
        result := 0;
      }
    }

    /** The retry loop of every operation but delete and rename. It sends at most one request more than
        the operation has downgrades left, and reports the status of the last. */
    method Perform(op: Op) returns (sent: bool, result: int)
      requires Valid()
      modifies this`at, this`version, this`log
      ensures Valid() && OthersKept(op, old(log), old(version))
      ensures Count(log, op).sends <= Count(old(log), op).sends + 1 + Left(op, old(version(op)))
      ensures at > old(at) && Concluded(op, at - 1, sent, result)
      ensures Answer(plan(old(at))) != Some(ProtocolError) ==> at == old(at) + 1
    {
      while true
        invariant Valid() && old(at) <= at && (at == old(at) || Answer(plan(old(at))) == Some(ProtocolError))
        invariant Count(log, op).sends + Left(op, version(op)) <= Count(old(log), op).sends + Left(op, old(version(op)))
        invariant OthersKept(op, old(log), old(version))
        decreases Left(op, version(op))
      {
        var again;
        sent, again, result := Try(op);
        if !again { return; }
      }
    }

    /** HgfsSetattr with these attributes. */
    method SetAttributes(ghost op: Op, path: string, attr: Attr) returns (result: int)
      requires Valid() && Target(op)
      modifies this`at, this`version, this`log
      ensures Valid() && version(op) == old(version(op)) && at > old(at)
      ensures Count(log, op) == Counted(Count(old(log), op), Putting(path, attr), op)
      ensures result == outcome(Setattr, at - 1)
      ensures result == 0 <==> log.Then? && IsSend(log.last, Setattr) && log.last.status == Some(StatusSuccess)
      ensures Answer(plan(old(at))) == Some(StatusSuccess) ==> result == 0 && at == old(at) + 1
    {
      log := Then(log, Putting(path, attr));
      var sent;
      sent, result := Perform(Setattr);
    }

    /** The attributes are the cached ones or, without any, those that a get brought which succeeded between
        steps `from` and `until`. */
    ghost predicate Learned(found: Attr, from: nat, until: nat) {
      if cache(from).Some? then found == cache(from).value
      else exists g :: from < g < until && found == replies(g) && outcome(Getattr, g - 1) == 0
    }

    /** Makes the file writable for its owner, whatever its attributes were: success means that the server
        accepted the attributes found with the owner's write permission added. The result is that of the
        last attempt, which was to put them or, without cached ones, to get them; `via` says which. */
    method ClearReadOnly(ghost op: Op, path: string) returns (result: int, found: Attr, ghost via: Op)
      requires Valid() && Target(op)
      modifies this`at, this`version, this`log
      ensures Valid() && version(op) == old(version(op)) && at > old(at)
      ensures result == outcome(via, at - 1) && Clears(via)
      ensures via == Getattr ==> cache(old(at)).None? && result != 0 && Count(log, op).put == Count(old(log), op).put
      ensures via == Setattr ==> Count(log, op).put == Some(Mark(path, Attr(true, found.others)))
      ensures Count(log, op) == Count(old(log), op).(put := Count(log, op).put)
      ensures result == 0 ==>
                && log.Then? && IsSend(log.last, Setattr) && log.last.status == Some(StatusSuccess)
                && Count(log, op).put == Some(Mark(path, Attr(true, found.others)))
      ensures via == Setattr ==> Learned(found, old(at), at)
      ensures cache(old(at)).Some? && Answer(plan(old(at))) == Some(StatusSuccess) ==> result == 0 && at == old(at) + 1
    {
      var sent;
      result, found, via := 0, Attr(false, 0), Getattr;
      var cached := cache(at);
      if cached.Some? {
        found := cached.value;
      } else {
        sent, result := Perform(Getattr);
        found := replies(at);
      }
      if result != 0 {
        return;
      }
      via := Setattr;
      result := SetAttributes(op, path, found.(ownerWrite := true));
    }

    /** Takes the owner's write permission away from the attributes that clearing had put. */
    method RestoreReadOnly(ghost op: Op, path: string, found: Attr)
      requires Valid() && Target(op)
      modifies this`at, this`version, this`log
      ensures Valid() && at >= old(at)
      ensures Count(log, op) == Restored(Count(old(log), op), path, found, op)
      ensures Count(log, op).put == Some(Mark(path, Attr(false, found.others)))
    {
      log := Then(log, Restoring(path));
      var result := SetAttributes(op, path, found.(ownerWrite := false));
    }

    /** The kinds of requests that clearing makes. */
    static predicate Clears(via: Op) {
      via == Getattr || via == Setattr
    }

    /** First denial: clear read-only. */
    method OnDenial(ghost op: Op, path: string) returns (result: int, attr: Attr, ghost via: Op)
      requires Valid() && Target(op)
      modifies this`at, this`version, this`log
      ensures Valid() && version(op) == old(version(op)) && at > old(at)
      ensures result == outcome(via, at - 1) && Clears(via)
      ensures var t := Counted(Count(old(log), op), Clearing(path), op).(put := Count(log, op).put);
              Count(log, op) == if result == 0 then Counted(t, Cleared(path, attr), op) else t
      ensures result == 0 ==>
                Count(log, op).put == Some(Mark(path, Attr(true, attr.others))) && Learned(attr, old(at), at)
      ensures cache(old(at)).Some? && Answer(plan(old(at))) == Some(StatusSuccess) ==>
                result == 0 && at == old(at) + 1 && attr == cache(old(at)).value
    {
      log := Then(log, Clearing(path));
      result, attr, via := ClearReadOnly(op, path);
      if result == 0 {
        log := Then(log, Cleared(path, attr));
      }
    }

    ghost predicate DeniedAt(i: nat) {
      plan(i).packErr == 0 && IsDenial(Answer(plan(i)))
    }

    /** The attributes are cached and the server accepts the cleared ones. */
    ghost predicate ClearsAt(i: nat) {
      cache(i).Some? && Answer(plan(i)) == Some(StatusSuccess)
    }

    /** The first denial `e` of a call: it goes on if read-only can be cleared. */
    method FirstDenied(op: Op, path: string, ghost was: Tally, ghost t: Tally, ghost left: nat, ghost e: Event,
                       ghost last: Step)
      returns (again: bool, now: Option<Attr>, result: int, ghost via: Op)
      requires Valid() && Target(op) && Running(was, t, None, left) && Count(log, op) == Counted(t, e, op)
      requires IsSend(e, op) && IsDenial(e.status) && last.packErr == 0 && e.status == Answer(last)
      modifies this`at, this`version, this`log
      ensures Valid() && at > old(at) && version(op) == old(version(op)) && Clears(via)
      ensures again ==> now.Some? && Running(was, Count(log, op), AsMark(path, now), left)
      ensures !again ==> Over(was, Count(log, op), op, path, result, last) && result == outcome(via, at - 1)
      ensures ClearsAt(old(at)) ==> again && now == cache(old(at)) && at == old(at) + 1
    {
      var found;
      result, found, via := OnDenial(op, path);
      ghost var put := Count(log, op).put;
      again, now := result == 0, None;
      if again {
        DeniedFirstCleared(was, t, path, left, e, op, found, put);
        now := Some(found);
      } else {
        DeniedFirst(was, t, path, left, e, op, result, last, put);
      }
    }

    /** The request of one pass, and what follows unless it is denied for the first time. */
    method Request(op: Op, path: string, cleared: Option<Attr>, ghost was: Tally)
      returns (again: bool, denied: bool, result: int)
      requires Valid() && Target(op) && Running(was, Count(log, op), AsMark(path, cleared), Left(op, version(op)))
      modifies this`at, this`version, this`log
      ensures Valid() && at > old(at) && !(again && denied)
      ensures again ==> Running(was, Count(log, op), AsMark(path, cleared), Left(op, version(op)))
      ensures again ==> Left(op, version(op)) < Left(op, old(version(op)))
      ensures !again && !denied ==>
                Over(was, Count(log, op), op, path, result, plan(old(at))) && !Uncleared(was, Count(log, op))
      ensures var e := Sent(op, old(version(op)), Answer(plan(old(at))));
              denied ==>
                && cleared == None && at == old(at) + 1 && version(op) == old(version(op))
                && Count(log, op) == Counted(Count(old(log), op), e, op) && IsDenial(e.status)
      ensures denied ==> plan(old(at)).packErr == 0
      ensures DeniedAt(old(at)) && cleared == None ==> denied
      ensures DeniedAt(old(at)) && cleared.Some? ==>
                && !again && !denied && Count(log, op).restores > was.restores
                && Count(log, op).found == AsMark(path, cleared)
    {
      var sent, answer;
      ghost var t, left, last := Count(log, op), Left(op, version(op)), plan(at);
      ghost var e := Sent(op, version(op), Answer(last));
      sent, again, answer, result := Attempt(op);
      denied := false;
      if !sent {
        NotSent(was, t, op, path, cleared, left, last);
      } else if !IsDenial(answer) {
        if again {
          RefusedVersion(was, t, path, cleared, left - 1, e, op);
        } else {
          Answered(was, t, path, cleared, left, e, op, last);
        }
      } else if cleared.Some? {
        DeniedAgain(was, t, path, cleared.value, left, e, op, last);
        RestoreReadOnly(op, path, cleared.value);
      } else {
        denied := true;
      }
    }

    /** One pass of the delete and rename loop; `cleared` is what clearing read-only found, if it was done. */
    method Turn(op: Op, path: string, cleared: Option<Attr>, ghost was: Tally)
      returns (again: bool, now: Option<Attr>, result: int, ghost via: Op)
      requires Valid() && Target(op) && Running(was, Count(log, op), AsMark(path, cleared), Left(op, version(op)))
      modifies this`at, this`version, this`log
      ensures Valid() && at > old(at) && Clears(via)
      ensures again ==> Running(was, Count(log, op), AsMark(path, now), Left(op, version(op)))
      ensures again ==>
                (cleared == None && now.Some?) || (now == cleared && Left(op, version(op)) < Left(op, old(version(op))))
      ensures !again ==> Over(was, Count(log, op), op, path, result, plan(old(at)))
      ensures !again && Uncleared(was, Count(log, op)) ==> result == outcome(via, at - 1)
      ensures DeniedAt(old(at)) && cleared == None && ClearsAt(old(at) + 1) ==>
                again && now == cache(old(at) + 1) && at == old(at) + 2
      ensures DeniedAt(old(at)) && cleared.Some? ==>
                !again && Count(log, op).restores > was.restores && Count(log, op).found == AsMark(path, cleared)
    {
      ghost var t, left, last := Count(log, op), Left(op, version(op)), plan(at);
      ghost var e := Sent(op, version(op), Answer(last));
      var denied;
      again, denied, result := Request(op, path, cleared, was);
      now, via := cleared, Setattr;
      if denied {
        again, now, result, via := FirstDenied(op, path, was, t, left, e, last);
      }
    }

    /** Denied, cleared from cached attributes, and denied again. */
    ghost predicate TwiceDenied(i: nat) {
      DeniedAt(i) && ClearsAt(i + 1) && DeniedAt(i + 2)
    }

    /** How a call that began at log `before` and step `first` ends; `last` is its own last attempt, and a
        clear that failed did so with its own last attempt, of kind `via`, which ended the call. */
    ghost predicate Did(op: Op, path: string, before: Log, first: nat, last: nat, via: Op, result: int)
      reads this
    {
      && first <= last < at && Over(Count(before, op), Count(log, op), op, path, result, plan(last))
      && (Uncleared(Count(before, op), Count(log, op)) ==> Clears(via) && result == outcome(via, at - 1))
      && (TwiceDenied(first) ==> last == first + 2 && Restores(op, path, before, cache(first + 1)))
    }

    /** What was found has been restored since `before`. */
    ghost predicate Restores(op: Op, path: string, before: Log, found: Option<Attr>)
      reads this
    {
      Count(log, op).restores > Count(before, op).restores && Count(log, op).found == AsMark(path, found)
    }

    /** A call that is going to be denied twice has not been cleared yet, or has just been. */
    ghost predicate OnTrack(first: nat, cleared: Option<Attr>)
      reads this
    {
      TwiceDenied(first) ==>
        (at == first && cleared == None) || (at == first + 2 && cleared == cache(first + 1))
    }

    /** One pass of a call that began at log `before` and step `first`. */
    method Pass(op: Op, path: string, cleared: Option<Attr>, ghost before: Log, ghost first: nat)
      returns (again: bool, now: Option<Attr>, result: int, ghost via: Op)
      requires Valid() && Target(op) && first <= at && OnTrack(first, cleared)
      requires Running(Count(before, op), Count(log, op), AsMark(path, cleared), Left(op, version(op)))
      modifies this`at, this`version, this`log
      ensures Valid() && first <= at
      ensures again ==>
                && OnTrack(first, now)
                && Running(Count(before, op), Count(log, op), AsMark(path, now), Left(op, version(op)))
      ensures again ==>
                (cleared == None && now.Some?) || (now == cleared && Left(op, version(op)) < Left(op, old(version(op))))
      ensures !again ==> Did(op, path, before, first, old(at), via, result)
    {
      again, now, result, via := Turn(op, path, cleared, Count(before, op));
    }

    /** The loop of delete and rename. */
    method Insist(op: Op, path: string) returns (result: int, ghost last: nat, ghost via: Op)
      requires Valid() && Target(op)
      modifies this`at, this`version, this`log
      ensures Valid() && Did(op, path, old(log), old(at), last, via, result)
    {
      var cleared, again := None, true;
      ghost var first := at;
      result, last, via := 0, at, Setattr;
      while again
        invariant Valid() && first <= at
        invariant again ==> OnTrack(first, cleared)
        invariant again ==>
          Running(Count(old(log), op), Count(log, op), AsMark(path, cleared), Left(op, version(op)))
        invariant !again ==> Did(op, path, old(log), first, last, via, result)
        decreases again, cleared.None?, Left(op, version(op))
      {
        last := at;
        again, cleared, result, via := Pass(op, path, cleared, old(log), first);
      }
    }

    method Delete(path: string, isDir: bool) returns (result: int, ghost last: nat, ghost via: Op)
      requires Valid()
      modifies this`at, this`version, this`log
      ensures Valid() && Did(if isDir then DeleteDir else DeleteFile, path, old(log), old(at), last, via, result)
    {
      result, last, via := Insist(if isDir then DeleteDir else DeleteFile, path);
    }

    /** It is the target that may be read-only. */
    method RenameFile(from: string, to: string) returns (result: int, ghost last: nat, ghost via: Op)
      requires Valid()
      modifies this`at, this`version, this`log
      ensures Valid() && Did(Rename, to, old(log), old(at), last, via, result)
    {
      result, last, via := Insist(Rename, to);
    }
  }

  /** A delete that is denied twice leaves a file read-only that its owner could write. */
  method DeleteTakesWritePermission() returns (session: Session, result: int)
    ensures session.Valid() && result == -EACCES
    ensures var t := Count(session.log, DeleteFile);
            && t.found == Some(Mark("/a", Attr(true, 0))) && t.restores == 1
            && t.put == Some(Mark("/a", Attr(false, 0)))
  {
    var denied, fine := Step(0, 0, AccessDenied, 0), Step(0, 0, StatusSuccess, 0);
    session := new Session(i => if i == 0 || i == 2 then denied else fine,
                           i => Some(Attr(true, 0)), i => Attr(true, 0));
    assert session.TwiceDenied(0);
    ghost var last, via;
    result, last, via := session.Delete("/a", false);
  }

  // ---- all runs between two resets ----

  predicate IsAnyDowngrade(e: Event) {
    e.Sent? && IsDowngrade(e, e.op)
  }

  function Downgrades(log: Log): (r: nat) {
    match log
    case Start => 0
    case Then(front, e) => Downgrades(front) + if IsAnyDowngrade(e) then 1 else 0
  }

  function LeftOf(log: Log): (r: Op -> nat) {
    op => Left(op, Replay(log, op))
  }

  function Sum(f: Op -> nat): (r: nat) {
    f(Open) + f(Read) + f(Write) + f(Close) + f(SearchOpen) + f(SearchRead) + f(Getattr) + f(Setattr) + f(CreateDir)
    + f(DeleteFile) + f(DeleteDir) + f(Rename) + f(QueryVolumeInfo) + f(CreateSymlink)
  }

  lemma SumStep(f: Op -> nat, g: Op -> nat, op: Op)
    requires f(op) == g(op) + 1 && forall o: Op :: o != op ==> f(o) == g(o)
    ensures Sum(f) == Sum(g) + 1
  {
    match op {
      case Open => case Read => case Write => case Close => case SearchOpen => case SearchRead => case Getattr =>
      case Setattr => case CreateDir => case DeleteFile => case DeleteDir => case Rename => case QueryVolumeInfo =>
      case CreateSymlink =>
    }
  }

  lemma LeftOfStep(front: Log, e: Event, op: Op)
    requires Obeys(Then(front, e))
    ensures LeftOf(front)(op) == LeftOf(Then(front, e))(op) + if IsAnyDowngrade(e) && e.op == op then 1 else 0
  {
  }

  lemma SumSame(f: Op -> nat, g: Op -> nat)
    requires forall o: Op :: f(o) == g(o)
    ensures Sum(f) == Sum(g)
  {
  }

  lemma SumStart()
    ensures Sum(LeftOf(Start)) == 19
  {
    SumSame(LeftOf(Start), op => if HasV2(op) then 2 else 1);
  }

  lemma SumLeftStep(front: Log, e: Event, f: Op -> nat, g: Op -> nat)
    requires Obeys(Then(front, e)) && f == LeftOf(front) && g == LeftOf(Then(front, e))
    ensures Sum(f) == Sum(g) + if IsAnyDowngrade(e) then 1 else 0
  {
    forall op: Op ensures f(op) == g(op) + if IsAnyDowngrade(e) && e.op == op then 1 else 0 {
      LeftOfStep(front, e, op);
    }
    if IsAnyDowngrade(e) { SumStep(f, g, e.op); } else { SumSame(f, g); }
  }

  /** Downgrades made and downgrades left always add up to 19. */
  lemma {:induction false} DowngradesBounded(log: Log)
    requires Obeys(log)
    ensures Downgrades(log) + Sum(LeftOf(log)) == 19
  {
    match log
    case Start => SumStart();
    case Then(front, e) =>
      DowngradesBounded(front);
      SumLeftStep(front, e, LeftOf(front), LeftOf(log));
  }

  /** Every request of op was at version v or above, and above v if it was refused with an older version left. */
  ghost predicate Above(log: Log, op: Op, v: nat) {
    match log
    case Start => true
    case Then(front, e) => Above(front, op, v) && (IsSend(e, op) ==> e.v >= v && (IsDowngrade(e, op) ==> e.v > v))
  }

  /** No request is sent above a version that the server refused before. */
  ghost predicate NeverRises(log: Log) {
    match log
    case Start => true
    case Then(front, e) => NeverRises(front) && (e.Sent? ==> Above(front, e.op, e.v))
  }

  lemma {:induction false} AboveLower(log: Log, op: Op, v: nat, w: nat)
    requires Above(log, op, v) && w <= v
    ensures Above(log, op, w)
  {
    match log
    case Start =>
    case Then(front, e) => AboveLower(front, op, v, w);
  }

  lemma {:induction false} AboveReplay(log: Log, op: Op)
    requires Obeys(log)
    ensures Above(log, op, Replay(log, op))
  {
    match log
    case Start =>
    case Then(front, e) =>
      AboveReplay(front, op);
      AboveLower(front, op, Replay(front, op), Replay(log, op));
  }

  lemma {:induction false} VersionsNeverRise(log: Log)
    requires Obeys(log)
    ensures NeverRises(log)
  {
    match log
    case Start =>
    case Then(front, e) =>
      VersionsNeverRise(front);
      if e.Sent? { AboveReplay(front, e.op); }
  }

  datatype Call = Plain(op: Op) | DeleteCall(path: string, isDir: bool) | RenameCall(from: string, to: string) | Reset

  /** After any sequence of calls: at most 19 downgrades since the last reset, and no version rose. */
  method Run(session: Session, calls: seq<Call>)
    requires session.Valid()
    modifies session
    ensures session.Valid() && Downgrades(session.log) <= 19 && NeverRises(session.log)
    ensures calls != [] && calls[|calls| - 1].Reset? ==> forall op :: session.version(op) == 3
  {
    for i := 0 to |calls|
      invariant session.Valid()
      invariant i > 0 && calls[i - 1].Reset? ==> forall op :: session.version(op) == 3
    {
      match calls[i] {
        case Plain(op) =>
          var sent, result := session.Perform(op);
        case DeleteCall(path, isDir) =>
          var result, last, via := session.Delete(path, isDir);
        case RenameCall(from, to) =>
          var result, last, via := session.RenameFile(from, to);
        case Reset =>
          session.ResetOps();
      }
    }
    DowngradesBounded(session.log);
    VersionsNeverRise(session.log);
  }
}
