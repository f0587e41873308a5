/** Reads and writes cut into requests of at most the negotiated size, with short replies. */
module ChunkedIO {
  import opened Basics

  type Byte = x: int | 0 <= x < 256

  const UINT32: nat := 0x1_0000_0000
  const HEADER_SIZE_MAX: nat := 2048
  const LARGE_IO_MAX: nat := 4096 * 127
  const LEGACY_LARGE_IO_MAX: nat := 4096 * 15

  const EPROTO: int := 71

  // ---- the chunk size ----

  function LargeIoMax(largePackets: bool): (r: nat) {
    if largePackets then LARGE_IO_MAX else LEGACY_LARGE_IO_MAX
  }

  /** Positive and never above the large I/O limit, also where the 32-bit subtraction wraps around. */
  function MaxIOSize(maxPacketSize: nat, largePackets: bool): (r: nat)
    requires maxPacketSize < UINT32
    ensures 0 < r <= if largePackets then LARGE_IO_MAX else LEGACY_LARGE_IO_MAX
    ensures HEADER_SIZE_MAX < maxPacketSize <= HEADER_SIZE_MAX + LargeIoMax(largePackets) ==>
              r + HEADER_SIZE_MAX == maxPacketSize
    ensures r + HEADER_SIZE_MAX <= maxPacketSize || r == if largePackets then LARGE_IO_MAX else LEGACY_LARGE_IO_MAX
  {
    var maxIOSize := (maxPacketSize - HEADER_SIZE_MAX) % UINT32;
    if maxIOSize > 0 && maxIOSize < LargeIoMax(largePackets) then maxIOSize else LargeIoMax(largePackets)
  }

  // ---- the server ----

  datatype Version = V1 | V3

  /** What the server does with a request: the transport fails, the status is an error, or the reply grants
      up to n bytes of those asked for, or more than was asked for, which a write never is. */
  datatype Answer = Lost(err: int) | Refused(err: int) | Grant(n: nat) | Excess

  /** The answer to the i-th request if it goes out at that version. */
  type Plan = (nat, Version) -> Answer

  predicate Bad(a: Answer) {
    !a.Grant?
  }

  /** The error reported then. */
  function Code(a: Answer): (r: int)
    ensures a.Lost? || a.Refused? ==> r == -a.err
    ensures a.Excess? ==> r == -EPROTO
  {
    if a.Grant? || a.Excess? then -EPROTO else -a.err
  }

  /** The server does not know the version. */
  predicate Outdated(a: Answer) {
    a == Refused(EPROTO)
  }

  ghost predicate ErrorsPositive(plan: Plan) {
    forall i: nat, v: Version :: plan(i, v).Lost? || plan(i, v).Refused? ==> plan(i, v).err > 0
  }

  /** From request n on, which goes out at version v, the server grants what is asked for, unless it does not
      know version 3. */
  ghost predicate Kind(plan: Plan, n: nat, v: Version) {
    && (forall i: nat :: i >= n && Bad(plan(i, V3)) ==> Outdated(plan(i, V3)))
    && (forall i: nat :: i > n || (i == n && v == V1) ==> !Bad(plan(i, V1)))
  }

  /** Replies grant at least one byte. */
  ghost predicate Eager(plan: Plan) {
    forall i: nat, v: Version :: plan(i, v).Grant? ==> plan(i, v).n > 0
  }

  function Available(file: seq<Byte>, offset: nat): (r: nat)
    ensures offset + r == |file| || (r == 0 && |file| <= offset)
  {
    if offset <= |file| then |file| - offset else 0
  }

  function SpliceSize(size: nat, offset: nat, count: nat): (r: nat) {
    if count > 0 && offset + count > size then offset + count else size
  }

  function SpliceAt(file: seq<Byte>, offset: nat, data: seq<Byte>, i: nat): (r: Byte) {
    if offset <= i < offset + |data| then data[i - offset] else if i < |file| then file[i] else 0
  }

  /** The file after writing data at offset: a gap is filled with zeros. */
  function Splice(file: seq<Byte>, offset: nat, data: seq<Byte>): (r: seq<Byte>) {
    seq(SpliceSize(|file|, offset, |data|), i requires 0 <= i => SpliceAt(file, offset, data, i))
  }

  lemma SpliceJoinAt(file: seq<Byte>, offset: nat, a: seq<Byte>, b: seq<Byte>, i: nat)
    requires i < |Splice(file, offset, a + b)|
    ensures SpliceAt(Splice(file, offset, a), offset + |a|, b, i) == SpliceAt(file, offset, a + b, i)
  {
    var s := Splice(file, offset, a);
    if i < |s| { assert s[i] == SpliceAt(file, offset, a, i); }
    if offset <= i < offset + |a| {
      assert (a + b)[i - offset] == a[i - offset];
    } else if offset + |a| <= i < offset + |a| + |b| {
      assert (a + b)[i - offset] == b[i - offset - |a|];
    }
  }

  /** Two adjacent writes are one write. */
  lemma SpliceJoin(file: seq<Byte>, offset: nat, a: seq<Byte>, b: seq<Byte>)
    ensures Splice(Splice(file, offset, a), offset + |a|, b) == Splice(file, offset, a + b)
  {
    var one, two := Splice(file, offset, a + b), Splice(Splice(file, offset, a), offset + |a|, b);
    assert |one| == |two|;
    forall i | 0 <= i < |one| ensures one[i] == two[i] { SpliceJoinAt(file, offset, a, b, i); }
  }

  /** The chunk behind the first `done` bytes, of which n are taken, extends them. */
  lemma SpliceMore(file: seq<Byte>, offset: nat, buf: seq<Byte>, done: nat, count: nat, n: nat)
    requires done + count <= |buf| && n <= count
    ensures Splice(Splice(file, offset, buf[..done]), offset + done, buf[done..done + count][..n]) ==
            Splice(file, offset, buf[..done + n])
  {
    SpliceJoin(file, offset, buf[..done], buf[done..done + count][..n]);
    assert buf[..done] + buf[done..done + count][..n] == buf[..done + n];
  }

  lemma SpliceNothing(file: seq<Byte>, offset: nat)
    ensures Splice(file, offset, []) == file
  {
    var s := Splice(file, offset, []);
    forall i | 0 <= i < |s| ensures s[i] == file[i] { assert s[i] == SpliceAt(file, offset, [], i); }
  }

  /** Reading a written range gives what was written, and bytes outside it are as before. */
  lemma SpliceReads(file: seq<Byte>, offset: nat, data: seq<Byte>)
    requires data != []
    ensures var s := Splice(file, offset, data);
            && offset + |data| <= |s| && s[offset..offset + |data|] == data
            && (forall i :: 0 <= i < |file| && !(offset <= i < offset + |data|) ==> s[i] == file[i])
            && (forall i :: |file| <= i < offset ==> s[i] == 0)
  {
    var s := Splice(file, offset, data);
    forall i | 0 <= i < |data| ensures s[offset..offset + |data|][i] == data[i] {
      assert s[offset + i] == SpliceAt(file, offset, data, offset + i);
    }
  }

  class Server {
    const plan: Plan
    var sent: nat
    var file: seq<Byte>

    constructor (plan: Plan, file: seq<Byte>)
      requires ErrorsPositive(plan)
      ensures Valid() && this.plan == plan && this.file == file && sent == 0
    {
      this.plan, this.file, sent := plan, file, 0;
    }

    ghost predicate Valid()
      reads this
    {
      ErrorsPositive(plan)
    }

    /** A read reply with a size within the request carries the bytes at the offset. */
    method ServeRead(v: Version, offset: nat, count: nat) returns (answer: Answer, payload: seq<Byte>)
      modifies this`sent
      ensures sent == old(sent) + 1
      ensures var a := plan(old(sent), v);
              if a.Grant? then
                && answer == Grant(Min(Min(a.n, count), Available(file, offset))) && |payload| == answer.n
                && (answer.n > 0 ==> payload == file[offset..offset + answer.n])
              else if a.Excess? then answer.Grant? && answer.n > count
              else answer == a
    {
      answer, payload := plan(sent, v), [];
      sent := sent + 1;
      if answer.Grant? {
        answer := Grant(Min(Min(answer.n, count), Available(file, offset)));
        if answer.n > 0 {
          payload := file[offset..offset + answer.n];
        }
      } else if answer.Excess? {
        answer := Grant(count + 1);
      }
    }

    method ServeWrite(v: Version, offset: nat, data: seq<Byte>) returns (answer: Answer)
      modifies this`sent, this`file
      ensures sent == old(sent) + 1
      ensures answer == match plan(old(sent), v)
                        case Grant(n) => Grant(Min(n, |data|))
                        case Excess => Grant(|data|)
                        case Lost(_) => plan(old(sent), v)
                        case Refused(_) => plan(old(sent), v)
      ensures file == if answer.Grant? then Splice(old(file), offset, data[..answer.n]) else old(file)
    {
      answer := plan(sent, v);
      sent := sent + 1;
      if answer.Grant? || answer.Excess? {
        answer := Grant(if answer.Grant? then Min(answer.n, |data|) else |data|);
        file := Splice(file, offset, data[..answer.n]);
      }
    }
  }

  // ---- the client ----

  class Client {
    const server: Server
    const maxPacketSize: nat
    const largePackets: bool
    var versionRead: Version
    var versionWrite: Version

    constructor (server: Server, maxPacketSize: nat, largePackets: bool)
      ensures this.server == server && this.maxPacketSize == maxPacketSize && this.largePackets == largePackets
      ensures versionRead == V3 && versionWrite == V3
    {
      this.server, this.maxPacketSize, this.largePackets := server, maxPacketSize, largePackets;
      versionRead, versionWrite := V3, V3;
    }

    /** Requests beyond the first that fallback can still cost. */
    static function Spare(v: Version): (r: nat) {
      if v == V3 then 1 else 0
    }

    /** Where one chunk takes the number of requests and the switch: a server that does not know version 3 is
        asked again at version 1, for good. */
    ghost predicate Falls(n: nat, v: Version, n': nat, v': Version) {
      if v == V3 && Outdated(server.plan(n, V3)) then n' == n + 2 && v' == V1 else n' == n + 1 && v' == v
    }

    /** The same for any number of chunks: the switch falls exactly if a request at version 3 is refused as
        outdated, and a kind server's last answer is a grant. */
    ghost predicate Fell(n: nat, v: Version, n': nat, v': Version) {
      && n <= n' && (v == V1 ==> v' == V1)
      && (v == V3 ==> (v' == V1 <==> exists i: nat :: n <= i < n' && Outdated(server.plan(i, V3))))
      && (n < n' && Kind(server.plan, n, v) ==> !Bad(server.plan(n' - 1, v')))
    }

    lemma FellMore(n: nat, v: Version, m: nat, u: Version, n': nat, v': Version)
      requires Fell(n, v, m, u) && Falls(m, u, n', v')
      ensures Fell(n, v, n', v')
    {
      if u == V3 && Outdated(server.plan(m, V3)) { assert n <= m < n'; }
    }

    /** One chunk: an error, or the size granted, with the server's bytes copied to the buffer. */
    method DoRead(buf: array<Byte>, at: nat, count: nat, offset: nat) returns (result: int)
      requires server.Valid() && at + count <= buf.Length
      modifies this`versionRead, server`sent, buf
      ensures result <= count && Falls(old(server.sent), old(versionRead), server.sent, versionRead)
      ensures forall j :: 0 <= j < buf.Length && !(at <= j < at + result) ==> buf[j] == old(buf[j])
      ensures result > 0 ==> offset + result <= |server.file|
      ensures forall j :: at <= j < at + result ==> buf[j] == server.file[offset + (j - at)]
      ensures var a := server.plan(server.sent - 1, versionRead);
              result == if Bad(a) then Code(a) else Min(Min(a.n, count), Available(server.file, offset))
    {
      while true
        invariant if versionRead == old(versionRead) then server.sent == old(server.sent)
                  else
                    && old(versionRead) == V3 && versionRead == V1 && server.sent == old(server.sent) + 1
                    && Outdated(server.plan(old(server.sent), V3))
        invariant forall j :: 0 <= j < buf.Length ==> buf[j] == old(buf[j])
        decreases Spare(versionRead)
      {
        var opUsed := versionRead;
        var answer, payload := server.ServeRead(opUsed, offset, count);
        match answer {
          case Lost(err) =>
            return -err;
          case Refused(err) =>
            if err == EPROTO && opUsed == V3 {
              versionRead := V1;
            } else {
              return -err;
            }
          case Grant(actualSize) =>
            if actualSize > count {
              return -EPROTO;
            }
            forall j | 0 <= j < actualSize {
              buf[at + j] := payload[j];
            }
            return actualSize;
        }
      }
    }

    /** One chunk of a read that has `done` bytes of the buffer and began at request n and version v. */
    method ReadChunk(buf: array<Byte>, done: nat, nextCount: nat, offset: nat, ghost n: nat, ghost v: Version)
      returns (result: int)
      requires server.Valid() && done + nextCount <= buf.Length && Fell(n, v, server.sent, versionRead)
      modifies this`versionRead, server`sent, buf
      ensures result <= nextCount && Fell(n, v, server.sent, versionRead) && n < server.sent
      ensures server.sent + Spare(versionRead) <= old(server.sent) + 1 + Spare(old(versionRead))
      ensures forall j :: 0 <= j < buf.Length && !(done <= j < done + result) ==> buf[j] == old(buf[j])
      ensures result > 0 ==> offset + done + result <= |server.file|
      ensures forall j :: done <= j < done + result ==> buf[j] == server.file[offset + j]
      ensures var a := server.plan(server.sent - 1, versionRead);
              if Bad(a) then result < 0
              else result == Min(Min(a.n, nextCount), Available(server.file, offset + done))
    {
      result := DoRead(buf, done, nextCount, offset + done);
      FellMore(n, v, old(server.sent), old(versionRead), server.sent, versionRead);
    }

    /** The buffer gets the server's bytes up to the returned length. Without an error the rest of it
        becomes zero; after one the rest is as it was. `failed` says which, and `from` is where in the
        buffer the last request began. */
    method Read(buf: array<Byte>, count: nat, offset: nat) returns (r: nat, failed: bool, ghost from: nat)
      requires server.Valid() && count <= buf.Length && maxPacketSize < UINT32
      modifies this`versionRead, server`sent, buf
      ensures r <= count && (r > 0 ==> offset + r <= |server.file|)
      ensures forall j :: 0 <= j < r ==> buf[j] == server.file[offset + j]
      ensures forall j :: r <= j < buf.Length ==> buf[j] == if !failed && j < count then 0 else old(buf[j])
      ensures from <= count && old(server.sent) < server.sent
      ensures var a, asked := server.plan(server.sent - 1, versionRead),
                              Min(MaxIOSize(maxPacketSize, largePackets), count - from);
              && (failed <==> Bad(a))
              && r == from + if failed then 0 else Min(Min(a.n, asked), Available(server.file, offset + from))
      ensures Fell(old(server.sent), old(versionRead), server.sent, versionRead)
      ensures Kind(server.plan, old(server.sent), old(versionRead)) ==> !failed
      ensures !failed && Eager(server.plan) ==> r == Min(count, Available(server.file, offset))
      ensures server.sent <= old(server.sent) + count + 2
    {
      var maxIOSize := MaxIOSize(maxPacketSize, largePackets);
      var remaining := count;
      var done := 0;
      while true
        invariant done + remaining == count && (done > 0 ==> offset + done <= |server.file| && remaining > 0)
        invariant forall j :: 0 <= j < done ==> buf[j] == server.file[offset + j]
        invariant forall j :: done <= j < buf.Length ==> buf[j] == old(buf[j])
        invariant Fell(old(server.sent), old(versionRead), server.sent, versionRead)
        invariant server.sent + Spare(versionRead) <= old(server.sent) + done + Spare(old(versionRead))
        decreases remaining
      {
        var nextCount := if remaining > maxIOSize then maxIOSize else remaining;
        from := done;
        var result := ReadChunk(buf, done, nextCount, offset, old(server.sent), old(versionRead));
        if result < 0 {
          return done, true, from;
        }
        remaining := remaining - result;
        done := done + result;
        if !(result > 0 && remaining > 0) {
          break;
        }
      }
      forall j | done <= j < done + remaining {
        buf[j] := 0;
      }
      return done, false, from;
    }

    method DoWrite(data: seq<Byte>, offset: nat) returns (result: int)
      requires server.Valid()
      modifies this`versionWrite, server`sent, server`file
      ensures result <= |data| && Falls(old(server.sent), old(versionWrite), server.sent, versionWrite)
      ensures server.file == if result >= 0 then Splice(old(server.file), offset, data[..result]) else old(server.file)
      ensures result == Written(server.plan(server.sent - 1, versionWrite), |data|)
    {
      while true
        invariant if versionWrite == old(versionWrite) then server.sent == old(server.sent)
                  else
                    && old(versionWrite) == V3 && versionWrite == V1 && server.sent == old(server.sent) + 1
                    && Outdated(server.plan(old(server.sent), V3))
        invariant server.file == old(server.file)
        decreases Spare(versionWrite)
      {
        var opUsed := versionWrite;
        var answer := server.ServeWrite(opUsed, offset, data);
        match answer {
          case Lost(err) =>
            return -err;
          case Refused(err) =>
            if err == EPROTO && opUsed == V3 {
              versionWrite := V1;
            } else {
              return -err;
            }
          case Grant(actualSize) =>
            return actualSize;
        }
      }
    }

    /** What an answer to a write of count bytes comes to. */
    static function Written(a: Answer, count: nat): (r: int)
      ensures a.Grant? ==> r == Min(a.n, count)
      ensures a.Lost? || a.Refused? ==> r == -a.err
      ensures a.Excess? ==> r == count
    {
      if a.Grant? then Min(a.n, count) else if a.Excess? then count else -a.err
    }

    /** One chunk of a write that has sent `done` bytes of buf. */
    method WriteChunk(buf: seq<Byte>, done: nat, nextCount: nat, offset: nat, ghost was: seq<Byte>, ghost n: nat,
                      ghost v: Version)
      returns (result: int)
      requires Fell(n, v, server.sent, versionWrite)
      requires server.Valid() && done + nextCount <= |buf| && server.file == Splice(was, offset, buf[..done])
      modifies this`versionWrite, server`sent, server`file
      ensures result <= nextCount && Fell(n, v, server.sent, versionWrite) && n < server.sent
      ensures server.sent + Spare(versionWrite) <= old(server.sent) + 1 + Spare(old(versionWrite))
      ensures server.file == Splice(was, offset, buf[..done + if result < 0 then 0 else result])
      ensures result == Written(server.plan(server.sent - 1, versionWrite), nextCount)
    {
      var chunk := buf[done..done + nextCount];
      result := DoWrite(chunk, offset + done);
      FellMore(n, v, old(server.sent), old(versionWrite), server.sent, versionWrite);
      if result >= 0 {
        SpliceMore(was, offset, buf, done, nextCount, result);
      }
    }

    /** The server's file becomes the old one with a prefix of the buffer written at the offset. The
        result is the length of that prefix or, after an error, its code. */
    method Write(buf: seq<Byte>, offset: nat) returns (r: int, ghost written: nat)
      requires server.Valid() && maxPacketSize < UINT32
      modifies this`versionWrite, server`sent, server`file
      ensures written <= |buf| && (r >= 0 ==> r == written)
      ensures server.file == Splice(old(server.file), offset, buf[..written])
      ensures old(server.sent) < server.sent
      ensures var a := server.plan(server.sent - 1, versionWrite);
              if a.Lost? || a.Refused? then r == -a.err < 0 else r >= 0
      ensures Fell(old(server.sent), old(versionWrite), server.sent, versionWrite)
      ensures Kind(server.plan, old(server.sent), old(versionWrite)) ==> r >= 0
      ensures r >= 0 && Eager(server.plan) ==> r == |buf|
      ensures server.sent <= old(server.sent) + |buf| + 2
    {
      var maxIOSize := MaxIOSize(maxPacketSize, largePackets);
      var remaining := |buf|;
      var done := 0;
      SpliceNothing(server.file, offset);
      assert buf[..0] == [];
      while true
        invariant done + remaining == |buf| && (done > 0 ==> remaining > 0)
        invariant server.file == Splice(old(server.file), offset, buf[..done])
        invariant Fell(old(server.sent), old(versionWrite), server.sent, versionWrite)
        invariant server.sent + Spare(versionWrite) <= old(server.sent) + done + Spare(old(versionWrite))
        decreases remaining
      {
        var nextCount := if remaining > maxIOSize then maxIOSize else remaining;
        var result := WriteChunk(buf, done, nextCount, offset, old(server.file), old(server.sent), old(versionWrite));
        if result < 0 {
          return result, done;
        }
        remaining := remaining - result;
        done := done + result;
        if !(result > 0 && remaining > 0) {
          break;
        }
      }
      return done, done;
    }
  }
}
