/** The GuestStore download client: one call context, a request sent in pieces, a response
    header reassembled from arbitrarily split receives, a body copied to the output file,
    and the clean-up that decides whether the file stays. */
module GuestStoreClient {
  import opened Basics
  import opened CStrings
  import opened GuestStoreRequest

  const BUFFER_SIZE: nat := 64 * 1024
  const CONTENT_LENGTH: string := "Content-Length: "

  datatype Error =
    | Success | InvalidParameter | NotInitialized | ConnectGeneric | Connection | PeerReset
    | Recv | Send | Server | Forbidden | NotFound | CreateOutputFile | WriteOutputFile | Cancelled

  /** What the peer and the kernel do to one send or receive call: move at most so many
      bytes (always at least one), or fail. */
  datatype Transfer = Upto(bytes: nat) | Broken

  // ---- the meaning of a response ----

  function Wrap64(n: int): (r: int)
    ensures -0x8000_0000_0000_0000 <= r < 0x8000_0000_0000_0000
    ensures -0x8000_0000_0000_0000 <= n < 0x8000_0000_0000_0000 ==> r == n
  {
    (n + 0x8000_0000_0000_0000) % 0x1_0000_0000_0000_0000 - 0x8000_0000_0000_0000
  }

  function DigitValue(c: char): (r: nat)
    requires IsDigit(c)
  {
    (c as int) - ('0' as int)
  }

  /** The number written by the digits from `from` on, continuing from `acc`, in 64-bit arithmetic. */
  function Digits(s: string, from: nat, acc: int): (r: int)
    requires from <= |s|
    decreases |s| - from
  {
    if from == |s| || !IsDigit(s[from]) then acc
    else Digits(s, from + 1, Wrap64(Wrap64(acc * 10) + DigitValue(s[from])))
  }

  function SkipBlanks(s: string, from: nat): (r: nat)
    requires from <= |s|
    ensures from <= r <= |s| && (r < |s| ==> !IsBlank(s[r]))
    decreases |s| - from
  {
    if from < |s| && IsBlank(s[from]) then SkipBlanks(s, from + 1) else from
  }

  /** isspace in the C locale. */
  predicate IsBlank(c: char) {
    c == ' ' || '\t' <= c <= '\r'
  }

  /** atoi: blanks, a sign, digits. */
  function Atoi(token: string): (r: int) {
    var i := SkipBlanks(token, 0);
    if i < |token| && token[i] == '-' then -Digits(token, i + 1, 0)
    else if i < |token| && token[i] == '+' then Digits(token, i + 1, 0)
    else Digits(token, i, 0)
  }

  /** A complete 200 response: the stream is a NUL-free header closed by its first blank
      line, announcing `size` bytes, followed by the content. */
  ghost predicate IsResponse(stream: string, statusRest: string, size: nat, content: string) {
    var header := HeaderText(statusRest);
    && stream == header + content
    && NUL !in statusRest
    && (forall i :: 0 <= i < |header| - |HEADER_END| ==> !MatchAt(header, i, HEADER_END))
    && Announces(statusRest, size)
  }

  /** The header of a response with a status code of three digits. */
  function StatusText(code: string, rest: string): (r: string) {
    HTTP_VERSION + " " + code + " " + rest + HEADER_END
  }

  function HeaderText(statusRest: string): (r: string) {
    StatusText("200", statusRest)
  }

  predicate IsCode(code: string) {
    |code| == 3 && IsDigit(code[0]) && IsDigit(code[1]) && IsDigit(code[2])
  }

  /** A header that is not accepted: another code than 200, or no length. */
  ghost predicate IsRefusal(stream: string, code: string, rest: string) {
    var header := StatusText(code, rest);
    && IsCode(code) && header <= stream && NUL !in rest
    && (forall i :: 0 <= i < |header| - |HEADER_END| ==> !MatchAt(header, i, HEADER_END))
    && (code == "200" ==> forall i: nat :: !MatchAt(rest, i, CONTENT_LENGTH))
  }

  /** The error it comes to. */
  function Refusal(code: string): (r: Error) {
    if code == "404" then NotFound else if code == "403" then Forbidden else Server
  }

  /** `rest`, the text after the status code, holds a Content-Length line whose first occurrence reads `size`. */
  ghost predicate Announces(rest: string, size: nat) {
    exists k: nat ::
      && MatchAt(rest, k, CONTENT_LENGTH)
      && (forall i: nat :: i < k ==> !MatchAt(rest, i, CONTENT_LENGTH))
      && Digits(rest, k + |CONTENT_LENGTH|, 0) == size
  }

  // ---- the header text, parsed as the source does ----

  datatype Parsed = Reject(error: Error) | Accept(size: int)

  /** Where the text goes on behind the version token, if that is the right one. */
  function AfterVersion(s: string): (r: Option<nat>)
    ensures r.Some? ==> r.value <= |s|
  {
    var v := SkipDelims(s, 0, {' '});
    var vEnd := TokenEnd(s, v, {' '});
    if s[v..vEnd] != HTTP_VERSION || vEnd == |s| || s[vEnd] == NUL then None else Some(vEnd + 1)
  }

  /** The verdict on a header text cut at its blank line: the version and status tokens are
      taken in turn, and the length is looked for after the status token. */
  function ParseHeader(s: string): (r: Parsed)
    ensures r.Reject? ==> r.error in {Server, Forbidden, NotFound}
    ensures r.Accept? ==> r.size >= 0
  {
    match AfterVersion(s)
    case None => Reject(Server)
    case Some(next) => ParseStatus(s, next)
  }

  function ParseStatus(s: string, from: nat): (r: Parsed)
    requires from <= |s|
    ensures r.Reject? ==> r.error in {Server, Forbidden, NotFound}
    ensures r.Accept? ==> r.size >= 0
  {
    var c := SkipDelims(s, from, {' '});
    var cEnd := TokenEnd(s, c, {' '});
    if c == cEnd then Reject(Server)
    else
      var status := Atoi(s[c..cEnd]);
      if status == 403 then Reject(Forbidden)
      else if status == 404 then Reject(NotFound)
      else if status != 200 || cEnd == |s| then Reject(Server)
      else ParseLength(s, cEnd + 1)
  }

  function ParseLength(s: string, from: nat): (r: Parsed)
    requires from <= |s|
    ensures r.Reject? ==> r.error == Server
    ensures r.Accept? ==> r.size >= 0
  {
    match Strstr(s, from, CONTENT_LENGTH)
    case None => Reject(Server)
    case Some(k) =>
      var size := Digits(s, k + |CONTENT_LENGTH|, 0);
      if size < 0 then Reject(Server) else Accept(size)
  }

  lemma {:induction false} DigitsShift(a: string, b: string, pre: nat, from: nat, acc: int)
    requires pre + |b| <= |a| && a[pre..pre + |b|] == b && from <= |b|
    requires pre + |b| < |a| ==> !IsDigit(a[pre + |b|])
    ensures Digits(a, pre + from, acc) == Digits(b, from, acc)
    decreases |b| - from
  {
    if from < |b| {
      assert a[pre + from] == a[pre..pre + |b|][from];
      if IsDigit(b[from]) {
        DigitsShift(a, b, pre, from + 1, Wrap64(Wrap64(acc * 10) + DigitValue(b[from])));
      }
    }
  }

  lemma MatchInside(s: string, pre: nat, part: string, i: nat, pat: string)
    requires pre + |part| <= |s| && s[pre..pre + |part|] == part
    requires i + |pat| <= |part|
    ensures MatchAt(s, pre + i, pat) <==> MatchAt(part, i, pat)
  {
    var inner := s[pre + i..pre + i + |pat|];
    forall j | 0 <= j < |pat| ensures inner[j] == part[i + j] {
      assert s[pre..pre + |part|][i + j] == part[i + j];
    }
    assert inner == part[i..i + |pat|];
  }

  /** A pattern without NUL cannot reach over a NUL. */
  lemma NoMatchOverNul(s: string, i: nat, pat: string, nul: nat)
    requires NUL !in pat && i <= nul < i + |pat| && nul < |s| && s[nul] == NUL
    ensures !MatchAt(s, i, pat)
  {
    if i + |pat| <= |s| {
      assert s[i..i + |pat|][nul - i] == NUL;
      assert NUL in s[i..i + |pat|];
    }
  }

  /** A text that begins with the version, a code and the rest, and goes on. */
  ghost predicate Begins(s: string, code: string, rest: string) {
    |code| == 3 && 13 + |rest| < |s| && s[..13 + |rest|] == HTTP_VERSION + " " + code + " " + rest
  }

  lemma VersionToken(s: string, code: string, rest: string)
    requires Begins(s, code, rest)
    ensures SkipDelims(s, 0, {' '}) == 0 && TokenEnd(s, 0, {' '}) == 8 && s[0..8] == HTTP_VERSION && s[8] == ' '
  {
    var front := HTTP_VERSION + " " + code + " " + rest;
    assert forall k :: 0 <= k < 9 ==> s[k] == s[..13 + |rest|][k] == front[k];
    assert front[..8] == HTTP_VERSION && front[8] == ' ';
    TokenEndIs(s, 0, 8, {' '});
  }

  lemma StatusToken(s: string, code: string, rest: string)
    requires Begins(s, code, rest) && IsCode(code)
    ensures SkipDelims(s, 9, {' '}) == 9 && TokenEnd(s, 9, {' '}) == 12 && s[9..12] == code
    ensures s[13..13 + |rest|] == rest
  {
    var front := HTTP_VERSION + " " + code + " " + rest;
    assert forall k :: 9 <= k < 13 ==> s[k] == s[..13 + |rest|][k] == front[k];
    assert front[9..12] == code && front[12] == ' ';
    assert s[9..12] == front[9..12];
    assert s[9] == code[0] && s[10] == code[1] && s[11] == code[2];
    TokenEndIs(s, 9, 12, {' '});
    assert s[13..13 + |rest|] == s[..13 + |rest|][13..] == front[13..] == rest;
  }

  lemma DigitsStep(s: string, from: nat, acc: int)
    requires from < |s| && IsDigit(s[from]) && 0 <= acc && 10 * acc + DigitValue(s[from]) < 0x8000_0000_0000_0000
    ensures Digits(s, from, acc) == Digits(s, from + 1, acc * 10 + DigitValue(s[from]))
  {
  }

  /** A number as a server prints it. */
  function Decimal(n: nat): (r: string)
    ensures r != "" && IsDigit(r[0])
  {
    var last := [('0' as int + n % 10) as char];
    if n < 10 then last else Decimal(n / 10) + last
  }

  lemma DecimalEnds(n: nat)
    ensures var text := Decimal(n);
            && IsDigit(text[|text| - 1]) && n == 10 * (n / 10) + DigitValue(text[|text| - 1])
            && text[..|text| - 1] == if n < 10 then "" else Decimal(n / 10)
  {
  }

  lemma MatchFront(s: string, at: nat, pat: string)
    requires MatchAt(s, at, pat) && pat != ""
    ensures s[at + |pat| - 1] == pat[|pat| - 1] && MatchAt(s, at, pat[..|pat| - 1])
  {
    assert s[at + |pat| - 1] == s[at..at + |pat|][|pat| - 1];
    assert s[at..at + |pat| - 1] == s[at..at + |pat|][..|pat| - 1];
  }

  lemma ReadsOneMore(s: string, from: nat, at: nat, q: nat, n: nat)
    requires from <= at < |s| && IsDigit(s[at]) && n == 10 * q + DigitValue(s[at]) < 0x8000_0000_0000_0000
    requires Digits(s, from, 0) == Digits(s, at, q)
    ensures Digits(s, from, 0) == Digits(s, at + 1, n)
  {
    DigitsStep(s, at, q);
  }

  /** A printed number below 2^63 is read as what it is. */
  lemma {:induction false} ReadsDecimal(s: string, from: nat, n: nat)
    requires n < 0x8000_0000_0000_0000 && MatchAt(s, from, Decimal(n))
    ensures Digits(s, from, 0) == Digits(s, from + |Decimal(n)|, n)
  {
    DecimalEnds(n);
    MatchFront(s, from, Decimal(n));
    if n >= 10 { ReadsDecimal(s, from, n / 10); }
    ReadsOneMore(s, from, from + |Decimal(n)| - 1, n / 10, n);
  }

  /** A length line, the first of its kind, announces the number printed on it. */
  lemma AnnouncesDecimal(before: string, n: nat, rest: string)
    requires n < 0x8000_0000_0000_0000 && (rest == "" || !IsDigit(rest[0]))
    requires 'C' !in before
    ensures Announces(before + CONTENT_LENGTH + Decimal(n) + rest, n)
  {
    var text, k := before + CONTENT_LENGTH + Decimal(n) + rest, |before|;
    var at := k + |CONTENT_LENGTH|;
    assert text[k..at] == CONTENT_LENGTH && text[at..at + |Decimal(n)|] == Decimal(n);
    forall i: nat | i < k ensures !MatchAt(text, i, CONTENT_LENGTH) {
      assert text[i] == before[i];
      assert i + |CONTENT_LENGTH| <= |text| ==> text[i] == text[i..i + |CONTENT_LENGTH|][0];
    }
    ReadsDecimal(text, at, n);
    assert MatchAt(text, k, CONTENT_LENGTH);
  }

  lemma {:induction false} SkipsBlanks(s: string, from: nat, end: nat)
    requires from <= end < |s| && !IsBlank(s[end]) && forall i :: from <= i < end ==> IsBlank(s[i])
    ensures SkipBlanks(s, from) == end
    decreases end - from
  {
    if from < end { SkipsBlanks(s, from + 1, end); }
  }

  /** atoi on what it is meant for. */
  lemma AtoiReads(blanks: string, sign: string, n: nat, rest: string)
    requires n < 0x8000_0000_0000_0000 && (rest == "" || !IsDigit(rest[0]))
    requires (forall i :: 0 <= i < |blanks| ==> blanks[i] in {' ', '\t', '\n', '\r'}) && sign in {"", "+", "-"}
    ensures Atoi(blanks + sign + Decimal(n) + rest) == if sign == "-" then 0 - n else n
  {
    var s, at := blanks + sign + Decimal(n) + rest, |blanks| + |sign|;
    assert s[at..at + |Decimal(n)|] == Decimal(n) && s[at] == Decimal(n)[0];
    assert forall i :: 0 <= i < |blanks| ==> s[i] == blanks[i];
    assert sign != "" ==> s[|blanks|] == sign[0];
    SkipsBlanks(s, 0, |blanks|);
    ReadsDecimal(s, at, n);
  }

  lemma CodeValue(code: string)
    requires IsCode(code)
    ensures Atoi(code) == 100 * DigitValue(code[0]) + 10 * DigitValue(code[1]) + DigitValue(code[2])
  {
    DigitsStep(code, 0, 0);
    DigitsStep(code, 1, DigitValue(code[0]));
    DigitsStep(code, 2, 10 * DigitValue(code[0]) + DigitValue(code[1]));
  }

  /** Three digits are read as the number they write. */
  lemma CodeIs(code: string, a: char, b: char, c: char)
    requires IsCode(code) && IsDigit(a) && IsDigit(b) && IsDigit(c)
    ensures Atoi(code) == 100 * DigitValue(a) + 10 * DigitValue(b) + DigitValue(c) <==> code == [a, b, c]
  {
    CodeValue(code);
    ThreeDigits(DigitValue(code[0]), DigitValue(code[1]), DigitValue(code[2]),
                DigitValue(a), DigitValue(b), DigitValue(c));
    assert code == [code[0], code[1], code[2]];
  }

  lemma ThreeDigits(x: nat, y: nat, z: nat, a: nat, b: nat, c: nat)
    requires y <= 9 && z <= 9 && b <= 9 && c <= 9
    ensures 100 * x + 10 * y + z == 100 * a + 10 * b + c <==> x == a && y == b && z == c
  {
  }

  /** strstr on a text sees the first match of a NUL-free part at the part's own place. */
  lemma StrstrInside(s: string, pre: nat, part: string, k: nat, pat: string)
    requires pre + |part| <= |s| && s[pre..pre + |part|] == part && NUL !in part && pat != ""
    requires MatchAt(part, k, pat) && forall i: nat :: i < k ==> !MatchAt(part, i, pat)
    ensures Strstr(s, pre, pat) == Some(pre + k)
  {
    MatchInside(s, pre, part, k, pat);
    forall i | pre <= i <= pre + k ensures s[i] != NUL {
      assert s[i] == s[pre..pre + |part|][i - pre];
    }
    forall i | pre <= i < pre + k ensures !MatchAt(s, i, pat) {
      MatchInside(s, pre, part, i - pre, pat);
      assert !MatchAt(part, i - pre, pat);
    }
    StrstrFinds(s, pre, pre + k, pat);
  }

  /** The digits behind a pattern in a part of a text are those in the text. */
  lemma DigitsInside(s: string, pre: nat, part: string, k: nat, pat: string)
    requires pre + |part| < |s| && s[pre..pre + |part|] == part && s[pre + |part|] == NUL && MatchAt(part, k, pat)
    ensures pre + k + |pat| <= |s| && Digits(s, pre + k + |pat|, 0) == Digits(part, k + |pat|, 0)
  {
    DigitsShift(s, part, pre, k + |pat|, 0);
  }

  lemma LengthInside(s: string, pre: nat, rest: string, k: nat, size: nat)
    requires pre + |rest| < |s| && s[pre..pre + |rest|] == rest && s[pre + |rest|] == NUL && NUL !in rest
    requires MatchAt(rest, k, CONTENT_LENGTH) && forall i: nat :: i < k ==> !MatchAt(rest, i, CONTENT_LENGTH)
    requires Digits(rest, k + |CONTENT_LENGTH|, 0) == size
    ensures ParseLength(s, pre) == Accept(size)
  {
    StrstrInside(s, pre, rest, k, CONTENT_LENGTH);
    DigitsInside(s, pre, rest, k, CONTENT_LENGTH);
  }

  /** The length line is found inside the header, never in what follows the cut. */
  lemma FindsLength(s: string, rest: string, size: nat)
    requires 13 + |rest| < |s| && s[13..13 + |rest|] == rest && s[13 + |rest|] == NUL
    requires NUL !in rest && Announces(rest, size)
    ensures ParseLength(s, 13) == Accept(size)
  {
    var k: nat :| MatchAt(rest, k, CONTENT_LENGTH)
      && (forall i: nat :: i < k ==> !MatchAt(rest, i, CONTENT_LENGTH))
      && Digits(rest, k + |CONTENT_LENGTH|, 0) == size;
    LengthInside(s, 13, rest, k, size);
  }

  lemma ParsesStatus(s: string, size: nat)
    requires 13 <= |s| && SkipDelims(s, 9, {' '}) == 9 && TokenEnd(s, 9, {' '}) == 12 && Atoi(s[9..12]) == 200
    requires ParseLength(s, 13) == Accept(size)
    ensures ParseStatus(s, 9) == Accept(size)
  {
  }

  /** A well-formed 200 header, cut at its blank line, parses to the size it announces,
      whatever stands behind the cut. */
  lemma ParsesResponse(s: string, rest: string, size: nat)
    requires Begins(s, "200", rest) && s[13 + |rest|] == NUL
    requires NUL !in rest && Announces(rest, size)
    ensures ParseHeader(s) == Accept(size)
  {
    assert ParseStatus(s, 9) == Accept(size) by {
      StatusToken(s, "200", rest);
      CodeIs(s[9..12], '2', '0', '0');
      FindsLength(s, rest, size);
      ParsesStatus(s, size);
    }
    VersionToken(s, "200", rest);
  }

  lemma {:induction false} StrstrNone(s: string, from: nat, end: nat, pat: string)
    requires from <= end < |s| && pat != "" && s[end] == NUL && forall i :: from <= i < end ==> !MatchAt(s, i, pat)
    ensures Strstr(s, from, pat) == None
    decreases end - from
  {
    if from < end { StrstrNone(s, from + 1, end, pat); }
  }

  /** strstr does not find in a text what does not stand in the part that a NUL closes. */
  lemma NoneInside(s: string, pre: nat, rest: string, pat: string)
    requires pre + |rest| < |s| && s[pre..pre + |rest|] == rest && s[pre + |rest|] == NUL
    requires pat != "" && NUL !in pat && forall i: nat :: !MatchAt(rest, i, pat)
    ensures Strstr(s, pre, pat) == None
  {
    forall i | pre <= i < pre + |rest| ensures !MatchAt(s, i, pat) {
      if i + |pat| <= pre + |rest| {
        MatchInside(s, pre, rest, i - pre, pat);
        assert !MatchAt(rest, i - pre, pat);
      } else {
        NoMatchOverNul(s, i, pat, pre + |rest|);
      }
    }
    StrstrNone(s, pre, pre + |rest|, pat);
  }

  lemma RefusesStatus(s: string, code: string)
    requires 13 <= |s| && SkipDelims(s, 9, {' '}) == 9 && TokenEnd(s, 9, {' '}) == 12 && s[9..12] == code
    requires IsCode(code) && (code == "200" ==> Strstr(s, 13, CONTENT_LENGTH) == None)
    ensures ParseStatus(s, 9) == Reject(Refusal(code))
  {
    CodeIs(code, '4', '0', '4');
    CodeIs(code, '4', '0', '3');
    CodeIs(code, '2', '0', '0');
  }

  /** A header with another code, or without a length, cut at its blank line: 404 is not found, 403 is
      forbidden, and everything else is the server's error. */
  lemma RefusesResponse(s: string, code: string, rest: string)
    requires Begins(s, code, rest) && s[13 + |rest|] == NUL && IsCode(code)
    requires code == "200" ==> forall i: nat :: !MatchAt(rest, i, CONTENT_LENGTH)
    ensures ParseHeader(s) == Reject(Refusal(code))
  {
    StatusToken(s, code, rest);
    if code == "200" { NoneInside(s, 13, rest, CONTENT_LENGTH); }
    RefusesStatus(s, code);
    VersionToken(s, code, rest);
  }

  lemma SameMatch(stream: string, start: nat, buf: string, total: nat, i: nat, pat: string)
    requires start + total <= |stream| && total <= |buf| && buf[..total] == stream[start..start + total]
    requires i + |pat| <= total && pat != ""
    ensures (MatchAt(stream, start + i, pat) <==> MatchAt(buf, i, pat)) && stream[start + i] == buf[i]
  {
    var part := buf[..total];
    MatchInside(stream, start, part, i, pat);
    MatchInside(buf, 0, part, i, pat);
    assert part[i] == buf[i] && stream[start..start + total][i] == stream[start + i];
  }

  /** `pat` first stands at `at`, with no NUL on the way: the place that strstr finds. */
  ghost predicate FirstAt(s: string, from: nat, at: nat, pat: string) {
    && from <= at < |s| && MatchAt(s, at, pat)
    && forall k :: from <= k < at ==> !MatchAt(s, k, pat) && s[k] != NUL
  }

  /** The first match in the buffer is the first one in the stream. */
  lemma FirstInStream(stream: string, start: nat, buf: string, total: nat, cut: nat, pat: string)
    requires start + total <= |stream| && total <= |buf| && buf[..total] == stream[start..start + total]
    requires cut + |pat| <= total && pat != "" && FirstAt(buf, 0, cut, pat)
    ensures FirstAt(stream, start, start + cut, pat)
  {
    forall k | start <= k < start + cut ensures !MatchAt(stream, k, pat) && stream[k] != NUL {
      SameMatch(stream, start, buf, total, k - start, pat);
    }
    SameMatch(stream, start, buf, total, cut, pat);
  }

  /** The stream's first match is seen in the buffer exactly when it has arrived as a whole, and at its
      own place. */
  lemma {:induction false} MatchSeen(stream: string, start: nat, buf: string, got: nat, i: nat, k: nat, pat: string)
    requires start + got <= |stream| && got < |buf| && buf[..got] == stream[start..start + got] && buf[got] == NUL
    requires NUL !in pat && pat != "" && FirstAt(stream, start, start + k, pat) && stream[start + k] != NUL
    requires i <= got && (k < i ==> got < k + |pat|)
    ensures Strstr(buf, i, pat) == if got < k + |pat| then None else Some(k)
    decreases got - i
  {
    if i < got {
      assert buf[i] == buf[..got][i] == stream[start..start + got][i] == stream[start + i];
      if i + |pat| > got {
        NoMatchOverNul(buf, i, pat, got);
      } else {
        SameMatch(stream, start, buf, got, i, pat);
      }
      if i != k || got < k + |pat| { MatchSeen(stream, start, buf, got, i + 1, k, pat); }
    }
  }

  /** The first blank line of the stream from `start` on ends its first `header` bytes. */
  ghost predicate HeaderEndsAt(stream: string, start: nat, header: nat) {
    4 <= header && start + header <= |stream| && FirstAt(stream, start, start + header - 4, HEADER_END)
  }

  /** The blank line is found exactly when the whole header has arrived, and at its own place. */
  lemma HeaderEndSeen(stream: string, start: nat, header: nat, got: nat, buf: string)
    requires start + got <= |stream| && got < |buf| && buf[..got] == stream[start..start + got] && buf[got] == NUL
    requires HeaderEndsAt(stream, start, header)
    ensures Strstr(buf, 0, HEADER_END) == if got < header then None else Some(header - 4)
  {
    var k := header - 4;
    assert stream[start + k] == stream[start + k..start + k + 4][0] == '\r';
    MatchSeen(stream, start, buf, got, 0, k, HEADER_END);
  }

  /** A blank line found in the buffer is the first one of the stream. */
  lemma HeaderFound(stream: string, start: nat, got: nat, buf: string, cut: nat)
    requires start + got <= |stream| && got < |buf| && buf[..got] == stream[start..start + got] && buf[got] == NUL
    requires Strstr(buf, 0, HEADER_END) == Some(cut)
    ensures cut + 4 <= got && HeaderEndsAt(stream, start, cut + 4)
  {
    if cut + 4 > got { NoMatchOverNul(buf, cut, HEADER_END, got); }
    FirstInStream(stream, start, buf, got, cut, HEADER_END);
  }

  /** strstr on the terminated text that has arrived. */
  method FindHeaderEnd(text: string, got: nat, ghost stream: string, ghost start: nat, ghost header: nat)
    returns (end: Option<nat>)
    requires start + got <= |stream| && got < |text| && text[..got] == stream[start..start + got] && text[got] == NUL
    ensures end.Some? ==> end.value + 4 <= got && HeaderEndsAt(stream, start, end.value + 4)
    ensures HeaderEndsAt(stream, start, header) ==> end == if got < header then None else Some(header - 4)
  {
    end := Strstr(text, 0, HEADER_END);
    if end.Some? { HeaderFound(stream, start, got, text, end.value); }
    if HeaderEndsAt(stream, start, header) { HeaderEndSeen(stream, start, header, got, text); }
  }

  /** `s` is the stream up to its blank line, cut there. */
  ghost predicate CutAt(s: string, stream: string, header: nat) {
    4 <= header && header - 4 < |s| && header <= |stream| && s[..header - 4] == stream[..header - 4]
    && s[header - 4] == NUL
  }

  /** However the buffer goes on behind the cut, that is the verdict on the header. */
  ghost predicate Verdict(stream: string, header: nat, v: Parsed) {
    forall s: string :: CutAt(s, stream, header) ==> ParseHeader(s) == v
  }

  lemma VerdictInBuffer(stream: string, text: string, header: nat, v: Parsed)
    requires Verdict(stream, header, v) && 4 <= header <= |text| <= |stream| && text == stream[..|text|]
    ensures Verdict(text, header, v)
  {
    forall s: string | CutAt(s, text, header) ensures ParseHeader(s) == v {
      assert text[..header - 4] == stream[..header - 4];
      assert CutAt(s, stream, header);
    }
  }

  lemma CutBegins(s: string, stream: string, code: string, rest: string)
    requires |code| == 3 && StatusText(code, rest) <= stream && CutAt(s, stream, |StatusText(code, rest)|)
    ensures Begins(s, code, rest) && s[13 + |rest|] == NUL
  {
    var front := HTTP_VERSION + " " + code + " " + rest;
    assert StatusText(code, rest) == front + HEADER_END && |front| == 13 + |rest|;
    assert stream[..|front|] == front;
  }

  lemma ResponseAnnounces(stream: string, rest: string, content: string)
    requires IsResponse(stream, rest, |content|, content)
    ensures stream[|HeaderText(rest)|..] == content && Verdict(stream, |HeaderText(rest)|, Accept(|content|))
  {
    forall s: string | CutAt(s, stream, |HeaderText(rest)|) ensures ParseHeader(s) == Accept(|content|) {
      CutBegins(s, stream, "200", rest);
      ParsesResponse(s, rest, |content|);
    }
  }

  lemma RefusalRejects(stream: string, code: string, rest: string)
    requires IsRefusal(stream, code, rest)
    ensures Verdict(stream, |StatusText(code, rest)|, Reject(Refusal(code)))
  {
    forall s: string | CutAt(s, stream, |StatusText(code, rest)|) ensures ParseHeader(s) == Reject(Refusal(code)) {
      CutBegins(s, stream, code, rest);
      RefusesResponse(s, code, rest);
    }
  }

  lemma HeaderEnds(stream: string, code: string, rest: string)
    requires StatusText(code, rest) <= stream && IsCode(code) && NUL !in rest
    requires var h := StatusText(code, rest); forall i :: 0 <= i < |h| - 4 ==> !MatchAt(h, i, HEADER_END)
    ensures HeaderEndsAt(stream, 0, |StatusText(code, rest)|)
  {
    var h, front := StatusText(code, rest), HTTP_VERSION + " " + code + " " + rest;
    var last := |h| - 4;
    assert h == front + HEADER_END;
    assert forall k :: 0 <= k < |h| ==> stream[k] == h[k];
    assert forall k :: 0 <= k < last ==> h[k] == front[k];
    assert NUL !in HTTP_VERSION + " " && NUL !in code && NUL !in " ";
    assert forall k :: 0 <= k <= last ==> h[k] != NUL;
    forall k | 0 <= k < last ensures !MatchAt(stream, k, HEADER_END) {
      assert stream[k..k + 4] == h[k..k + 4];
      assert !MatchAt(h, k, HEADER_END);
    }
    assert stream[last..last + 4] == h[last..last + 4] == HEADER_END;
  }

  // ---- how a stream splits into receives and writes ----

  type Plan = nat -> Transfer

  ghost predicate Obliging(plan: Plan) {
    forall i :: plan(i).Upto?
  }

  /** What one receive call moves when `left` bytes are still to come. */
  function Moved(t: Transfer, max: nat, left: nat): (r: nat)
    ensures r <= max && r <= left && (t.Upto? && max > 0 && left > 0 ==> r > 0)
  {
    if t.Broken? then 0 else Min(Min(t.bytes + 1, max), left)
  }

  /** The number of the next call once n bytes have been sent. */
  ghost function AfterSends(plan: Plan, call: nat, n: nat): (r: nat)
    requires Obliging(plan)
    decreases n
  {
    if n == 0 then call else AfterSends(plan, call + 1, n - Min(plan(call).bytes + 1, n))
  }

  /** What has arrived after n receives into a buffer whose last byte is kept free. */
  ghost function Got(plan: Plan, call: nat, n: nat, len: nat): (r: nat)
    requires Obliging(plan)
    ensures r <= len && r < BUFFER_SIZE
  {
    if n == 0 then 0
    else
      var g := Got(plan, call, n - 1, len);
      g + Moved(plan(call + n - 1), BUFFER_SIZE - 1 - g, len - g)
  }

  /** The least number of receives, from n on, after which the header is there. */
  ghost function HeaderCalls(plan: Plan, call: nat, n: nat, header: nat, len: nat): (r: nat)
    requires Obliging(plan) && header <= len && header < BUFFER_SIZE
    ensures Got(plan, call, r, len) >= header
    decreases header - Got(plan, call, n, len)
  {
    if Got(plan, call, n, len) >= header then n else HeaderCalls(plan, call, n + 1, header, len)
  }

  lemma {:induction false} HeaderCallsIs(plan: Plan, call: nat, m: nat, n: nat, header: nat, len: nat)
    requires Obliging(plan) && header <= len && header < BUFFER_SIZE
    requires m <= n && Got(plan, call, n, len) >= header && HeaderMissing(plan, call, n, header, len)
    ensures HeaderCalls(plan, call, m, header, len) == n
    decreases n - m
  {
    if m < n { HeaderCallsIs(plan, call, m + 1, n, header, len); }
  }

  /** The totals seen one after the other while receiving the header. */
  ghost predicate HeaderTotals(plan: Plan, call: nat, totals: seq<nat>, len: nat) {
    totals != [] && totals[0] == 0 && forall i: nat :: 0 < i < |totals| ==>
      HeaderStep(plan(call + i - 1), totals[i - 1], totals[i], len)
  }

  ghost predicate HeaderStep(t: Transfer, before: nat, after: nat, len: nat) {
    before < BUFFER_SIZE && before <= len && after == before + Moved(t, BUFFER_SIZE - 1 - before, len - before)
  }

  lemma HeaderTotalsSnoc(plan: Plan, call: nat, totals: seq<nat>, len: nat, more: nat)
    requires HeaderTotals(plan, call, totals, len)
    requires HeaderStep(plan(call + |totals| - 1), totals[|totals| - 1], more, len)
    ensures HeaderTotals(plan, call, totals + [more], len)
  {
    var next := totals + [more];
    forall i: nat | 0 < i < |next| ensures HeaderStep(plan(call + i - 1), next[i - 1], next[i], len) {
      if i < |totals| { assert HeaderStep(plan(call + i - 1), totals[i - 1], totals[i], len); }
    }
  }

  lemma {:induction false} TotalsAreGot(plan: Plan, call: nat, totals: seq<nat>, len: nat, n: nat)
    requires Obliging(plan) && HeaderTotals(plan, call, totals, len) && n < |totals|
    ensures totals[n] == Got(plan, call, n, len)
  {
    if n > 0 {
      TotalsAreGot(plan, call, totals, len, n - 1);
      assert HeaderStep(plan(call + n - 1), totals[n - 1], totals[n], len);
    }
  }

  /** A header that has not arrived as a whole before the last of these receives. */
  ghost predicate HeaderFlow(plan: Plan, call: nat, totals: seq<nat>, header: nat, len: nat, calls: nat, total: nat) {
    && HeaderTotals(plan, call, totals, len) && totals[|totals| - 1] == total && calls == call + |totals| - 1
    && forall i :: 0 <= i < |totals| - 1 ==> totals[i] < header
  }

  lemma HeaderFlowStep(plan: Plan, call: nat, totals: seq<nat>, header: nat, len: nat, calls: nat, total: nat,
                       more: nat)
    requires HeaderFlow(plan, call, totals, header, len, calls, total)
    requires total < header && HeaderStep(plan(calls), total, more, len)
    ensures HeaderFlow(plan, call, totals + [more], header, len, calls + 1, more)
  {
    HeaderTotalsSnoc(plan, call, totals, len, more);
  }

  /** They give the number of receives the header takes. */
  lemma HeaderTotalsCount(plan: Plan, call: nat, totals: seq<nat>, header: nat, len: nat)
    requires Obliging(plan) && header <= len && header < BUFFER_SIZE && HeaderTotals(plan, call, totals, len)
    requires totals[|totals| - 1] >= header && forall i :: 0 <= i < |totals| - 1 ==> totals[i] < header
    ensures HeaderCalls(plan, call, 0, header, len) == |totals| - 1
    ensures Got(plan, call, |totals| - 1, len) == totals[|totals| - 1]
  {
    forall k: nat | k < |totals| ensures totals[k] == Got(plan, call, k, len) {
      TotalsAreGot(plan, call, totals, len, k);
    }
    HeaderCallsIs(plan, call, 0, |totals| - 1, header, len);
  }

  ghost predicate HeaderMissing(plan: Plan, call: nat, n: nat, header: nat, len: nat)
    requires Obliging(plan)
  {
    forall k: nat :: k < n ==> Got(plan, call, k, len) < header
  }

  /** How much of the rest of the body n receives bring. */
  ghost function Brought(plan: Plan, call: nat, n: nat, left: nat): (r: nat)
    requires Obliging(plan)
    ensures r <= left
  {
    if n == 0 then 0
    else
      var g := Brought(plan, call, n - 1, left);
      g + Moved(plan(call + n - 1), BUFFER_SIZE, left - g)
  }

  /** The least number of receives, from n on, that bring all of it. */
  ghost function BodyCalls(plan: Plan, call: nat, n: nat, left: nat): (r: nat)
    requires Obliging(plan)
    ensures r >= n
    decreases left - Brought(plan, call, n, left)
  {
    if Brought(plan, call, n, left) >= left then n else BodyCalls(plan, call, n + 1, left)
  }

  /** The totals seen one after the other while receiving the rest of the body. */
  ghost predicate BodyTotals(plan: Plan, call: nat, totals: seq<nat>, left: nat) {
    totals != [] && totals[0] == 0 && forall i: nat :: 0 < i < |totals| ==>
      BodyStep(plan(call + i - 1), totals[i - 1], totals[i], left)
  }

  ghost predicate BodyStep(t: Transfer, before: nat, after: nat, left: nat) {
    before <= left && after == before + Moved(t, BUFFER_SIZE, left - before)
  }

  lemma BodyTotalsSnoc(plan: Plan, call: nat, totals: seq<nat>, left: nat, more: nat)
    requires BodyTotals(plan, call, totals, left)
    requires BodyStep(plan(call + |totals| - 1), totals[|totals| - 1], more, left)
    ensures BodyTotals(plan, call, totals + [more], left)
  {
    var next := totals + [more];
    forall i: nat | 0 < i < |next| ensures BodyStep(plan(call + i - 1), next[i - 1], next[i], left) {
      if i < |totals| { assert BodyStep(plan(call + i - 1), totals[i - 1], totals[i], left); }
    }
  }

  lemma {:induction false} TotalsAreBrought(plan: Plan, call: nat, totals: seq<nat>, left: nat, n: nat)
    requires Obliging(plan) && BodyTotals(plan, call, totals, left) && n < |totals|
    ensures totals[n] == Brought(plan, call, n, left)
  {
    if n > 0 {
      TotalsAreBrought(plan, call, totals, left, n - 1);
      assert BodyStep(plan(call + n - 1), totals[n - 1], totals[n], left);
    }
  }

  /** A body whose writes, numbered from w0 on, have all been full so far. */
  ghost predicate BodyFlow(local: Local, plan: Plan, call: nat, totals: seq<nat>, left: nat, calls: nat, w0: nat,
                           writes: nat, got: int)
  {
    && BodyTotals(plan, call, totals, left) && totals[|totals| - 1] == got && calls == call + |totals| - 1
    && writes == w0 + |totals| - 1 && AllFull(local, w0, writes)
    && forall i :: 0 <= i < |totals| - 1 ==> totals[i] < left
  }

  lemma BodyFlowStep(local: Local, plan: Plan, call: nat, totals: seq<nat>, left: nat, calls: nat, w0: nat,
                     writes: nat, got: nat, more: nat)
    requires Obliging(plan) && BodyFlow(local, plan, call, totals, left, calls, w0, writes, got)
    requires got < left && BodyStep(plan(calls), got, more, left)
    ensures if local.shortWrite(writes).None?
            then BodyFlow(local, plan, call, totals + [more], left, calls + 1, w0, writes + 1, more)
            else WritesTell(local, WriteOutputFile, w0, w0 + BodyCalls(plan, call, 0, left), writes + 1, more == left)
  {
    BodyTotalsSnoc(plan, call, totals, left, more);
    BodyTotalsCount(plan, call, totals + [more], left);
  }

  lemma BodyFlowEnds(local: Local, plan: Plan, call: nat, totals: seq<nat>, left: nat, calls: nat, w0: nat, writes: nat)
    requires Obliging(plan) && BodyFlow(local, plan, call, totals, left, calls, w0, writes, left)
    ensures WritesTell(local, Success, w0, w0 + BodyCalls(plan, call, 0, left), writes, true)
  {
    BodyTotalsCount(plan, call, totals, left);
  }

  lemma BodyTotalsCount(plan: Plan, call: nat, totals: seq<nat>, left: nat)
    requires Obliging(plan) && BodyTotals(plan, call, totals, left)
    requires forall i :: 0 <= i < |totals| - 1 ==> totals[i] < left
    ensures BodyCalls(plan, call, 0, left) >= |totals| - 1
    ensures BodyCalls(plan, call, 0, left) == |totals| - 1 <==> totals[|totals| - 1] == left
  {
    forall k: nat | k < |totals| ensures totals[k] == Brought(plan, call, k, left) {
      TotalsAreBrought(plan, call, totals, left, k);
    }
    BodyCallsIs(plan, call, 0, |totals| - 1, left);
  }

  ghost predicate BodyMissing(plan: Plan, call: nat, n: nat, left: nat)
    requires Obliging(plan)
  {
    forall k: nat :: k < n ==> Brought(plan, call, k, left) < left
  }

  /** While something is missing before the n-th receive, n are needed at least, and no more exactly if
      nothing is missing after it. */
  lemma {:induction false} BodyCallsIs(plan: Plan, call: nat, m: nat, n: nat, left: nat)
    requires Obliging(plan) && m <= n && BodyMissing(plan, call, n, left)
    ensures BodyCalls(plan, call, m, left) >= n
    ensures BodyCalls(plan, call, m, left) == n <==> Brought(plan, call, n, left) == left
    decreases n - m
  {
    if m < n { BodyCallsIs(plan, call, m + 1, n, left); }
  }

  /** How many writes the content of a response takes. */
  ghost function ContentWrites(plan: Plan, call: nat, header: nat, len: nat): (r: nat)
    requires Obliging(plan) && header <= len && header < BUFFER_SIZE
  {
    var n := HeaderCalls(plan, call, 0, header, len);
    var got := Got(plan, call, n, len);
    (if got > header then 1 else 0) + BodyCalls(plan, call + n, 0, len - got)
  }

  /** Once the header has come, what remains of the count. */
  lemma HeaderFlowEnds(plan: Plan, call: nat, totals: seq<nat>, header: nat, len: nat, calls: nat, total: nat)
    requires Obliging(plan) && header <= len && header < BUFFER_SIZE && total >= header
    requires HeaderFlow(plan, call, totals, header, len, calls, total)
    ensures total <= len
    ensures ContentWrites(plan, call, header, len) ==
            (if header < total then 1 else 0) + BodyCalls(plan, calls, 0, len - total)
  {
    HeaderTotalsCount(plan, call, totals, header, len);
  }

  // ---- the connection ----

  class Socket {
    const inbound: string
    const recvPlan: nat -> Transfer
    const sendPlan: nat -> Transfer
    const interrupts: nat -> nat  // how often the n-th call is interrupted before it completes
    var taken: nat
    var outbound: string
    var calls: nat
    var pending: nat

    ghost predicate Valid()
      reads this
    {
      taken <= |inbound|
    }

    constructor (inbound: string, recvPlan: nat -> Transfer, sendPlan: nat -> Transfer, interrupts: nat -> nat)
      ensures Valid() && taken == 0 && outbound == "" && calls == 0
      ensures this.inbound == inbound && this.recvPlan == recvPlan && this.sendPlan == sendPlan
    {
      this.inbound, this.recvPlan, this.sendPlan, this.interrupts := inbound, recvPlan, sendPlan, interrupts;
      taken, outbound, calls, pending := 0, "", 0, interrupts(0);
    }

    /** recv(2): bytes received, 0 for a closed peer, -1 for an error (interrupted or not). */
    method RecvCall(buf: array<char>, at: nat, max: nat) returns (res: int, interrupted: bool)
      requires Valid() && at + max <= buf.Length
      modifies this, buf
      ensures Valid() && outbound == old(outbound) && -1 <= res <= max
      ensures interrupted <==> old(pending) > 0
      ensures interrupted ==> res == -1 && pending == old(pending) - 1
      ensures res <= 0 ==> taken == old(taken) && buf[..] == old(buf[..])
      ensures res > 0 ==> taken == old(taken) + res
      ensures res > 0 ==> buf[..] == old(buf[..])[..at] + inbound[old(taken)..taken] + old(buf[..])[at + res..]
      ensures calls == if interrupted then old(calls) else old(calls) + 1
      ensures !interrupted && recvPlan(old(calls)).Upto? ==>
                res == Moved(recvPlan(old(calls)), max, |inbound| - old(taken))
      ensures !interrupted && recvPlan(old(calls)).Broken? ==> res == -1
    {
      interrupted := pending > 0;
      if interrupted {
        pending := pending - 1;
        return -1, true;
      }
      var plan := recvPlan(calls);
      calls := calls + 1;
      pending := interrupts(calls);
      if plan.Broken? { return -1, false; }
      var n := Min(Min(plan.bytes + 1, max), |inbound| - taken);
      ghost var was := buf[..];
      forall i | 0 <= i < n { buf[at + i] := inbound[taken + i]; }
      taken := taken + n;
      res := n;
      assert forall i :: at <= i < at + n ==> buf[i] == inbound[old(taken)..taken][i - at];
    }

    /** send(2): bytes sent, or -1. */
    method SendCall(data: string) returns (res: int, interrupted: bool)
      requires Valid() && data != ""
      modifies this
      ensures Valid() && taken == old(taken) && -1 <= res <= |data| && res != 0
      ensures interrupted <==> old(pending) > 0
      ensures interrupted ==> res == -1 && pending == old(pending) - 1
      ensures outbound == old(outbound) + (if res > 0 then data[..res] else "")
      ensures calls == if interrupted then old(calls) else old(calls) + 1
      ensures !interrupted && sendPlan(old(calls)).Upto? ==> res == Min(sendPlan(old(calls)).bytes + 1, |data|)
      ensures !interrupted && sendPlan(old(calls)).Broken? ==> res == -1
    {
      interrupted := pending > 0;
      if interrupted {
        pending := pending - 1;
        return -1, true;
      }
      var plan := sendPlan(calls);
      calls := calls + 1;
      pending := interrupts(calls);
      if plan.Broken? { return -1, false; }
      res := Min(plan.bytes + 1, |data|);
      outbound := outbound + data[..res];
    }
  }

  // ---- one download ----

  lemma SentMore(was: string, text: string, sent: nat, more: nat)
    requires sent + more <= |text|
    ensures was + text[..sent] + text[sent..][..more] == was + text[..sent + more]
  {
    assert text[..sent] + text[sent..][..more] == text[..sent + more];
    Assoc(was, text[..sent], text[sent..][..more]);
  }

  /** What the local side does: how each write ends (a short count is an error), whether the
      progress callback lets the download go on, and whether opening and unlinking succeed. */
  datatype Local = Local(opens: bool, unlinks: bool, shortWrite: nat -> Option<nat>, goesOn: nat -> bool)

  /** Nothing fails and nobody cancels; only writes may fall short. */
  ghost predicate Flowing(socket: Socket, local: Local) {
    Obliging(socket.recvPlan) && Obliging(socket.sendPlan) && (forall i :: local.goesOn(i)) && local.opens
  }

  /** No write from number `from` to before number `until` falls short. */
  ghost predicate AllFull(local: Local, from: nat, until: nat) {
    forall i :: from <= i < until ==> local.shortWrite(i).None?
  }

  /** The call ends well if none of the writes falls short, otherwise at the first that does, with equal
      counters if that is the last one. */
  ghost predicate WritesTell(local: Local, error: Error, from: nat, until: nat, writes: nat, equal: bool) {
    if error == Success then AllFull(local, from, until)
    else
      && error == WriteOutputFile && from < writes <= until
      && local.shortWrite(writes - 1).Some? && AllFull(local, from, writes - 1)
      && (equal <==> writes == until)
  }

  lemma WritesTellJoin(local: Local, error: Error, from: nat, mid: nat, until: nat, writes: nat, equal: bool)
    requires from <= mid && AllFull(local, from, mid) && WritesTell(local, error, mid, until, writes, equal)
    ensures WritesTell(local, error, from, until, writes, equal)
  {
  }

  class CallCtx {
    const socket: Socket
    const local: Local
    const buf: array<char>
    var contentSize: int
    var received: int
    var isOpen: bool
    var file: Option<string>  // the file at the output path, if there is one
    ghost var created: bool    // whether this call has created it
    var writes: nat

    ghost predicate Valid()
      reads this, socket
    {
      && socket.Valid()
      && buf.Length == BUFFER_SIZE
      && 0 <= received
      && (isOpen ==> file.Some? && contentSize >= 0)
      && (isOpen <==> created)
    }

    /** Everything counted as received has been written: the state in which the download goes on. */
    ghost predicate InStep()
      reads this
    {
      isOpen && file.Some? && |file.value| == received <= contentSize
    }

    constructor (socket: Socket, local: Local, file: Option<string>)
      requires socket.Valid()
      ensures Valid() && fresh(buf) && this.socket == socket && this.local == local && this.file == file
      ensures contentSize == 0 && received == 0 && !isOpen && writes == 0
    {
      this.socket, this.local, this.file := socket, local, file;
      buf := new char[BUFFER_SIZE];
      contentSize, received, isOpen, writes, created := 0, 0, false, 0, false;
    }

    method RecvBytes(at: nat, max: nat) returns (error: Error, got: nat)
      requires Valid() && 0 < max && at + max <= buf.Length
      modifies socket, buf
      ensures Valid() && socket.outbound == old(socket.outbound)
      ensures error in {Success, PeerReset, Recv}
      ensures error == Success ==> 0 < got <= max && socket.taken == old(socket.taken) + got
      ensures error == Success ==>
        buf[..] == old(buf[..])[..at] + socket.inbound[old(socket.taken)..socket.taken] + old(buf[..])[at + got..]
      ensures error != Success ==> got == 0 && socket.taken == old(socket.taken)
      ensures error == Recv <==> socket.recvPlan(old(socket.calls)).Broken?
      ensures error == PeerReset <==>
                socket.recvPlan(old(socket.calls)).Upto? && old(socket.taken) == |socket.inbound|
      ensures Flowing(socket, local) ==>
                && (error == Success <==> old(socket.taken) < |socket.inbound|) && socket.calls == old(socket.calls) + 1
                && got == Moved(socket.recvPlan(old(socket.calls)), max, |socket.inbound| - old(socket.taken))
    {
      got := 0;
      while true
        invariant Valid() && socket.outbound == old(socket.outbound)
        invariant socket.taken == old(socket.taken) && buf[..] == old(buf[..]) && socket.calls == old(socket.calls)
        decreases socket.pending
      {
        var res, interrupted := socket.RecvCall(buf, at, max);
        if res > 0 {
          return Success, res;
        } else if res == 0 {
          return PeerReset, 0;
        } else if !interrupted {
          return Recv, 0;
        }
      }
    }

    method SendBytes(n: nat) returns (error: Error)
      requires Valid() && n <= buf.Length
      modifies socket
      ensures Valid() && socket.taken == old(socket.taken)
      ensures error in {Success, Send}
      ensures error == Success ==> socket.outbound == old(socket.outbound) + buf[..n]
      ensures error == Send <==> socket.calls > old(socket.calls) && socket.sendPlan(socket.calls - 1).Broken?
      ensures exists k :: 0 <= k <= n && socket.outbound == old(socket.outbound) + buf[..k]
      ensures Flowing(socket, local) ==>
                error == Success && socket.calls == AfterSends(socket.sendPlan, old(socket.calls), n)
    {
      var sent := 0;
      ghost var was, text := socket.outbound, buf[..n];
      ghost var flows := Flowing(socket, local);
      ghost var after := if flows then AfterSends(socket.sendPlan, socket.calls, n) else 0;
      while sent < n
        invariant 0 <= sent <= n && Valid() && socket.taken == old(socket.taken)
        invariant socket.outbound == was + text[..sent] && socket.calls >= old(socket.calls)
        invariant socket.calls > old(socket.calls) ==> socket.sendPlan(socket.calls - 1).Upto?
        invariant flows ==> AfterSends(socket.sendPlan, socket.calls, n - sent) == after
        decreases n - sent, socket.pending
      {
        assert buf[sent..n] == text[sent..];
        var res, interrupted := socket.SendCall(buf[sent..n]);
        if res == -1 {
          if interrupted { continue; }
          assert text[..sent] == buf[..sent];
          return Send;
        }
        SentMore(was, text, sent, res);
        sent := sent + res;
      }
      assert text[..n] == text;
      return Success;
    }

    method Print(len: nat, text: string) returns (newLen: nat)
      requires Valid() && len + |text| <= buf.Length
      modifies buf
      ensures newLen == len + |text| && buf[..newLen] == old(buf[..len]) + text
    {
      forall i | 0 <= i < |text| { buf[len + i] := text[i]; }
      newLen := len + |text|;
    }

    method PrintEscapedChar(len: nat, c: char) returns (newLen: nat)
      requires Valid() && len + 3 <= buf.Length
      modifies buf
      ensures len <= newLen <= len + 3 && buf[..newLen] == old(buf[..len]) + EscapeChar(c)
    {
      if c == ' ' {
        newLen := Print(len, "%20");
      } else if c == '%' {
        newLen := Print(len, "%25");
      } else if c == '?' {
        newLen := Print(len, "%3F");
      } else {
        newLen := Print(len, [c]);
      }
    }

    /** Prints the escaped path behind the first `start` characters of the buffer. */
    method PrintEscaped(start: nat, path: string) returns (len: nat)
      requires Valid() && |path| <= CONTENT_PATH_MAX && start <= 16
      modifies buf
      ensures start <= len <= start + 3 * |path| && buf[..len] == old(buf[..start]) + Escape(path)
    {
      len := start;
      ghost var front := buf[..start];
      for index := 0 to |path|
        invariant start <= len <= start + 3 * index
        invariant buf[..len] == front + Escape(path[..index])
      {
        EscapeStep(path, index);
        Assoc(front, Escape(path[..index]), EscapeChar(path[index]));
        len := PrintEscapedChar(len, path[index]);
      }
      assert path[..|path|] == path;
    }

    /** Prints the request into the buffer and sends it: on success the service has been
        sent exactly the request text, once and in order. */
    method SendRequest(path: string) returns (error: Error)
      requires Valid() && |path| <= CONTENT_PATH_MAX
      modifies socket, buf
      ensures Valid() && socket.taken == old(socket.taken)
      ensures error in {Success, Send}
      ensures error == Success ==> socket.outbound == old(socket.outbound) + RequestText(path)
      ensures Flowing(socket, local) ==>
                error == Success && socket.calls == AfterSends(socket.sendPlan, old(socket.calls), |RequestText(path)|)
    {
      var len := Print(0, "GET");
      len := Print(len, " ");
      assert buf[..len] == "GET ";
      len := PrintEscaped(len, path);
      len := Print(len, " ");
      len := Print(len, HTTP_VERSION);
      len := Print(len, HEADER_END);
      assert buf[..len] == RequestText(path);
      error := SendBytes(len);
    }

    /** fwrite of a stretch of the buffer, followed by the progress report. */
    method Store(from: nat, n: nat) returns (error: Error)
      requires Valid() && isOpen && 0 < n && from + n <= buf.Length
      modifies this
      ensures Valid() && isOpen && contentSize == old(contentSize) && received == old(received) + n
      ensures error in {Success, Server, WriteOutputFile, Cancelled}
      ensures error == Server <==> received > contentSize
      ensures error == Server ==> file == old(file)
      ensures file.value <= old(file.value) + buf[from..from + n]
      ensures error in {Success, Cancelled} ==> file == Some(old(file.value) + buf[from..from + n])
      ensures error == WriteOutputFile <==> received <= contentSize && local.shortWrite(old(writes)).Some?
      ensures error == WriteOutputFile ==> |file.value| < |old(file.value)| + n
      ensures error == WriteOutputFile ==>
                |file.value| == |old(file.value)| + Min(local.shortWrite(old(writes)).value, n - 1)
      ensures writes == if error == Server then old(writes) else old(writes) + 1
      ensures error == Cancelled <==>
                received <= contentSize && local.shortWrite(old(writes)).None? && !local.goesOn(writes)
      ensures old(InStep()) && error == Success ==> InStep()
      ensures Flowing(socket, local) ==> error != Cancelled
    {
      received := received + n;
      if received > contentSize { return Server; }
      var short := local.shortWrite(writes);
      writes := writes + 1;
      if short.Some? {
        file := Some(file.value + buf[from..from + Min(short.value, n - 1)]);
        return WriteOutputFile;
      }
      file := Some(file.value + buf[from..from + n]);
      return if local.goesOn(writes) then Success else Cancelled;
    }

    /** Receives behind the first `total` bytes of the buffer and terminates them. */
    method RecvMore(total: nat, ghost start: nat) returns (error: Error, more: nat)
      requires Valid() && total < buf.Length - 1 && socket.taken == start + total
      requires buf[..total] == socket.inbound[start..socket.taken]
      modifies socket, buf
      ensures Valid() && error in {Success, PeerReset, Recv} && socket.outbound == old(socket.outbound)
      ensures total <= more < buf.Length && socket.taken == start + more
      ensures error == Success ==>
                total < more && buf[..more] == socket.inbound[start..socket.taken] && buf[more] == NUL
      ensures Flowing(socket, local) ==>
                && (error == Success <==> old(socket.taken) < |socket.inbound|) && socket.calls == old(socket.calls) + 1
                && more == total + Moved(socket.recvPlan(old(socket.calls)), BUFFER_SIZE - 1 - total,
                                         |socket.inbound| - (start + total))
    {
      var got;
      error, got := RecvBytes(total, buf.Length - 1 - total);
      more := total;
      if error != Success { return; }
      more := total + got;
      buf[more] := NUL;
      assert buf[..more] == socket.inbound[start..old(socket.taken)] + socket.inbound[old(socket.taken)..socket.taken];
    }

    /** Nothing but a write can fail, and the stream, read from its first byte, has a header of that length,
        which fits the buffer. */
    ghost predicate HeaderComes(start: nat, header: nat) {
      Flowing(socket, local) && header < BUFFER_SIZE && start == 0 && HeaderEndsAt(socket.inbound, start, header)
    }

    /** And the header announces exactly the content that follows it. */
    ghost predicate Comes(start: nat, header: nat, content: string, refusal: Option<Error>) {
      && HeaderComes(start, header) && refusal == None && socket.inbound[header..] == content
      && Verdict(socket.inbound, header, Accept(|content|))
    }

    /** Or it comes to an error. */
    ghost predicate RefusalComes(start: nat, header: nat, refusal: Option<Error>) {
      HeaderComes(start, header) && refusal.Some? && refusal.value != Success
      && Verdict(socket.inbound, header, Reject(refusal.value))
    }

    /** The header has come with `total` bytes, and the writes that the content takes are one for what came
        with it, if anything did, and those that the rest still takes. */
    ghost predicate HeaderTaken(call: nat, header: nat, total: nat)
      requires Obliging(socket.recvPlan) && header < BUFFER_SIZE && header <= |socket.inbound|
      reads socket
    {
      && header <= total <= |socket.inbound|
      && WritesFrom(call, header) ==
         (if header < total then 1 else 0) + BodyCalls(socket.recvPlan, socket.calls, 0, |socket.inbound| - total)
    }

    /** Receives once more and looks for the blank line. */
    method SearchMore(total: nat, ghost start: nat, ghost header: nat)
      returns (error: Error, more: nat, end: Option<nat>)
      requires Valid() && total < buf.Length - 1 && socket.taken == start + total
      requires buf[..total] == socket.inbound[start..socket.taken]
      modifies socket, buf
      ensures Valid() && error in {Success, PeerReset, Recv} && socket.outbound == old(socket.outbound)
      ensures total <= more < buf.Length && socket.taken == start + more
      ensures error == Success ==>
                total < more && buf[..more] == socket.inbound[start..socket.taken] && buf[more] == NUL
      ensures error == Success && end.Some? ==>
                end.value + 4 <= more && HeaderEndsAt(socket.inbound, start, end.value + 4)
      ensures HeaderComes(start, header) && total < header ==>
                && error == Success && end == (if more < header then None else Some(header - 4))
                && socket.calls == old(socket.calls) + 1
                && HeaderStep(socket.recvPlan(old(socket.calls)), total, more, |socket.inbound|)
    {
      end := None;
      error, more := RecvMore(total, start);
      if error != Success { return; }
      var text := buf[..];
      assert text[..more] == buf[..more];
      end := FindHeaderEnd(text, more, socket.inbound, start, header);
    }

    /** Receives into the buffer until the blank line is there. */
    method RecvHeaderText(ghost header: nat) returns (error: Error, total: nat, cut: nat, ghost totals: seq<nat>)
      requires Valid() && !isOpen
      modifies socket, buf
      ensures Valid() && error in {Success, PeerReset, Recv, Server} && socket.outbound == old(socket.outbound)
      ensures total < buf.Length
      ensures error == Success ==> cut + 4 <= total && socket.taken == old(socket.taken) + total
      ensures error == Success ==> buf[..total] == socket.inbound[old(socket.taken)..socket.taken] && buf[total] == NUL
      ensures error == Success ==> HeaderEndsAt(socket.inbound, old(socket.taken), cut + 4)
      ensures HeaderComes(old(socket.taken), header) ==>
                && error == Success && cut + 4 == header
                && HeaderFlow(socket.recvPlan, old(socket.calls), totals, header, |socket.inbound|, socket.calls, total)
    {
      total, cut := 0, 0;
      ghost var start, comes := socket.taken, HeaderComes(socket.taken, header);
      ghost var call := socket.calls;
      totals := [0];
      while true
        invariant Valid() && total < buf.Length - 1 && socket.taken == start + total
                  && socket.outbound == old(socket.outbound)
        invariant buf[..total] == socket.inbound[start..socket.taken]
        invariant comes ==> total < header
        invariant comes ==> HeaderFlow(socket.recvPlan, call, totals, header, |socket.inbound|, socket.calls, total)
        decreases buf.Length - total
      {
        var end;
        ghost var calls, was := socket.calls, total;
        error, total, end := SearchMore(total, start, header);
        if error != Success { return; }
        if comes { HeaderFlowStep(socket.recvPlan, call, totals, header, |socket.inbound|, calls, was, total); }
        totals := totals + [total];
        if end.Some? {
          return Success, total, end.value, totals;
        }
        if total == buf.Length - 1 {
          return Server, total, 0, totals;
        }
      }
    }

    /** Finds the length line and reads its digits into the call context. */
    method ReadLength(s: string, from: nat) returns (error: Error)
      requires contentSize == 0 && from <= |s|
      modifies this`contentSize
      ensures ParseLength(s, from) == if error == Success then Accept(contentSize) else Reject(error)
    {
      var line := Strstr(s, from, CONTENT_LENGTH);
      if line.None? { return Server; }
      var at := line.value + |CONTENT_LENGTH|;
      while at < |s| && IsDigit(s[at])
        invariant line.value + |CONTENT_LENGTH| <= at <= |s|
        invariant Digits(s, at, contentSize) == Digits(s, line.value + |CONTENT_LENGTH|, 0)
      {
        contentSize := Wrap64(Wrap64(contentSize * 10) + DigitValue(s[at]));
        at := at + 1;
      }
      return if contentSize < 0 then Server else Success;
    }

    method ReadStatus(s: string, from: nat) returns (error: Error)
      requires contentSize == 0 && from <= |s|
      modifies this`contentSize
      ensures ParseStatus(s, from) == if error == Success then Accept(contentSize) else Reject(error)
    {
      var c := SkipDelims(s, from, {' '});
      var cEnd := TokenEnd(s, c, {' '});
      if c == cEnd { return Server; }
      var status := Atoi(s[c..cEnd]);
      if status == 403 { return Forbidden; }
      if status == 404 { return NotFound; }
      if status != 200 || cEnd == |s| { return Server; }
      error := ReadLength(s, cEnd + 1);
    }

    /** Reads the version, the status and the content length out of a cut header text. */
    method ParseText(s: string) returns (error: Error)
      requires contentSize == 0
      modifies this`contentSize
      ensures ParseHeader(s) == if error == Success then Accept(contentSize) else Reject(error)
    {
      var next := AfterVersion(s);
      if next.None? { return Server; }
      error := ReadStatus(s, next.value);
    }

    /** The verdict as the call context has it. */
    ghost predicate Judges(v: Parsed, error: Error)
      reads this
    {
      v == if error == Success then Accept(contentSize) else Reject(error)
    }

    /** Cuts the header text at its blank line, in place, and parses it. */
    method CutAndParse(total: nat, cut: nat, ghost v: Parsed) returns (error: Error)
      requires Valid() && contentSize == 0 && cut + 4 <= total < buf.Length && buf[total] == NUL
      modifies this`contentSize, buf
      ensures buf[cut + 4..total] == old(buf[cut + 4..total])
      ensures error in {Success, Server, Forbidden, NotFound} && (error == Success ==> contentSize >= 0)
      ensures Verdict(old(buf[..total]), cut + 4, v) ==> Judges(v, error)
    {
      ghost var was := buf[..total];
      buf[cut] := NUL;
      var s := buf[..total + 1];
      assert s[..cut] == was[..cut];
      assert CutAt(s, was, cut + 4);
      error := ParseText(s);
    }

    /** Receives until the buffer holds the header, which calls for the verdict that the stream does. */
    method RecvText(ghost header: nat, ghost v: Parsed) returns (error: Error, total: nat, cut: nat)
      requires Valid() && !isOpen
      modifies socket, buf
      ensures Valid() && error in {Success, PeerReset, Recv, Server} && socket.outbound == old(socket.outbound)
      ensures total < buf.Length
      ensures error == Success ==> cut + 4 <= total && socket.taken == old(socket.taken) + total && buf[total] == NUL
      ensures error == Success ==> HeaderEndsAt(socket.inbound, old(socket.taken), cut + 4)
      ensures error == Success ==> buf[cut + 4..total] == socket.inbound[old(socket.taken) + cut + 4..socket.taken]
      ensures HeaderComes(old(socket.taken), header) && Verdict(socket.inbound, header, v) ==>
                && error == Success && cut + 4 == header && HeaderTaken(old(socket.calls), header, total)
                && Verdict(buf[..total], header, v)
    {
      ghost var totals, start := [], socket.taken;
      error, total, cut, totals := RecvHeaderText(header);
      if error != Success { return; }
      ghost var text := buf[..total];
      assert buf[cut + 4..total] == text[cut + 4..] == socket.inbound[start + cut + 4..socket.taken];
      if HeaderComes(start, header) && Verdict(socket.inbound, header, v) {
        HeaderFlowEnds(socket.recvPlan, old(socket.calls), totals, header, |socket.inbound|, socket.calls, total);
        VerdictInBuffer(socket.inbound, text, header, v);
      }
    }

    /** Receives and parses the header: the content starts in the buffer at `from`. */
    method ReadHeader(ghost header: nat, ghost v: Parsed) returns (error: Error, from: nat, total: nat)
      requires Valid() && !isOpen && received == 0 && contentSize == 0
      modifies this`contentSize, socket, buf
      ensures Valid() && socket.outbound == old(socket.outbound) && from <= total < buf.Length
      ensures error in {Success, PeerReset, Recv, Server, Forbidden, NotFound}
      ensures error == Success ==> contentSize >= 0 && socket.taken == old(socket.taken) + total
      ensures error == Success ==> HeaderEndsAt(socket.inbound, old(socket.taken), from)
      ensures error == Success ==> buf[from..total] == socket.inbound[old(socket.taken) + from..socket.taken]
      ensures HeaderComes(old(socket.taken), header) && Verdict(socket.inbound, header, v) ==>
                Judges(v, error) && from == header && HeaderTaken(old(socket.calls), header, total)
    {
      var cut;
      from := 0;
      error, total, cut := RecvText(header, v);
      if error != Success { return; }
      from := cut + 4;
      error := CutAndParse(total, cut, v);
    }

    /** Receives and parses the header, creates the output file and stores the content bytes
        that came with the header. */
    method RecvHeader(ghost header: nat, ghost content: string, ghost refusal: Option<Error>) returns (error: Error)
      requires Valid() && !isOpen && received == 0 && contentSize == 0
      modifies this, socket, buf
      ensures Valid() && socket.outbound == old(socket.outbound)
      ensures if isOpen then Behind(old(socket.taken)) else file == old(file)
      ensures error == Success ==> InStep()
      ensures isOpen && received == contentSize && error != Success ==> LastChunkFailed(error)
      ensures Comes(old(socket.taken), header, content, refusal) ==>
                && isOpen && contentSize == |content| && socket.taken - received == header && old(writes) <= writes
                && var until := old(writes) + WritesFrom(old(socket.calls), header);
                   if error == Success then
                     && AllFull(local, old(writes), writes) && received <= |content|
                     && writes + BodyCalls(socket.recvPlan, socket.calls, 0, |content| - received) == until
                   else Told(error, old(writes), until)
      ensures RefusalComes(old(socket.taken), header, refusal) ==>
                Some(error) == refusal && !isOpen && created == old(created)
      ensures error !in {InvalidParameter, NotInitialized, ConnectGeneric}
    {
      var from, total;
      error, from, total := ReadHeader(header, if refusal.None? then Accept(|content|) else Reject(refusal.value));
      if error != Success { return; }
      error := SaveRest(from, total, old(socket.taken));
    }

    ghost function WritesFrom(call: nat, header: nat): nat
      requires Obliging(socket.recvPlan) && header < BUFFER_SIZE && header <= |socket.inbound|
    {
      ContentWrites(socket.recvPlan, call, header, |socket.inbound|)
    }

    /** The file holds a first part of what has been taken behind the first blank line of the stream from
        `start` on. */
    ghost predicate Behind(start: nat)
      reads this, socket
    {
      var h := socket.taken - received;
      && start <= h <= socket.taken <= |socket.inbound| && HeaderEndsAt(socket.inbound, start, h - start)
      && file.Some? && file.value <= socket.inbound[h..socket.taken]
    }

    /** How a download whose writes are numbered from `from` to before `until` ends. */
    ghost predicate Told(error: Error, from: nat, until: nat)
      reads this
    {
      WritesTell(local, error, from, until, writes, received == contentSize)
    }

    /** Creates the output file and stores what stands in the buffer behind the header. */
    method SaveRest(from: nat, total: nat, ghost start: nat) returns (error: Error)
      requires Valid() && !isOpen && received == 0 && contentSize >= 0 && from <= total <= buf.Length
      requires socket.taken == start + total && HeaderEndsAt(socket.inbound, start, from)
      requires buf[from..total] == socket.inbound[start + from..socket.taken]
      modifies this
      ensures Valid() && contentSize == old(contentSize)
      ensures if isOpen then Behind(start) && received == total - from else file == old(file)
      ensures error == Success ==> InStep()
      ensures error in {Success, CreateOutputFile, Server, WriteOutputFile, Cancelled}
      ensures isOpen && received == contentSize && error != Success ==> LastChunkFailed(error)
      ensures Flowing(socket, local) && total - from <= contentSize ==>
                && isOpen && writes == old(writes) + (if from < total then 1 else 0)
                && if error == Success then AllFull(local, old(writes), writes)
                   else error == WriteOutputFile && from < total && local.shortWrite(old(writes)).Some?
    {
      if !local.opens { return CreateOutputFile; }
      isOpen, created, file := true, true, Some("");
      error := Success;
      if from < total {
        error := StoreRest(from, total, start);
      }
    }

    /** The first write of a new file: what came with the header. */
    method StoreRest(from: nat, total: nat, ghost start: nat) returns (error: Error)
      requires Valid() && isOpen && file == Some("") && received == 0 && contentSize >= 0 && from < total <= buf.Length
      requires socket.taken == start + total && HeaderEndsAt(socket.inbound, start, from)
      requires buf[from..total] == socket.inbound[start + from..socket.taken]
      modifies this
      ensures Valid() && isOpen && contentSize == old(contentSize) && Behind(start) && received == total - from
      ensures error == Success ==> InStep()
      ensures error in {Success, Server, WriteOutputFile, Cancelled}
      ensures received == contentSize && error != Success ==> LastChunkFailed(error)
      ensures Flowing(socket, local) && received <= contentSize ==>
                && writes == old(writes) + 1
                && error == if local.shortWrite(old(writes)).Some? then WriteOutputFile else Success
    {
      error := Store(from, total - from);
      assert "" + buf[from..total] == socket.inbound[start + from..socket.taken];
    }

    /** A download that fails with both counters equal failed on its last chunk: the write was
        short, or the callback cancelled after it. */
    ghost predicate LastChunkFailed(error: Error)
      reads this
    {
      && file.Some?
      && (|| (error == WriteOutputFile && |file.value| < contentSize)
          || (error == Cancelled && |file.value| == contentSize))
    }

    /** Nothing but a write can fail, and the rest of the stream is the rest of the content. */
    ghost predicate BodyComes()
      reads this, socket
    {
      Flowing(socket, local) && received + |socket.inbound| - socket.taken == contentSize
    }

    /** One round of the body loop: one receive, one write, one progress report. */
    method CopyChunk(ghost start: nat, ghost flows: bool) returns (error: Error)
      requires Valid() && InStep() && received < contentSize && Behind(start) && (flows ==> BodyComes())
      modifies this, socket, buf
      ensures Valid() && isOpen && contentSize == old(contentSize) && Behind(start)
      ensures socket.outbound == old(socket.outbound) && old(socket.taken) <= socket.taken
      ensures error in {Success, PeerReset, Recv, Server, WriteOutputFile, Cancelled}
      ensures received - socket.taken == old(received - socket.taken)
      ensures error == Success ==> InStep() && old(received) < received
      ensures received == contentSize && error != Success ==> LastChunkFailed(error)
      ensures flows ==>
                && BodyComes() && writes == old(writes) + 1 && socket.calls == old(socket.calls) + 1
                && received == old(received) + Moved(socket.recvPlan(old(socket.calls)), BUFFER_SIZE,
                                                     old(contentSize - received))
                && error == if local.shortWrite(old(writes)).None? then Success else WriteOutputFile
    {
      var got;
      ghost var t := socket.taken;
      error, got := RecvBytes(0, buf.Length);
      if error != Success { return; }
      ghost var h := t - received;
      assert buf[0..got] == socket.inbound[t..socket.taken];
      ghost var was := file.value;
      error := Store(0, got);
      Appends(socket.inbound, h, t, socket.taken, was, file.value);
    }

    /** The same, counted: `w0` writes and `r0` bytes were there when the body began. */
    method CountedChunk(ghost start: nat, ghost flows: bool, ghost call: nat, ghost totals: seq<nat>, ghost left: nat,
                        ghost w0: nat, ghost r0: int)
      returns (error: Error, ghost more: seq<nat>)
      requires Valid() && InStep() && received < contentSize && Behind(start) && contentSize - r0 == left
               && r0 <= received
      requires flows ==> BodyComes()
      requires flows ==> BodyFlow(local, socket.recvPlan, call, totals, left, socket.calls, w0, writes, received - r0)
      modifies this, socket, buf
      ensures Valid() && isOpen && contentSize == old(contentSize) && Behind(start)
      ensures socket.outbound == old(socket.outbound)
      ensures error in {Success, PeerReset, Recv, Server, WriteOutputFile, Cancelled}
      ensures received - socket.taken == old(received - socket.taken)
      ensures error == Success ==> InStep() && old(received) < received
      ensures received == contentSize && error != Success ==> LastChunkFailed(error)
      ensures flows ==> BodyComes()
      ensures flows ==>
                if error == Success
                then BodyFlow(local, socket.recvPlan, call, more, left, socket.calls, w0, writes, received - r0)
                else Told(error, w0, w0 + BodyCalls(socket.recvPlan, call, 0, left))
    {
      ghost var calls, count, was := socket.calls, writes, received - r0;
      error := CopyChunk(start, flows);
      more := totals;
      if flows {
        ghost var now := received - r0;
        assert BodyStep(socket.recvPlan(calls), was, now, left);
        BodyFlowStep(local, socket.recvPlan, call, totals, left, calls, w0, count, was, now);
        more := totals + [now];
      }
    }

    /** Copies the rest of the content from the socket to the file. */
    method RecvBody(ghost start: nat) returns (error: Error)
      requires Valid() && InStep() && Behind(start)
      modifies this, socket, buf
      ensures Valid() && isOpen && contentSize == old(contentSize) && Behind(start)
      ensures socket.outbound == old(socket.outbound)
      ensures error == Success ==> received == contentSize == |file.value|
      ensures error in {Success, PeerReset, Recv, Server, WriteOutputFile, Cancelled}
      ensures received == contentSize && error != Success ==> LastChunkFailed(error)
      ensures received - socket.taken == old(received - socket.taken)
      ensures old(BodyComes()) ==>
                Told(error, old(writes),
                     old(writes) + BodyCalls(socket.recvPlan, old(socket.calls), 0, old(contentSize - received)))
    {
      ghost var call, left, totals: seq<nat> := socket.calls, contentSize - received, [0];
      ghost var flows := BodyComes();
      while received < contentSize
        invariant Valid() && InStep() && contentSize == old(contentSize) && socket.outbound == old(socket.outbound)
        invariant Behind(start) && received - socket.taken == old(received - socket.taken)
        invariant flows ==> BodyComes()
        invariant flows ==>
          BodyFlow(local, socket.recvPlan, call, totals, left, socket.calls, old(writes), writes,
                   received - old(received))
        decreases contentSize - received
      {
        error, totals := CountedChunk(start, flows, call, totals, left, old(writes), old(received));
        if error != Success { return; }
      }
      if flows { BodyFlowEnds(local, socket.recvPlan, call, totals, left, socket.calls, old(writes), writes); }
      return Success;
    }

    /** Closes the file, and removes it when the two counters differ. */
    method FreeResources()
      requires Valid()
      modifies this
      ensures !isOpen && received == old(received) && contentSize == old(contentSize) && created == old(created)
      ensures file == if created && received != contentSize && local.unlinks then None else old(file)
    {
      if isOpen {
        isOpen := false;
        if received != contentSize && local.unlinks {
          file := None;
        }
      }
    }
  }

  /** Appending a first part of the next bytes to all of those before. */
  lemma Appends(stream: string, h: nat, t: nat, u: nat, was: string, now: string)
    requires h <= t <= u <= |stream| && was <= stream[h..t] && |was| == t - h && now <= was + stream[t..u]
    ensures now <= stream[h..u]
  {
    assert was == stream[h..t];
    assert stream[h..t] + stream[t..u] == stream[h..u];
  }

  ghost function BodyLeft(ctx: CallCtx, flowing: bool): nat
    requires flowing ==> Obliging(ctx.socket.recvPlan)
    reads ctx, ctx.socket
  {
    if flowing && ctx.received <= ctx.contentSize
    then BodyCalls(ctx.socket.recvPlan, ctx.socket.calls, 0, ctx.contentSize - ctx.received) else 0
  }

  /** A complete response, read from its first byte by a call in which nothing but a write can fail. */
  ghost predicate Expected(ctx: CallCtx, taken: nat, rest: string, content: string) {
    && taken == 0 && Flowing(ctx.socket, ctx.local) && |HeaderText(rest)| < BUFFER_SIZE
    && IsResponse(ctx.socket.inbound, rest, |content|, content)
  }

  lemma ExpectedComes(ctx: CallCtx, taken: nat, rest: string, content: string)
    requires Expected(ctx, taken, rest, content)
    ensures ctx.Comes(taken, |HeaderText(rest)|, content, None)
  {
    HeaderEnds(ctx.socket.inbound, "200", rest);
    ResponseAnnounces(ctx.socket.inbound, rest, content);
  }

  /** A refusal, read from its first byte by a call in which nothing else can fail. */
  ghost predicate Refused(ctx: CallCtx, taken: nat, code: string, rest: string) {
    && taken == 0 && Flowing(ctx.socket, ctx.local) && |StatusText(code, rest)| < BUFFER_SIZE
    && IsRefusal(ctx.socket.inbound, code, rest)
  }

  lemma RefusedComes(ctx: CallCtx, taken: nat, code: string, rest: string)
    requires Refused(ctx, taken, code, rest)
    ensures ctx.RefusalComes(taken, |HeaderText(rest)|, Some(Refusal(code)))
  {
    assert |HeaderText(rest)| == |StatusText(code, rest)|;
    HeaderEnds(ctx.socket.inbound, code, rest);
    RefusalRejects(ctx.socket.inbound, code, rest);
  }

  lemma NotRefused(stream: string, code: string, rest: string, content: string)
    requires IsResponse(stream, rest, |content|, content)
    ensures !IsRefusal(stream, code, rest)
  {
    if IsCode(code) && StatusText(code, rest) <= stream {
      assert code == StatusText(code, rest)[9..12] == stream[9..12];
      assert "200" == HeaderText(rest)[9..12] == stream[9..12];
    }
  }

  predicate AcceptablePath(path: Option<string>) {
    path.Some? && path.value != "" && path.value[0] == '/' && |path.value| <= CONTENT_PATH_MAX
  }

  predicate GoodArguments(contentPath: Option<string>, outputPath: Option<string>) {
    AcceptablePath(contentPath) && outputPath.Some? && outputPath.value != ""
  }

  /** How a call ends for a complete response whose writes are numbered from `from` to before `until`:
      well if none of them falls short; otherwise the file stays exactly if only the last one does, or
      if unlinking fails, and then it is truncated. */
  ghost predicate Ends(ctx: CallCtx, error: Error, from: nat, until: nat, content: string)
    reads ctx
  {
    if AllFull(ctx.local, from, until) then error == Success && ctx.file == Some(content)
    else
      && error == WriteOutputFile
      && (ctx.file.Some? <==> AllFull(ctx.local, from, until - 1) || !ctx.local.unlinks)
      && (ctx.file.Some? ==> ctx.file.value < content)
  }

  /** The number behind that of the write which carries the last byte of the content. */
  ghost function LastWrite(ctx: CallCtx, from: nat, call: nat, path: string, header: nat): nat
    requires Flowing(ctx.socket, ctx.local) && header < BUFFER_SIZE && header <= |ctx.socket.inbound|
  {
    from + ctx.WritesFrom(AfterSends(ctx.socket.sendPlan, call, |RequestText(path)|), header)
  }

  lemma StaysIff(local: Local, from: nat, until: nat, writes: nat, equal: bool)
    requires from < writes <= until && local.shortWrite(writes - 1).Some? && AllFull(local, from, writes - 1)
    requires equal <==> writes == until
    ensures !AllFull(local, from, until) && (equal <==> AllFull(local, from, until - 1))
  {
    assert from <= writes - 1 < until;
  }

  /** One whole call, from argument checks to clean-up.  Whatever the peer, the kernel and the
      file system do, success means the file holds exactly the announced number of bytes behind the
      stream's first blank line; a file this call created is removed exactly when the counters differ
      (and unlinking works); a complete response is stored byte for byte however it is split, unless a
      write falls short, and then the file stays exactly if that is the last write the content takes. */
  method GetContent(contentPath: Option<string>, outputPath: Option<string>, initialized: bool, connects: bool,
                    ctx: CallCtx, ghost code: string, ghost rest: string, ghost content: string)
    returns (error: Error)
    requires ctx.Valid() && !ctx.isOpen && ctx.received == 0 && ctx.contentSize == 0 && ctx.socket.outbound == ""
    requires contentPath.Some? ==> NUL !in contentPath.value
    modifies ctx, ctx.socket, ctx.buf
    ensures !ctx.isOpen
    ensures error == Success ==>
              && ctx.created && ctx.received == ctx.contentSize && ctx.Behind(old(ctx.socket.taken))
              && |ctx.file.value| == ctx.contentSize && ServicePath(ctx.socket.outbound) == contentPath
    ensures ctx.created ==> (ctx.file.None? <==> ctx.received != ctx.contentSize && ctx.local.unlinks)
    ensures !ctx.created ==> ctx.file == old(ctx.file)
    ensures ctx.created && error != Success && ctx.received == ctx.contentSize ==> ctx.LastChunkFailed(error)
    ensures Expected(ctx, old(ctx.socket.taken), rest, content) && initialized && connects
      && GoodArguments(contentPath, outputPath)
      ==> && |HeaderText(rest)| <= |ctx.socket.inbound|
          && var until := LastWrite(ctx, old(ctx.writes), old(ctx.socket.calls), contentPath.value, |HeaderText(rest)|);
             Ends(ctx, error, old(ctx.writes), until, content)
    ensures Refused(ctx, old(ctx.socket.taken), code, rest) && initialized && connects
      && GoodArguments(contentPath, outputPath)
      ==> && ctx.created == old(ctx.created)
          && error == if code == "404" then NotFound else if code == "403" then Forbidden else Server
    ensures error == InvalidParameter <==>
            || contentPath.None? || contentPath.value == "" || contentPath.value[0] != '/' || |contentPath.value| > 1024
            || outputPath.None? || outputPath.value == ""
    ensures error == NotInitialized <==> !initialized && GoodArguments(contentPath, outputPath)
    ensures error == ConnectGeneric <==> !connects && initialized && GoodArguments(contentPath, outputPath)
    ensures error in {InvalidParameter, NotInitialized, ConnectGeneric} ==>
              ctx.created == old(ctx.created) && ctx.socket.outbound == "" && ctx.socket.taken == old(ctx.socket.taken)
  {
    if !AcceptablePath(contentPath) { return InvalidParameter; }
    if outputPath.None? || outputPath.value == "" { return InvalidParameter; }
    if !initialized { return NotInitialized; }
    if !connects {
      ctx.FreeResources();
      return ConnectGeneric;
    }
    ghost var refusal := Some(Refusal(code));
    if Expected(ctx, ctx.socket.taken, rest, content) {
      ExpectedComes(ctx, ctx.socket.taken, rest, content);
      NotRefused(ctx.socket.inbound, code, rest, content);
      refusal := None;
    } else if Refused(ctx, ctx.socket.taken, code, rest) {
      RefusedComes(ctx, ctx.socket.taken, code, rest);
    }
    RequestRoundTrip(contentPath.value);
    error := Download(ctx, contentPath.value, |HeaderText(rest)|, content, refusal);
  }

  /** The part of a call that uses the connection: the request, the response, the clean-up. */
  method Download(ctx: CallCtx, path: string, ghost header: nat, ghost content: string, ghost refusal: Option<Error>)
    returns (error: Error)
    requires ctx.Valid() && !ctx.isOpen && ctx.received == 0 && ctx.contentSize == 0 && ctx.socket.outbound == ""
    requires |path| <= CONTENT_PATH_MAX
    modifies ctx, ctx.socket, ctx.buf
    ensures !ctx.isOpen
    ensures error == Success ==>
              && ctx.created && ctx.received == ctx.contentSize && ctx.Behind(old(ctx.socket.taken))
              && |ctx.file.value| == ctx.contentSize && ctx.socket.outbound == RequestText(path)
    ensures ctx.created ==> (ctx.file.None? <==> ctx.received != ctx.contentSize && ctx.local.unlinks)
    ensures !ctx.created ==> ctx.file == old(ctx.file)
    ensures ctx.created && error != Success && ctx.received == ctx.contentSize ==> ctx.LastChunkFailed(error)
    ensures ctx.Comes(old(ctx.socket.taken), header, content, refusal) ==>
              Ends(ctx, error, old(ctx.writes),
                   LastWrite(ctx, old(ctx.writes), old(ctx.socket.calls), path, header), content)
    ensures ctx.RefusalComes(old(ctx.socket.taken), header, refusal) ==>
              Some(error) == refusal && ctx.created == old(ctx.created)
    ensures error !in {InvalidParameter, NotInitialized, ConnectGeneric}
  {
    error := ctx.SendRequest(path);
    if error != Success {
      ctx.FreeResources();
      return;
    }
    error := Answered(ctx, header, content, refusal);
  }

  /** The response and the clean-up. */
  method Answered(ctx: CallCtx, ghost header: nat, ghost content: string, ghost refusal: Option<Error>)
    returns (error: Error)
    requires ctx.Valid() && !ctx.isOpen && ctx.received == 0 && ctx.contentSize == 0
    modifies ctx, ctx.socket, ctx.buf
    ensures !ctx.isOpen && ctx.socket.outbound == old(ctx.socket.outbound)
    ensures error == Success ==>
              && ctx.created && ctx.received == ctx.contentSize && ctx.Behind(old(ctx.socket.taken))
              && |ctx.file.value| == ctx.contentSize
    ensures ctx.created ==> (ctx.file.None? <==> ctx.received != ctx.contentSize && ctx.local.unlinks)
    ensures !ctx.created ==> ctx.file == old(ctx.file)
    ensures ctx.created && error != Success && ctx.received == ctx.contentSize ==> ctx.LastChunkFailed(error)
    ensures ctx.Comes(old(ctx.socket.taken), header, content, refusal) ==>
              Ends(ctx, error, old(ctx.writes),
                   old(ctx.writes) + ctx.WritesFrom(old(ctx.socket.calls), header), content)
    ensures ctx.RefusalComes(old(ctx.socket.taken), header, refusal) ==>
              Some(error) == refusal && ctx.created == old(ctx.created)
    ensures error !in {InvalidParameter, NotInitialized, ConnectGeneric}
  {
    ghost var from, call := ctx.writes, ctx.socket.calls;
    error := Receive(ctx, header, content, refusal);
    if ctx.Comes(old(ctx.socket.taken), header, content, refusal) && error != Success {
      StaysIff(ctx.local, from, from + ctx.WritesFrom(call, header), ctx.writes, ctx.received == ctx.contentSize);
    }
    ctx.FreeResources();
  }

  /** The receiving half of a call: header, then body. */
  method Receive(ctx: CallCtx, ghost header: nat, ghost content: string, ghost refusal: Option<Error>)
    returns (error: Error)
    requires ctx.Valid() && !ctx.isOpen && ctx.received == 0 && ctx.contentSize == 0
    modifies ctx, ctx.socket, ctx.buf
    ensures ctx.Valid() && ctx.socket.outbound == old(ctx.socket.outbound)
    ensures if ctx.isOpen then ctx.Behind(old(ctx.socket.taken)) else ctx.file == old(ctx.file)
    ensures error == Success ==> ctx.isOpen && ctx.received == ctx.contentSize == |ctx.file.value|
    ensures ctx.isOpen && error != Success && ctx.received == ctx.contentSize ==> ctx.LastChunkFailed(error)
    ensures ctx.Comes(old(ctx.socket.taken), header, content, refusal) ==>
              && ctx.isOpen && ctx.contentSize == |content| && ctx.file.value <= content
              && ctx.Told(error, old(ctx.writes), old(ctx.writes) + ctx.WritesFrom(old(ctx.socket.calls), header))
              && (error == Success <==> ctx.file.value == content)
    ensures ctx.RefusalComes(old(ctx.socket.taken), header, refusal) ==>
              Some(error) == refusal && !ctx.isOpen && ctx.created == old(ctx.created)
    ensures error !in {InvalidParameter, NotInitialized, ConnectGeneric}
  {
    ghost var start, comes := ctx.socket.taken, ctx.Comes(ctx.socket.taken, header, content, refusal);
    error := ctx.RecvHeader(header, content, refusal);
    if error != Success { return; }
    ghost var mid, left := ctx.writes, BodyLeft(ctx, comes);
    error := ctx.RecvBody(start);
    if comes {
      WritesTellJoin(ctx.local, error, old(ctx.writes), mid, mid + left, ctx.writes, ctx.received == ctx.contentSize);
    }
  }

  // ---- a call that leaves a truncated file ----

  const SAMPLE_REST: string := "OK\r\n" + CONTENT_LENGTH + "2"

  lemma SampleLines(header: string)
    requires header == HeaderText(SAMPLE_REST)
    ensures |header| == 38 && forall i :: 0 <= i < 34 ==> !MatchAt(header, i, HEADER_END)
  {
    assert forall i :: 0 <= i < 34 ==> header[i + 2] != '\r' || header[i] != '\r';
    forall i | 0 <= i < 34 ensures !MatchAt(header, i, HEADER_END) {
      var four := header[i..i + 4];
      assert four[0] == header[i] && four[2] == header[i + 2];
    }
  }

  lemma SampleIsResponse(content: string)
    requires |content| == 2
    ensures IsResponse(HeaderText(SAMPLE_REST) + content, SAMPLE_REST, 2, content)
  {
    SampleLines(HeaderText(SAMPLE_REST));
    AnnouncesDecimal("OK\r\n", 2, "");
    assert "OK\r\n" + CONTENT_LENGTH + Decimal(2) + "" == SAMPLE_REST;
  }

  /** Everything arrives with the first receive, so the content takes one write. */
  lemma OneWrite(plan: Plan, call: nat, header: nat, len: nat)
    requires 0 < header < len < BUFFER_SIZE && forall i :: plan(i) == Upto(BUFFER_SIZE)
    ensures Obliging(plan) && ContentWrites(plan, call, header, len) == 1
  {
    assert Got(plan, call, 0, len) == 0 && Got(plan, call, 1, len) == len;
    assert HeaderCalls(plan, call, 1, header, len) == 1;
  }

  /** The clean-up compares counters that were advanced before the write: a call that gets a complete
      response of two bytes, and whose only write falls short, fails and leaves the truncated file. */
  method TruncatedLeftover() returns (ctx: CallCtx, error: Error)
    ensures error == WriteOutputFile && ctx.received == ctx.contentSize
    ensures ctx.created && ctx.file.Some? && ctx.file.value < "ab"
  {
    var content, path := "ab", "/a";
    SampleIsResponse(content);
    ghost var header := |HeaderText(SAMPLE_REST)|;
    SampleLines(HeaderText(SAMPLE_REST));
    var socket := new Socket(HeaderText(SAMPLE_REST) + content, i => Upto(BUFFER_SIZE), i => Upto(BUFFER_SIZE), i => 0);
    ctx := new CallCtx(socket, Local(true, true, i => Some(0), i => true), None);
    assert Expected(ctx, 0, SAMPLE_REST, content);
    OneWrite(socket.recvPlan, AfterSends(socket.sendPlan, 0, |RequestText(path)|), header, |socket.inbound|);
    assert LastWrite(ctx, 0, 0, path, header) == 1;
    assert !AllFull(ctx.local, 0, 1) && AllFull(ctx.local, 0, 0) by { assert ctx.local.shortWrite(0).Some?; }
    error := GetContent(Some(path), Some("a"), true, true, ctx, "200", SAMPLE_REST, content);
  }
}
