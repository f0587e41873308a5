/** The request text of the GuestStore client and the way the service reads it back. */
module GuestStoreRequest {
  import opened Basics
  import opened CStrings

  const CONTENT_PATH_MAX: nat := 1024
  const HEADER_END: string := "\r\n\r\n"
  const HTTP_VERSION: string := "HTTP/1.1"

  // ---- what the client writes ----

  function EscapeChar(c: char): (r: string) {
    if c == ' ' then "%20" else if c == '%' then "%25" else if c == '?' then "%3F" else [c]
  }

  function Escape(path: string): (r: string) {
    if path == "" then "" else EscapeChar(path[0]) + Escape(path[1..])
  }

  function RequestText(path: string): (r: string) {
    "GET " + Escape(path) + " " + HTTP_VERSION + HEADER_END
  }

  lemma {:induction false} EscapeSnoc(path: string, c: char)
    ensures Escape(path + [c]) == Escape(path) + EscapeChar(c)
  {
    if path == "" {
      assert path + [c] == [c];
    } else {
      assert (path + [c])[1..] == path[1..] + [c];
      EscapeSnoc(path[1..], c);
    }
  }

  lemma EscapeStep(path: string, index: nat)
    requires index < |path|
    ensures Escape(path[..index + 1]) == Escape(path[..index]) + EscapeChar(path[index])
  {
    EscapeSnoc(path[..index], path[index]);
    assert path[..index] + [path[index]] == path[..index + 1];
  }

  /** The printed path is at most three times as long and keeps clear of the protocol's own characters. */
  lemma {:induction false} EscapeIsClean(path: string)
    requires NUL !in path
    ensures |path| <= |Escape(path)| <= 3 * |path|
    ensures forall k :: 0 <= k < |Escape(path)| ==> Escape(path)[k] !in {' ', '?', NUL}
    ensures path != "" ==> path[0] !in {' ', '?', '%'} ==> Escape(path)[..1] == path[..1]
  {
    if path != "" { EscapeIsClean(path[1..]); }
  }

  /** Only blanks, percent signs and question marks are escaped. */
  lemma {:induction false} EscapeIsMinimal(path: string)
    requires forall k :: 0 <= k < |path| ==> path[k] !in {' ', '%', '?'}
    ensures Escape(path) == path
  {
    if path != "" {
      EscapeIsMinimal(path[1..]);
      assert [path[0]] + path[1..] == path;
    }
  }

  /** Every percent sign printed starts one of the three triplets, in upper case. */
  lemma {:induction false} EscapeTriplets(path: string, k: nat)
    requires k < |Escape(path)| && Escape(path)[k] == '%'
    ensures k + 3 <= |Escape(path)| && Escape(path)[k..k + 3] in {"%20", "%25", "%3F"}
  {
    var first, rest := EscapeChar(path[0]), Escape(path[1..]);
    if k >= |first| {
      EscapeTriplets(path[1..], k - |first|);
      assert Escape(path)[k..k + 3] == rest[k - |first|..k - |first| + 3];
    } else {
      assert k == 0 && Escape(path)[..3] == first;
    }
  }

  // ---- what the service reads ----

  function HexValue(c: char): (r: Option<nat>) {
    if IsDigit(c) then Some((c as int) - ('0' as int))
    else if 'a' <= c <= 'f' then Some((c as int) - ('a' as int) + 10)
    else if 'A' <= c <= 'F' then Some((c as int) - ('A' as int) + 10)
    else None
  }

  /** Percent-decoding (section 2.1 of RFC 3986); a malformed escape or an escaped NUL is an error. */
  function Unescape(s: string): (r: Option<string>) {
    if s == "" then Some("")
    else if s[0] != '%' then
      match Unescape(s[1..]) case None => None case Some(t) => Some([s[0]] + t)
    else if |s| < 3 || HexValue(s[1]).None? || HexValue(s[2]).None? then None
    else
      var code := 16 * HexValue(s[1]).value + HexValue(s[2]).value;
      if code == 0 || code > 255 then None
      else match Unescape(s[3..]) case None => None case Some(t) => Some([code as char] + t)
  }

  /** The path the service takes from a complete request: the method must be GET, and the
      path is the text up to the next space or question mark, percent-decoded. */
  function ServicePath(request: string): (r: Option<string>) {
    var m := SkipDelims(request, 0, {' '});
    var mEnd := TokenEnd(request, m, {' '});
    if request[m..mEnd] != "GET" || mEnd == |request| || request[mEnd] == NUL then None
    else
      var p := SkipDelims(request, mEnd + 1, {'?', ' '});
      var pEnd := TokenEnd(request, p, {'?', ' '});
      if p == pEnd then None
      else match Unescape(request[p..pEnd])
        case None => None
        case Some(path) =>
          if path == "" || path[0] != '/' || |path| > CONTENT_PATH_MAX then None else Some(path)
  }

  lemma UnescapeEscapedChar(c: char, tail: string)
    requires c != NUL && Unescape(tail).Some?
    ensures Unescape(EscapeChar(c) + tail) == Some([c] + Unescape(tail).value)
  {
    var e := EscapeChar(c) + tail;
    if c in {' ', '%', '?'} {
      assert e[3..] == tail;
      assert HexValue(e[1]).Some? && HexValue(e[2]).Some?;
      assert 16 * HexValue(e[1]).value + HexValue(e[2]).value == c as int;
    } else {
      assert e[0] == c && e[1..] == tail;
    }
  }

  /** Percent-decoding undoes the client's escaping. */
  lemma {:induction false} UnescapeEscape(path: string)
    requires NUL !in path
    ensures Unescape(Escape(path)) == Some(path)
  {
    if path != "" {
      UnescapeEscape(path[1..]);
      UnescapeEscapedChar(path[0], Escape(path[1..]));
      assert [path[0]] + path[1..] == path;
    }
  }

  lemma RequestShape(esc: string, tail: string)
    ensures var r := "GET " + esc + " " + tail;
            r[0..3] == "GET" && r[0] == 'G' && r[1] == 'E' && r[2] == 'T' && r[3] == ' ' && r[4..4 + |esc|] == esc
            && r[4 + |esc|] == ' '
  {
  }

  /** Every content path the client accepts reaches the service unchanged. */
  lemma {:induction false} RequestRoundTrip(path: string)
    requires path != "" && path[0] == '/' && |path| <= CONTENT_PATH_MAX && NUL !in path
    ensures ServicePath(RequestText(path)) == Some(path)
    ensures |RequestText(path)| <= 17 + 3 * CONTENT_PATH_MAX
  {
    var esc := Escape(path);
    var r := RequestText(path);
    EscapeIsClean(path);
    RequestShape(esc, HTTP_VERSION + HEADER_END);
    assert r == "GET " + esc + " " + (HTTP_VERSION + HEADER_END);
    assert esc[0] == '/';
    TokenEndIs(r, 0, 3, {' '});
    forall k | 4 <= k < 4 + |esc| ensures r[k] !in {'?', ' '} && r[k] != NUL {
      assert r[k] == esc[k - 4];
    }
    TokenEndIs(r, 4, 4 + |esc|, {'?', ' '});
    UnescapeEscape(path);
  }
}
