/** The C library's string routines on NUL-terminated text, as functions on the sequence
    of characters held by a buffer.  They are shared by the components that scan text. */
module CStrings {
  import opened Basics

  const NUL: char := '\0'

  predicate MatchAt(s: string, i: nat, pat: string) {
    i + |pat| <= |s| && s[i..i + |pat|] == pat
  }

  /** strstr: the first place at or after `from`, and before the terminating NUL, where `pat` stands. */
  function Strstr(s: string, from: nat, pat: string): (r: Option<nat>)
    requires from <= |s| && pat != ""
    ensures r.Some? ==> from <= r.value && MatchAt(s, r.value, pat) && s[r.value] != NUL
    ensures r.Some? ==> forall k :: from <= k < r.value ==> !MatchAt(s, k, pat) && s[k] != NUL
    decreases |s| - from
  {
    if from == |s| || s[from] == NUL then None
    else if MatchAt(s, from, pat) then Some(from)
    else Strstr(s, from + 1, pat)
  }

  /** If `pat` first stands at `at`, with no NUL on the way, strstr finds exactly that place. */
  lemma {:induction false} StrstrFinds(s: string, from: nat, at: nat, pat: string)
    requires from <= at < |s| && pat != "" && MatchAt(s, at, pat)
    requires forall k :: from <= k < at ==> !MatchAt(s, k, pat)
    requires forall k :: from <= k <= at ==> s[k] != NUL
    ensures Strstr(s, from, pat) == Some(at)
    decreases at - from
  {
    if from < at { StrstrFinds(s, from + 1, at, pat); }
  }

  /** strtok_r, first half: the first position that is not one of the delimiters. */
  function SkipDelims(s: string, from: nat, delims: set<char>): (i: nat)
    requires from <= |s|
    ensures from <= i <= |s|
    ensures i < |s| ==> s[i] !in delims
    ensures forall k :: from <= k < i ==> s[k] in delims
    decreases |s| - from
  {
    if from == |s| || s[from] !in delims then from else SkipDelims(s, from + 1, delims)
  }

  /** strtok_r, second half: the end of the token that starts at `from`. */
  function TokenEnd(s: string, from: nat, delims: set<char>): (i: nat)
    requires from <= |s|
    ensures from <= i <= |s|
    ensures i < |s| ==> s[i] in delims || s[i] == NUL
    ensures forall k :: from <= k < i ==> s[k] !in delims && s[k] != NUL
    decreases |s| - from
  {
    if from == |s| || s[from] in delims || s[from] == NUL then from else TokenEnd(s, from + 1, delims)
  }

  /** The token end is the only position with delimiter-free text before it and a stop at it. */
  lemma {:induction false} TokenEndIs(s: string, from: nat, end: nat, delims: set<char>)
    requires from <= end <= |s|
    requires forall k :: from <= k < end ==> s[k] !in delims && s[k] != NUL
    requires end < |s| ==> s[end] in delims || s[end] == NUL
    ensures TokenEnd(s, from, delims) == end
    decreases end - from
  {
    if from < end { TokenEndIs(s, from + 1, end, delims); }
  }

  predicate IsDigit(c: char) { '0' <= c <= '9' }
}
