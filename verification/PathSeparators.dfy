/** In-place removal of extra path separators, and the canonical form it computes. */
module PathSeparators {
  import opened Basics
  import opened CStrings

  // ---- what the loop computes ----

  /** The text without separators that follow a separator. */
  function Collapse(s: string): (r: string) {
    if s == "" then ""
    else
      var front, c := s[..|s| - 1], s[|s| - 1];
      if c == '/' && EndsInSlash(front) then Collapse(front) else Collapse(front) + [c]
  }

  predicate EndsInSlash(s: string) {
    s != "" && s[|s| - 1] == '/'
  }

  function Canonical(s: string): (r: string) {
    var t := Collapse(s);
    if |t| > 1 && EndsInSlash(t) then t[..|t| - 1] else t
  }

  lemma CollapseSnoc(s: string, c: char)
    ensures Collapse(s + [c]) == if c == '/' && EndsInSlash(s) then Collapse(s) else Collapse(s) + [c]
  {
    assert (s + [c])[..|s|] == s;
  }

  lemma {:induction false} CollapseKeepsEnd(s: string)
    ensures (Collapse(s) == "" <==> s == "") && (EndsInSlash(Collapse(s)) <==> EndsInSlash(s))
  {
    if s != "" { CollapseKeepsEnd(s[..|s| - 1]); }
  }

  /** strlen: the text of a NUL-terminated buffer. */
  ghost predicate HoldsText(buf: seq<char>, s: string) {
    |s| < |buf| && buf[..|s|] == s && buf[|s|] == NUL && NUL !in s
  }

  method StrLen(path: array<char>, ghost text: string) returns (length: nat)
    requires HoldsText(path[..], text)
    ensures length == |text|
  {
    length := 0;
    while path[length] != NUL
      invariant 0 <= length <= |text|
      decreases |text| - length
    {
      assert path[..][length] == path[length];
      length := length + 1;
    }
    assert forall j :: 0 <= j < |text| ==> path[j] == text[j] by {
      assert path[..][..|text|] == text;
      assert forall j :: 0 <= j < |text| ==> path[..][j] == path[..][..|text|][j];
    }
  }

  /** memmove(path + i - 1, path + i, length - i + 1). */
  method MoveDown(path: array<char>, i: nat, length: nat)
    requires 0 < i <= length < path.Length
    modifies path
    ensures forall j :: 0 <= j < i - 1 ==> path[j] == old(path[j])
    ensures forall j :: i - 1 <= j < length ==> path[j] == old(path[j + 1])
  {
    forall j | i - 1 <= j < length { path[j] := path[j + 1]; }
  }

  /** The state of the loop: the first i characters are the collapsed front of the text, the others
      its rest. */
  ghost predicate Progress(buf: seq<char>, i: nat, length: nat, text: string, done: nat) {
    && i <= length < |buf| && done + (length - i) == |text|
    && i == |Collapse(text[..done])|
    && (forall j :: 0 <= j < i ==> buf[j] == Collapse(text[..done])[j])
    && (forall j :: i <= j <= length ==> buf[j] == if j == length then NUL else text[done + (j - i)])
  }

  lemma CollapseNext(text: string, done: nat)
    requires done < |text|
    ensures Collapse(text[..done + 1]) ==
            if text[done] == '/' && EndsInSlash(text[..done]) then Collapse(text[..done])
            else Collapse(text[..done]) + [text[done]]
    ensures EndsInSlash(text[..done + 1]) <==> text[done] == '/'
    ensures Collapse(text[..done]) == "" <==> done == 0
    ensures EndsInSlash(Collapse(text[..done])) <==> EndsInSlash(text[..done])
  {
    assert text[..done] + [text[done]] == text[..done + 1];
    CollapseSnoc(text[..done], text[done]);
    CollapseKeepsEnd(text[..done]);
  }

  lemma ProgressStarts(buf: seq<char>, text: string)
    requires HoldsText(buf, text)
    ensures Progress(buf, 0, |text|, text, 0)
  {
    forall j | 0 <= j < |text| ensures buf[j] == text[j] { assert buf[j] == buf[..|text|][j]; }
  }

  /** A character that stays where it is. */
  lemma ProgressKeeps(buf: seq<char>, i: nat, length: nat, text: string, done: nat)
    requires Progress(buf, i, length, text, done) && i < length
    requires !(text[done] == '/' && EndsInSlash(text[..done]))
    ensures Progress(buf, i + 1, length, text, done + 1)
  {
    CollapseNext(text, done);
    var was, now := Collapse(text[..done]), Collapse(text[..done + 1]);
    assert now == was + [text[done]];
    forall j | 0 <= j < i + 1 ensures buf[j] == now[j] {
      if j < i { assert buf[j] == was[j]; } else { assert buf[i] == text[done + 0]; }
    }
  }

  /** A separator that the characters after it overwrite. */
  lemma ProgressDrops(buf: seq<char>, moved: seq<char>, i: nat, length: nat, text: string, done: nat)
    requires Progress(buf, i, length, text, done) && 0 < i < length && |moved| == |buf|
    requires text[done] == '/' && EndsInSlash(text[..done])
    requires forall j :: 0 <= j < i - 1 ==> moved[j] == buf[j]
    requires forall j :: i - 1 <= j < length ==> moved[j] == buf[j + 1]
    ensures Progress(moved, i, length - 1, text, done + 1)
  {
    CollapseNext(text, done);
    var was := Collapse(text[..done]);
    forall j | 0 <= j < i ensures moved[j] == was[j] {
      assert buf[j] == was[j];
      if j == i - 1 { assert moved[j] == buf[i] == text[done + 0]; }
    }
    forall j | i <= j <= length - 1 ensures moved[j] == if j == length - 1 then NUL else text[done + 1 + (j - i)] {
      assert moved[j] == buf[j + 1];
      if j < length - 1 { assert buf[j + 1] == text[done + (j + 1 - i)]; }
    }
  }

  lemma ProgressEnds(buf: seq<char>, length: nat, text: string)
    requires Progress(buf, length, length, text, |text|) && NUL !in text
    ensures length == |Collapse(text)| && buf[..length] == Collapse(text) && NUL !in Collapse(text)
  {
    assert text[..|text|] == text;
    NoNulIn(text);
  }

  method DropSeparator(path: array<char>, i: nat, length: nat, ghost text: string, ghost done: nat)
    requires Progress(path[..], i, length, text, done) && 0 < i < length
    requires text[done] == '/' && EndsInSlash(text[..done])
    modifies path
    ensures Progress(path[..], i, length - 1, text, done + 1)
  {
    ghost var buf := path[..];
    MoveDown(path, i, length);
    ProgressDrops(buf, path[..], i, length, text, done);
  }

  lemma NextCharacter(buf: seq<char>, i: nat, length: nat, text: string, done: nat)
    requires Progress(buf, i, length, text, done) && i < length
    ensures done < |text| && buf[i] == text[done]
    ensures EndsInSlash(text[..done + 1]) <==> text[done] == '/'
    ensures EndsInSlash(text[..done]) ==> i > 0
  {
    CollapseNext(text, done);
    assert buf[i] == text[done + (i - i)];
  }

  /** The loop: `length` becomes the length of the collapsed text. */
  method DropRepeated(path: array<char>, ghost text: string) returns (length: nat)
    requires HoldsText(path[..], text)
    modifies path
    ensures length == |Collapse(text)| < path.Length && path[..length] == Collapse(text)
  {
    length := StrLen(path, text);
    var i, lastCharWasSep := 0, false;
    ghost var done := 0;
    ProgressStarts(path[..], text);
    while i < length
      invariant 0 <= i <= length && Progress(path[..], i, length, text, done)
      invariant lastCharWasSep <==> EndsInSlash(text[..done])
      decreases length - i
    {
      NextCharacter(path[..], i, length, text, done);
      assert path[i] == path[..][i];
      if path[i] == '/' {
        if lastCharWasSep {
          DropSeparator(path, i, length, text, done);
          length := length - 1;
          i := i - 1;
        } else {
          ProgressKeeps(path[..], i, length, text, done);
          lastCharWasSep := true;
        }
      } else {
        ProgressKeeps(path[..], i, length, text, done);
        lastCharWasSep := false;
      }
      i := i + 1;
      done := done + 1;
    }
    ProgressEnds(path[..], length, text);
    assert path[..length] == path[..][..length];
  }

  /** The buffer's text becomes its canonical form, in place; the new length is returned. */
  method StripExtraPathSeparators(path: array<char>, ghost text: string) returns (length: nat)
    requires HoldsText(path[..], text) && path.Length <= 0x1_0000_0000
    modifies path
    ensures length == |Canonical(text)| && HoldsText(path[..], Canonical(text))
  {
    length := DropRepeated(path, text);
    NoNulIn(text);
    ghost var t := Collapse(text);
    assert length > 0 ==> path[length - 1] == path[..length][length - 1];
    if length > 1 && path[length - 1] == '/' {
      length := length - 1;
    }
    assert path[..length] == t[..length] == Canonical(text);
    path[length] := NUL;
    assert path[..][..length] == t[..length];
  }

  lemma {:induction false} NoNulIn(s: string)
    requires NUL !in s
    ensures NUL !in Collapse(s)
  {
    if s != "" { NoNulIn(s[..|s| - 1]); }
  }

  // ---- what the canonical form means ----

  predicate Leading(s: string) {
    s != "" && s[0] == '/'
  }

  /** The non-empty stretches between separators. */
  function Components(s: string): (r: seq<string>)
    ensures s != "" && !EndsInSlash(s) ==> r != []
  {
    if s == "" then []
    else
      var front, c := s[..|s| - 1], s[|s| - 1];
      var r := Components(front);
      if c == '/' then r
      else if front == "" || EndsInSlash(front) then r + [[c]]
      else r[..|r| - 1] + [r[|r| - 1] + [c]]
  }

  predicate IsName(x: string) {
    x != "" && '/' !in x
  }

  ghost predicate AreNames(names: seq<string>) {
    forall i :: 0 <= i < |names| ==> IsName(names[i])
  }

  lemma {:induction false} ComponentsAreNames(s: string)
    ensures AreNames(Components(s))
  {
    if s != "" {
      var front, c := s[..|s| - 1], s[|s| - 1];
      ComponentsAreNames(front);
      var r := Components(front);
      if c != '/' && front != "" && !EndsInSlash(front) {
        assert IsName(r[|r| - 1]);
        assert IsName(r[|r| - 1] + [c]);
      }
    }
  }

  function Join(names: seq<string>): (r: string) {
    if names == [] then ""
    else if |names| == 1 then names[0]
    else Join(names[..|names| - 1]) + "/" + names[|names| - 1]
  }

  function Render(leading: bool, names: seq<string>): (r: string) {
    (if leading then "/" else "") + Join(names)
  }

  lemma JoinSnoc(names: seq<string>, x: string)
    ensures Join(names + [x]) == if names == [] then x else Join(names) + "/" + x
  {
    assert (names + [x])[..|names|] == names;
  }

  lemma RenderSnoc(leading: bool, front: seq<string>, x: string)
    ensures Render(leading, front + [x]) == if front == [] then Render(leading, []) + x
                                            else Render(leading, front) + "/" + x
  {
    JoinSnoc(front, x);
    var lead := if leading then "/" else "";
    if front != [] {
      assert lead + (Join(front) + "/" + x) == lead + Join(front) + "/" + x;
    }
  }

  lemma GrowLast(r: seq<string>, x: string, c: char)
    ensures var q := r + [x]; q[..|q| - 1] + [q[|q| - 1] + [c]] == r + [x + [c]]
  {
    assert (r + [x])[..|r|] == r;
  }

  /** Extending the last name extends the joined text. */
  lemma JoinGrow(front: seq<string>, x: string, c: char)
    ensures Join(front + [x + [c]]) == Join(front + [x]) + [c]
  {
    JoinSnoc(front, x);
    JoinSnoc(front, x + [c]);
    if front != [] { Assoc(Join(front) + "/", x, [c]); }
  }

  lemma ComponentsSnoc(s: string, c: char)
    ensures var r := Components(s);
            Components(s + [c]) ==
            if c == '/' then r
            else if s == "" || EndsInSlash(s) then r + [[c]]
            else r[..|r| - 1] + [r[|r| - 1] + [c]]
  {
    assert (s + [c])[..|s|] == s;
  }

  /** Only separators means no names. */
  lemma {:induction false} OnlySlashes(s: string)
    requires s != "" && Components(s) == []
    ensures Leading(s)
  {
    var front := s[..|s| - 1];
    if front != "" {
      assert s == front + [s[|s| - 1]];
      ComponentsSnoc(front, s[|s| - 1]);
      OnlySlashes(front);
    }
  }

  function Tail(s: string): (r: string) {
    if EndsInSlash(s) && Components(s) != [] then "/" else ""
  }

  lemma {:induction false} CollapseIs(s: string)
    ensures Collapse(s) == Render(Leading(s), Components(s)) + Tail(s)
  {
    if s != "" {
      var front, c := s[..|s| - 1], s[|s| - 1];
      CollapseIs(front);
      CollapseIsStep(front, c);
      assert s == front + [c];
    }
  }

  lemma CollapseIsStep(s: string, c: char)
    requires Collapse(s) == Render(Leading(s), Components(s)) + Tail(s)
    ensures Collapse(s + [c]) == Render(Leading(s + [c]), Components(s + [c])) + Tail(s + [c])
  {
    CollapseSnoc(s, c);
    ComponentsSnoc(s, c);
    if c == '/' {
      StepSlash(s);
    } else if s == "" || EndsInSlash(s) {
      StepStart(s, c);
    } else {
      StepGrow(s, c);
    }
  }

  lemma StepSlash(s: string)
    requires Collapse(s) == Render(Leading(s), Components(s)) + Tail(s) && Components(s + "/") == Components(s)
    ensures (if EndsInSlash(s) then Collapse(s) else Collapse(s) + "/") ==
            Render(Leading(s + "/"), Components(s)) + Tail(s + "/")
  {
    if s != "" {
      assert Leading(s + "/") == Leading(s);
    }
  }

  lemma StepStart(s: string, c: char)
    requires c != '/' && (s == "" || EndsInSlash(s))
    requires Collapse(s) == Render(Leading(s), Components(s)) + Tail(s) && Components(s + [c]) == Components(s) + [[c]]
    ensures Collapse(s) + [c] == Render(Leading(s + [c]), Components(s + [c])) + Tail(s + [c])
  {
    var names := Components(s);
    RenderSnoc(Leading(s), names, [c]);
    assert Tail(s + [c]) == "";
    if s != "" {
      assert Leading(s + [c]) == Leading(s);
      if names == [] { OnlySlashes(s); }
    }
  }

  lemma StepGrow(s: string, c: char)
    requires c != '/' && s != "" && !EndsInSlash(s)
    requires Collapse(s) == Render(Leading(s), Components(s)) + Tail(s)
    requires var r := Components(s); Components(s + [c]) == r[..|r| - 1] + [r[|r| - 1] + [c]]
    ensures Collapse(s) + [c] == Render(Leading(s + [c]), Components(s + [c])) + Tail(s + [c])
  {
    var names := Components(s);
    var front, x := names[..|names| - 1], names[|names| - 1];
    assert names == front + [x];
    RenderGrow(Leading(s), front, x, c);
    assert Leading(s + [c]) == Leading(s);
    assert Tail(s + [c]) == "" && Tail(s) == "";
    assert Collapse(s) == Render(Leading(s), names);
  }

  lemma RenderGrow(leading: bool, front: seq<string>, x: string, c: char)
    ensures Render(leading, front + [x + [c]]) == Render(leading, front + [x]) + [c]
  {
    JoinGrow(front, x, c);
    Assoc(if leading then "/" else "", Join(front + [x]), [c]);
  }

  lemma JoinEnds(names: seq<string>)
    requires names != [] && AreNames(names)
    ensures Join(names) != "" && !EndsInSlash(Join(names))
  {
    var x := names[|names| - 1];
    assert x[|x| - 1] in x;
  }

  /** The canonical form is the leading separator, if any, and the names joined by single separators. */
  lemma CanonicalIs(s: string)
    ensures Canonical(s) == Render(Leading(s), Components(s))
  {
    CollapseIs(s);
    var names := Components(s);
    ComponentsAreNames(s);
    if names != [] { JoinEnds(names); }
  }

  lemma ComponentsGrow(t: string, r: seq<string>, x: string, c: char)
    requires c != '/' && t != "" && !EndsInSlash(t) && Components(t) == r + [x]
    ensures Components(t + [c]) == r + [x + [c]]
  {
    ComponentsSnoc(t, c);
    GrowLast(r, x, c);
  }

  /** A name after a separator is one more component. */
  lemma {:induction false} ComponentsAppend(s: string, x: string)
    requires IsName(x) && (s == "" || EndsInSlash(s))
    ensures Components(s + x) == Components(s) + [x] && !EndsInSlash(s + x)
    decreases |x|
  {
    var front, c := x[..|x| - 1], x[|x| - 1];
    var r, t := Components(s), s + front;
    assert c in x;
    assert s + x == t + [c];
    assert front + [c] == x;
    if front == "" {
      assert t == s;
      ComponentsSnoc(s, c);
    } else {
      ComponentsAppend(s, front);
      ComponentsGrow(t, r, front, c);
    }
  }

  lemma {:induction false} ComponentsOfRender(leading: bool, names: seq<string>)
    requires AreNames(names)
    ensures Components(Render(leading, names)) == names && Leading(Render(leading, names)) == leading
    decreases |names|
  {
    if names != [] {
      var front, x := names[..|names| - 1], names[|names| - 1];
      assert names == front + [x] && IsName(x);
      ComponentsOfRender(leading, front);
      RenderSnoc(leading, front, x);
      AppendName(leading, front, x);
    }
  }

  lemma AppendName(leading: bool, front: seq<string>, x: string)
    requires IsName(x) && AreNames(front)
    requires Components(Render(leading, front)) == front && Leading(Render(leading, front)) == leading
    ensures var r := if front == [] then Render(leading, []) + x else Render(leading, front) + "/" + x;
            Components(r) == front + [x] && Leading(r) == leading
  {
    var before := Render(leading, front);
    if front == [] {
      ComponentsAppend(before, x);
      assert x[0] in x;
    } else {
      JoinEnds(front);
      ComponentsSnoc(before, '/');
      ComponentsAppend(before + "/", x);
      assert (before + "/" + x)[0] == before[0];
    }
  }

  /** Canonicalising keeps the leading separator and the names. */
  lemma CanonicalKeeps(s: string)
    ensures Leading(Canonical(s)) == Leading(s) && Components(Canonical(s)) == Components(s)
  {
    CanonicalIs(s);
    ComponentsAreNames(s);
    ComponentsOfRender(Leading(s), Components(s));
  }

  /** Two paths have the same canonical form exactly when they agree on a leading separator and on the
      sequence of names between separators. */
  lemma SameCanonicalIff(s: string, t: string)
    ensures Canonical(s) == Canonical(t) <==> Leading(s) == Leading(t) && Components(s) == Components(t)
  {
    CanonicalIs(s);
    CanonicalIs(t);
    CanonicalKeeps(s);
    CanonicalKeeps(t);
  }

  /** A second pass changes nothing. */
  lemma CanonicalIdempotent(s: string)
    ensures Canonical(Canonical(s)) == Canonical(s)
  {
    CanonicalKeeps(s);
    CanonicalIs(s);
    CanonicalIs(Canonical(s));
  }

  lemma {:induction false} CollapseNoDouble(s: string)
    ensures forall i :: 0 < i < |Collapse(s)| ==> !(Collapse(s)[i - 1] == '/' && Collapse(s)[i] == '/')
  {
    if s != "" {
      CollapseNoDouble(s[..|s| - 1]);
      CollapseKeepsEnd(s[..|s| - 1]);
    }
  }

  /** No two separators in a row, and none at the end except in "/" itself. */
  lemma CanonicalShape(s: string)
    ensures var r := Canonical(s);
            && (forall i :: 0 < i < |r| ==> !(r[i - 1] == '/' && r[i] == '/'))
            && (EndsInSlash(r) ==> r == "/")
  {
    CollapseNoDouble(s);
  }
}
