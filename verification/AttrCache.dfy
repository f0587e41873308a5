/** The HGFS attribute cache in its two forms: a hash table and a linked list behind one
    interface, with a time-to-live, invalidation, prefix invalidation and purging. */
module AttrCache {
  import opened Basics

  // ---- time ----

  const CACHE_TIMEOUT: int := 1
  const CACHE_PURGE_TIME: int := 10
  const HASH_THRESHOLD_SIZE: nat := 2046 * 4
  const HASH_PURGE_SIZE: nat := HASH_THRESHOLD_SIZE / 2
  const PATH_MAX: nat := 4096
  const TICKS: int := 10_000_000
  const EPOCH_SECONDS: int := (369 * 365 + 89) * 24 * 3600  // 1601 to 1970
  const TWO32: int := 0x1_0000_0000
  const TWO64: int := 0x1_0000_0000_0000_0000

  /** Truncation of a wider value to a C int. */
  function Int32(n: int): (r: int)
    ensures -0x8000_0000 <= r < 0x8000_0000
  {
    (n + 0x8000_0000) % TWO32 - 0x8000_0000
  }

  /** A Unix time in seconds as an unsigned 64-bit NT time. */
  function NtTime(seconds: int): (r: nat) {
    (seconds * TICKS + EPOCH_SECONDS * TICKS) % TWO64
  }

  /** The whole seconds between a stamp and now, as the source computes them. */
  function Age(now: int, stamp: nat): (r: int) {
    Int32((NtTime(now) - stamp) % TWO64 / TICKS)
  }

  /** The clock readings for which an invalidated entry (stamp 0) counts as too old:
      from 22 April 2009 to 10 May 2077. */
  predicate ClockRange(now: int) {
    1_240_428_290 <= now < 3_387_911_936
  }

  lemma AgeOfStamp(t: int, now: int)
    requires 0 <= t <= now < TWO32 && now - t < 0x8000_0000
    ensures Age(now, NtTime(t)) == now - t
  {
    assert NtTime(now) == now * TICKS + EPOCH_SECONDS * TICKS;
    assert NtTime(t) == t * TICKS + EPOCH_SECONDS * TICKS;
    assert NtTime(now) - NtTime(t) == (now - t) * TICKS;
  }

  lemma AgeOfZero(now: int)
    requires 0 <= now < TWO32
    ensures Age(now, 0) == Int32(now + EPOCH_SECONDS)
  {
    assert NtTime(now) == (now + EPOCH_SECONDS) * TICKS;
  }

  /** Stamp 0 reads as too old exactly in the clock range: the bound on the int difference, derived. */
  lemma InvalidatedMissesIff(now: int)
    requires 0 <= now < TWO32
    ensures Age(now, 0) > CACHE_TIMEOUT <==> ClockRange(now)
  {
    AgeOfZero(now);
    var k := now + EPOCH_SECONDS + 0x8000_0000;
    assert EPOCH_SECONDS == 11_644_473_600;
    if k < 4 * TWO32 {
      assert k % TWO32 == k - 3 * TWO32;
    } else {
      assert k % TWO32 == k - 4 * TWO32;
    }
  }

  // ---- the entries ----

  datatype Attr = Attr(isDirectory: bool, info: nat)

  datatype Entry = Entry(attr: Attr, stamp: nat)

  type Table = map<string, Entry>

  function Lower(c: char): (r: char) {
    if 'A' <= c <= 'Z' then (c as int + 32) as char else c
  }

  /** Str_Strncasecmp(parent, child, strnlen(parent, PATH_MAX)) == 0. */
  predicate CasePrefix(parent: string, child: string) {
    var n := if |parent| < PATH_MAX then |parent| else PATH_MAX;
    n <= |child| && forall i :: 0 <= i < n ==> Lower(parent[i]) == Lower(child[i])
  }

  /** The same character, or the two cases of one letter. */
  predicate SameLetter(a: char, b: char) {
    a == b || ('A' <= a <= 'Z' && b as int - a as int == 32) || ('A' <= b <= 'Z' && a as int - b as int == 32)
  }

  /** Up to letter case, `path` starts with all that is compared of `parent`. */
  predicate Covers(parent: string, path: string) {
    forall i :: 0 <= i < |parent| && i < PATH_MAX ==> i < |path| && SameLetter(parent[i], path[i])
  }

  lemma CasePrefixIff(parent: string, path: string)
    ensures CasePrefix(parent, path) <==> Covers(parent, path)
  {
    var n := if |parent| < PATH_MAX then |parent| else PATH_MAX;
    if Covers(parent, path) && n > 0 { assert SameLetter(parent[n - 1], path[n - 1]); }
    assert forall i :: 0 <= i < n && i < |path| ==>
      (Lower(parent[i]) == Lower(path[i]) <==> SameLetter(parent[i], path[i]));
  }

  // ---- what each operation does to the hash table ----

  function HashGet(t: Table, path: string, now: int): (r: Option<Attr>) {
    if path in t && Age(now, t[path].stamp) <= CACHE_TIMEOUT then Some(t[path].attr) else None
  }

  function HashInvalidate(t: Table, path: string): (r: Table) {
    if path !in t then t
    else
      map p | p in t ::
        if p == path || (t[path].attr.isDirectory && CasePrefix(path, p)) then t[p].(stamp := 0) else t[p]
  }

  class HashCache {
    var table: Table

    constructor ()
      ensures table == map[]
    {
      table := map[];
    }

    method Get(path: string, now: int) returns (r: Option<Attr>)
      ensures r == HashGet(table, path, now)
    {
      r := None;
      if path in table {
        var entry := table[path];
        var diff := Age(now, entry.stamp);
        if diff <= CACHE_TIMEOUT {
          r := Some(entry.attr);
        }
      }
    }

    method Set(path: string, attr: Attr, now: int)
      modifies this
      ensures table == old(table)[path := Entry(attr, NtTime(now))]
    {
      if path in table {
        table := table[path := table[path].(attr := attr)];
        table := table[path := table[path].(stamp := NtTime(now))];
        return;
      }
      table := table[path := Entry(attr, NtTime(now))];
    }

    method Invalidate(path: string)
      modifies this
      ensures table == HashInvalidate(old(table), path)
    {
      if path in table {
        table := table[path := table[path].(stamp := 0)];
        if table[path].attr.isDirectory {
          InvalidateChildren(path);
        }
      }
    }

    method InvalidateChildren(parent: string)
      modifies this
      ensures table == map p | p in old(table) :: if CasePrefix(parent, p) then old(table)[p].(stamp := 0)
                                                  else old(table)[p]
    {
      var todo := table.Keys;
      while todo != {}
        invariant todo <= table.Keys == old(table).Keys
        invariant forall p :: p in table ==>
          table[p] == if p !in todo && CasePrefix(parent, p) then old(table)[p].(stamp := 0) else old(table)[p]
        decreases |todo|
      {
        var child :| child in todo;
        if CasePrefix(parent, child) {
          table := table[child := table[child].(stamp := 0)];
        }
        todo := todo - {child};
      }
    }

    /** One round of the purging thread, visiting the entries in whatever order the table
        yields them: nothing below the threshold, otherwise entries go until fewer than half
        the threshold are left. */
    method Purge() returns (victims: set<string>)
      modifies this
      ensures table == old(table) - victims && victims <= old(table).Keys
      ensures old(|table|) < HASH_THRESHOLD_SIZE ==> victims == {}
      ensures old(|table|) >= HASH_THRESHOLD_SIZE ==> |table| == HASH_PURGE_SIZE - 1
    {
      victims := {};
      if |table| >= HASH_THRESHOLD_SIZE {
        while |table| >= HASH_PURGE_SIZE
          invariant HASH_PURGE_SIZE - 1 <= |table|
          invariant victims <= old(table).Keys && table == old(table) - victims
        {
          var p :| p in table;
          assert table.Keys == (table - {p}).Keys + {p};
          table := table - {p};
          victims := victims + {p};
        }
      }
    }
  }

  // ---- the linked list ----

  datatype Node = Node(path: string, entry: Entry)

  ghost predicate Unique(list: seq<Node>) {
    forall i, j :: 0 <= i < j < |list| ==> list[i].path != list[j].path
  }

  /** The list holds exactly the entries of the table, each path once. */
  ghost predicate Represents(list: seq<Node>, t: Table) {
    && Unique(list)
    && (forall i :: 0 <= i < |list| ==> list[i].path in t && t[list[i].path] == list[i].entry)
    && (forall p :: p in t ==> exists i :: 0 <= i < |list| && list[i].path == p)
  }

  function Purged(t: Table, now: int): (r: Table) {
    map p | p in t && Age(now, t[p].stamp) <= CACHE_PURGE_TIME :: t[p]
  }

  function Without(list: seq<Node>, at: nat): (r: seq<Node>)
    requires at < |list|
    ensures |r| == |list| - 1
    ensures forall i :: 0 <= i < at ==> r[i] == list[i]
    ensures forall i :: at <= i < |r| ==> r[i] == list[i + 1]
  {
    list[..at] + list[at + 1..]
  }

  lemma UnlinkUnique(list: seq<Node>, at: nat)
    requires Unique(list) && at < |list|
    ensures Unique(Without(list, at))
    ensures forall i :: 0 <= i < |list| - 1 ==> Without(list, at)[i].path != list[at].path
  {
  }

  lemma UnlinkFinds(list: seq<Node>, at: nat, p: string)
    requires at < |list| && p != list[at].path && exists i :: 0 <= i < |list| && list[i].path == p
    ensures exists i :: 0 <= i < |list| - 1 && Without(list, at)[i].path == p
  {
    var k :| 0 <= k < |list| && list[k].path == p;
    assert Without(list, at)[if k < at then k else k - 1] == list[k];
  }

  lemma UnlinkEntries(list: seq<Node>, t: Table, at: nat, i: nat)
    requires Represents(list, t) && at < |list| && i < |list| - 1
    ensures var n := Without(list, at)[i]; n.path in t - {list[at].path} && (t - {list[at].path})[n.path] == n.entry
  {
    UnlinkUnique(list, at);
  }

  /** Unlinking one node removes one path. */
  lemma Unlink(list: seq<Node>, t: Table, at: nat)
    requires Represents(list, t) && at < |list|
    ensures Represents(Without(list, at), t - {list[at].path})
  {
    var rest, less := Without(list, at), t - {list[at].path};
    UnlinkUnique(list, at);
    forall i | 0 <= i < |rest| ensures rest[i].path in less && less[rest[i].path] == rest[i].entry {
      UnlinkEntries(list, t, at, i);
    }
    forall p | p in less ensures exists i :: 0 <= i < |rest| && rest[i].path == p {
      UnlinkFinds(list, at, p);
    }
  }

  lemma Overwrite(list: seq<Node>, t: Table, at: nat, e: Entry)
    requires Represents(list, t) && at < |list|
    ensures Represents(list[at := Node(list[at].path, e)], t[list[at].path := e])
  {
    var next := list[at := Node(list[at].path, e)];
    assert forall i :: 0 <= i < |list| ==> next[i].path == list[i].path;
    forall p | p in t ensures exists i :: 0 <= i < |next| && next[i].path == p {
      var k :| 0 <= k < |list| && list[k].path == p;
      assert next[k].path == p;
    }
  }

  lemma Prepend(list: seq<Node>, t: Table, path: string, e: Entry)
    requires Represents(list, t) && path !in t
    ensures Represents([Node(path, e)] + list, t[path := e])
  {
    var next := [Node(path, e)] + list;
    assert next[0].path == path;
    forall p | p in t ensures exists i :: 0 <= i < |next| && next[i].path == p {
      var k :| 0 <= k < |list| && list[k].path == p;
      assert next[k + 1].path == p;
    }
  }

  class ListCache {
    var list: seq<Node>
    ghost var table: Table

    ghost predicate Valid()
      reads this
    {
      Represents(list, table)
    }

    constructor ()
      ensures Valid() && table == map[]
    {
      list, table := [], map[];
    }

    /** The walk every list operation starts with. */
    method Find(path: string) returns (at: nat)
      requires Valid()
      ensures at <= |list| && (at < |list| ==> list[at].path == path)
      ensures at == |list| <==> path !in table
    {
      at := 0;
      while at < |list| && list[at].path != path
        invariant at <= |list|
        invariant forall i :: 0 <= i < at ==> list[i].path != path
      {
        at := at + 1;
      }
    }

    method Get(path: string, now: int) returns (r: Option<Attr>)
      requires Valid()
      ensures r == HashGet(table, path, now)
    {
      r := None;
      var at := Find(path);
      if at < |list| {
        var diff := Age(now, list[at].entry.stamp);
        if diff <= CACHE_TIMEOUT {
          r := Some(list[at].entry.attr);
        }
      }
    }

    method Set(path: string, attr: Attr, now: int)
      requires Valid()
      modifies this
      ensures Valid() && table == old(table)[path := Entry(attr, NtTime(now))]
    {
      var at := Find(path);
      if at < |list| {
        Overwrite(list, table, at, Entry(attr, NtTime(now)));
        list := list[at := Node(path, Entry(attr, NtTime(now)))];
      } else {
        Prepend(list, table, path, Entry(attr, NtTime(now)));
        list := [Node(path, Entry(attr, NtTime(now)))] + list;
      }
      table := table[path := Entry(attr, NtTime(now))];
    }

    method Invalidate(path: string)
      requires Valid()
      modifies this
      ensures Valid() && table == old(table) - {path}
    {
      var at := Find(path);
      if at < |list| {
        Unlink(list, table, at);
        list := Without(list, at);
      }
      table := table - {path};
    }

    /** One round of the purging thread: every entry older than the purge time goes. */
    method Purge(now: int)
      requires Valid()
      modifies this
      ensures Valid() && table == Purged(old(table), now)
    {
      var i := 0;
      while i < |list|
        invariant i <= |list| && Valid() && Purged(table, now) == Purged(old(table), now)
        invariant forall k :: 0 <= k < i ==> Age(now, list[k].entry.stamp) <= CACHE_PURGE_TIME
        decreases |list| - i
      {
        if Age(now, list[i].entry.stamp) > CACHE_PURGE_TIME {
          Unlink(list, table, i);
          assert Purged(table - {list[i].path}, now) == Purged(table, now);
          table := table - {list[i].path};
          list := Without(list, i);
        } else {
          i := i + 1;
        }
      }
      AllFresh(list, table, now);
    }
  }

  lemma AllFresh(list: seq<Node>, t: Table, now: int)
    requires Represents(list, t)
    requires forall k :: 0 <= k < |list| ==> Age(now, list[k].entry.stamp) <= CACHE_PURGE_TIME
    ensures Purged(t, now) == t
  {
    forall p | p in t ensures Age(now, t[p].stamp) <= CACHE_PURGE_TIME {
      var i :| 0 <= i < |list| && list[i].path == p;
      assert t[p] == list[i].entry;
    }
  }

  // ---- runs ----

  datatype Event =
    | SetAttr(path: string, attr: Attr)
    | Invalidation(path: string)
    | HashPurge(victims: set<string>)
    | ListPurge

  datatype Step = Step(time: int, event: Event)

  function HashStep(t: Table, s: Step): (r: Table) {
    match s.event
    case SetAttr(path, attr) => t[path := Entry(attr, NtTime(s.time))]
    case Invalidation(path) => HashInvalidate(t, path)
    case HashPurge(victims) => t - victims
    case ListPurge => t
  }

  /** The hash table after a run of operations; the list's purge does not concern it. */
  function HashRun(h: seq<Step>): (t: Table) {
    if h == [] then map[] else HashStep(HashRun(h[..|h| - 1]), h[|h| - 1])
  }

  function ListStep(t: Table, s: Step): (r: Table) {
    match s.event
    case SetAttr(path, attr) => t[path := Entry(attr, NtTime(s.time))]
    case Invalidation(path) => t - {path}
    case HashPurge(victims) => t
    case ListPurge => Purged(t, s.time)
  }

  /** The list's contents after the same run. */
  function ListRun(h: seq<Step>): (t: Table) {
    if h == [] then map[] else ListStep(ListRun(h[..|h| - 1]), h[|h| - 1])
  }

  /** One call of both caches. */
  method Apply(call: Step, hash: HashCache, list: ListCache) returns (ghost done: Step)
    requires list.Valid()
    modifies hash, list
    ensures SameCall(done, call) && list.Valid()
    ensures hash.table == HashStep(old(hash.table), done) && list.table == ListStep(old(list.table), done)
  {
    done := call;
    match call.event
    case SetAttr(path, attr) =>
      hash.Set(path, attr, call.time);
      list.Set(path, attr, call.time);
    case Invalidation(path) =>
      hash.Invalidate(path);
      list.Invalidate(path);
    case HashPurge(_) =>
      var victims := hash.Purge();
      done := Step(call.time, HashPurge(victims));
    case ListPurge =>
      list.Purge(call.time);
  }

  /** Which operation a step is, leaving open what a hash purge takes. */
  predicate SameCall(a: Step, b: Step) {
    a.time == b.time && (a.event == b.event || (a.event.HashPurge? && b.event.HashPurge?))
  }

  /** Both caches compute exactly these functions of the history `h` that the calls make; what a purge of
      the hash form takes is up to its iteration. */
  method Run(calls: seq<Step>, hash: HashCache, list: ListCache) returns (ghost h: seq<Step>)
    requires hash.table == map[] && list.Valid() && list.table == map[]
    modifies hash, list
    ensures |h| == |calls| && forall i :: 0 <= i < |h| ==> SameCall(h[i], calls[i])
    ensures hash.table == HashRun(h) && list.Valid() && list.table == ListRun(h)
  {
    h := [];
    for n := 0 to |calls|
      invariant |h| == n && forall i :: 0 <= i < n ==> SameCall(h[i], calls[i])
      invariant hash.table == HashRun(h) && list.Valid() && list.table == ListRun(h)
    {
      ghost var done := Apply(calls[n], hash, list);
      assert (h + [done])[..n] == h;
      h := h + [done];
    }
  }

  // ---- the same, told from the history alone ----

  predicate Sets(s: Step, path: string) {
    s.event.SetAttr? && s.event.path == path
  }

  /** The index of the latest set of `path`, or -1. */
  function LastSet(h: seq<Step>, path: string): (i: int)
    ensures -1 <= i < |h|
    ensures i >= 0 ==> Sets(h[i], path)
    ensures forall j :: i < j < |h| ==> !Sets(h[j], path)
  {
    if h == [] then -1
    else if Sets(h[|h| - 1], path) then |h| - 1
    else LastSet(h[..|h| - 1], path)
  }

  ghost predicate PurgedAfter(h: seq<Step>, i: int, path: string) {
    exists j :: i < j < |h| && 0 <= j && h[j].event.HashPurge? && path in h[j].event.victims
  }

  /** The hash form still holds an entry for `path`, valid or not. */
  ghost predicate Cached(h: seq<Step>, path: string) {
    var i := LastSet(h, path);
    i >= 0 && !PurgedAfter(h, i, path)
  }

  ghost predicate CachedDirectory(h: seq<Step>, path: string) {
    Cached(h, path) && h[LastSet(h, path)].event.attr.isDirectory
  }

  /** Step j invalidates `path` in the hash form: it names it, or it names a directory, cached at
      that time, whose path is a case-insensitive prefix of it. */
  ghost predicate Invalidates(h: seq<Step>, j: nat, path: string)
    requires j < |h|
  {
    && h[j].event.Invalidation?
    && (h[j].event.path == path || (CachedDirectory(h[..j], h[j].event.path) && Covers(h[j].event.path, path)))
  }

  ghost predicate InvalidatedAfter(h: seq<Step>, i: int, path: string) {
    exists j: nat :: i < j < |h| && Invalidates(h, j, path)
  }

  /** Step j names `path` itself. */
  predicate Names(h: seq<Step>, j: nat, path: string)
    requires j < |h|
  {
    h[j].event.Invalidation? && h[j].event.path == path
  }

  ghost predicate NamedAfter(h: seq<Step>, i: int, path: string) {
    exists j: nat :: i < j < |h| && Names(h, j, path)
  }

  /** Every reading lies in the clock range and none is later than now. */
  ghost predicate ClockOk(h: seq<Step>, now: int) {
    ClockRange(now) && forall i :: 0 <= i < |h| ==> ClockRange(h[i].time) && h[i].time <= now
  }

  ghost predicate Monotone(h: seq<Step>) {
    forall i, j :: 0 <= i < j < |h| ==> h[i].time <= h[j].time
  }

  /** Extending a run by a step that does not set `path` adds to each "after" question only that step. */
  lemma AfterSnoc(h: seq<Step>, s: Step, i: int, path: string)
    requires -1 <= i < |h|
    ensures PurgedAfter(h + [s], i, path) <==>
              PurgedAfter(h, i, path) || (s.event.HashPurge? && path in s.event.victims)
    ensures InvalidatedAfter(h + [s], i, path) <==> InvalidatedAfter(h, i, path) || Invalidates(h + [s], |h|, path)
    ensures NamedAfter(h + [s], i, path) <==> NamedAfter(h, i, path) || Names(h + [s], |h|, path)
  {
    var g := h + [s];
    assert forall j: nat :: j < |h| ==> g[j] == h[j] && g[..j] == h[..j];
    assert g[|h|] == s;
    assert forall j: nat :: j < |h| ==> (Invalidates(g, j, path) <==> Invalidates(h, j, path));
    assert forall j: nat :: j < |h| ==> (Names(g, j, path) <==> Names(h, j, path));
  }

  /** The hash table, told from the history: who is in it, with which attributes and stamp. */
  lemma {:induction false} HashState(h: seq<Step>, path: string)
    ensures path in HashRun(h) <==> Cached(h, path)
    ensures Cached(h, path) ==>
      var i := LastSet(h, path);
      HashRun(h)[path] == Entry(h[i].event.attr, if InvalidatedAfter(h, i, path) then 0 else NtTime(h[i].time))
  {
    if h != [] {
      var n := |h| - 1;
      var g, s := h[..n], h[n];
      assert h == g + [s];
      HashState(g, path);
      if !Sets(s, path) {
        var i := LastSet(g, path);
        AfterSnoc(g, s, i, path);
        assert LastSet(h, path) == i;
        if s.event.Invalidation? {
          HashState(g, s.event.path);
          CasePrefixIff(s.event.path, path);
          assert h[..n] == g;
        }
      }
    }
  }

  /** Soundness and completeness of the hash form over all runs: a get hits exactly when the latest
      set of the path is at most the timeout old and was neither purged nor invalidated since, and
      then it returns the attributes of that set. */
  lemma HashGetExact(h: seq<Step>, path: string, now: int)
    requires ClockOk(h, now)
    ensures HashGet(HashRun(h), path, now) ==
            var i := LastSet(h, path);
            if i >= 0 && now - h[i].time <= CACHE_TIMEOUT && !PurgedAfter(h, i, path) && !InvalidatedAfter(h, i, path)
            then Some(h[i].event.attr) else None
  {
    HashState(h, path);
    InvalidatedMissesIff(now);
    var i := LastSet(h, path);
    if i >= 0 { AgeOfStamp(h[i].time, now); }
  }

  ghost predicate AgedOutAfter(h: seq<Step>, i: int)
    requires 0 <= i < |h|
  {
    exists j :: i < j < |h| && h[j].event.ListPurge? && h[j].time - h[i].time > CACHE_PURGE_TIME
  }

  lemma AgedOutSnoc(h: seq<Step>, s: Step, i: int)
    requires 0 <= i < |h|
    ensures AgedOutAfter(h + [s], i) <==>
            AgedOutAfter(h, i) || (s.event.ListPurge? && s.time - h[i].time > CACHE_PURGE_TIME)
  {
    var g := h + [s];
    assert g[|h|] == s && forall j :: 0 <= j < |h| ==> g[j] == h[j];
  }

  /** The list form holds an entry for `path`. */
  ghost predicate Listed(h: seq<Step>, path: string) {
    var i := LastSet(h, path);
    i >= 0 && !NamedAfter(h, i, path) && !AgedOutAfter(h, i)
  }

  /** The last step settles whether `path` stays listed. */
  lemma ListedSnoc(h: seq<Step>, s: Step, path: string)
    requires !Sets(s, path)
    ensures LastSet(h + [s], path) == LastSet(h, path)
    ensures Listed(h + [s], path) <==>
            (Listed(h, path) && s.event != Invalidation(path)
             && !(s.event.ListPurge? && s.time - h[LastSet(h, path)].time > CACHE_PURGE_TIME))
  {
    var i := LastSet(h, path);
    assert (h + [s])[..|h|] == h;
    AfterSnoc(h, s, i, path);
    if i >= 0 { AgedOutSnoc(h, s, i); }
  }

  /** What one step of the list form does to an entry of that age. */
  lemma ListStepKeeps(t: Table, s: Step, path: string, attr: Attr, time: int)
    requires !Sets(s, path) && ClockRange(time) && ClockRange(s.time) && time <= s.time
    requires path in t ==> t[path] == Entry(attr, NtTime(time))
    ensures path in ListStep(t, s) <==>
            (path in t && s.event != Invalidation(path)
             && !(s.event.ListPurge? && s.time - time > CACHE_PURGE_TIME))
    ensures path in ListStep(t, s) ==> ListStep(t, s)[path] == Entry(attr, NtTime(time))
  {
    AgeOfStamp(time, s.time);
  }

  /** The list, told from the history. */
  lemma {:induction false} ListState(h: seq<Step>, path: string, now: int)
    requires ClockOk(h, now) && Monotone(h)
    ensures path in ListRun(h) <==> Listed(h, path)
    ensures Listed(h, path) ==>
      var i := LastSet(h, path);
      ListRun(h)[path] == Entry(h[i].event.attr, NtTime(h[i].time))
  {
    if h != [] {
      var n := |h| - 1;
      var g, s := h[..n], h[n];
      assert h == g + [s];
      ListState(g, path, now);
      if !Sets(s, path) {
        ListedSnoc(g, s, path);
        var i := LastSet(g, path);
        if i >= 0 { ListStepKeeps(ListRun(g), s, path, g[i].event.attr, g[i].time); }
      }
    }
  }

  /** The list form over all runs: its own purge never takes an entry that could still hit. */
  lemma ListGetExact(h: seq<Step>, path: string, now: int)
    requires ClockOk(h, now) && Monotone(h)
    ensures HashGet(ListRun(h), path, now) ==
            var i := LastSet(h, path);
            if i >= 0 && now - h[i].time <= CACHE_TIMEOUT && !NamedAfter(h, i, path)
            then Some(h[i].event.attr) else None
  {
    ListState(h, path, now);
    var i := LastSet(h, path);
    if i >= 0 { AgeOfStamp(h[i].time, now); }
  }

  /** The two forms answer a get alike exactly unless the hash form has, since the latest set, had the
      entry purged or invalidated through the prefix of a cached directory while the list form would
      still hit. */
  lemma FormsAgreeIff(h: seq<Step>, path: string, now: int)
    requires ClockOk(h, now) && Monotone(h)
    ensures HashGet(HashRun(h), path, now) == HashGet(ListRun(h), path, now) <==>
            var i := LastSet(h, path);
            !(i >= 0 && now - h[i].time <= CACHE_TIMEOUT && !NamedAfter(h, i, path)
              && (PurgedAfter(h, i, path) || InvalidatedAfter(h, i, path)))
  {
    HashGetExact(h, path, now);
    ListGetExact(h, path, now);
    var i := LastSet(h, path);
    if NamedAfter(h, i, path) {
      var j: nat :| i < j < |h| && Names(h, j, path);
      assert Invalidates(h, j, path);
    }
  }

  /** Without hash purges and without invalidations of paths cached as directories, the list form
      and the hash form give the same answer to every get. */
  lemma FormsAgree(h: seq<Step>, path: string, now: int)
    requires ClockOk(h, now) && Monotone(h)
    requires forall j: nat :: j < |h| ==> !h[j].event.HashPurge?
    requires forall j: nat :: j < |h| && h[j].event.Invalidation? ==> !CachedDirectory(h[..j], h[j].event.path)
    ensures HashGet(HashRun(h), path, now) == HashGet(ListRun(h), path, now)
  {
    FormsAgreeIff(h, path, now);
    var i := LastSet(h, path);
    if InvalidatedAfter(h, i, path) {
      var j: nat :| i < j < |h| && Invalidates(h, j, path);
      assert Names(h, j, path);
    }
  }

  /** The prefix test knows no path separators: invalidating the directory "/d" makes the hash form
      forget its sibling "/D2", which the list form keeps. */
  lemma FormsDisagree(file: Attr, now: int)
    requires ClockRange(now) && !file.isDirectory
    ensures var h := [Step(now, SetAttr("/d", Attr(true, 0))), Step(now, SetAttr("/D2", file)),
                      Step(now, Invalidation("/d"))];
            HashGet(HashRun(h), "/D2", now) == None && HashGet(ListRun(h), "/D2", now) == Some(file)
  {
    var h := [Step(now, SetAttr("/d", Attr(true, 0))), Step(now, SetAttr("/D2", file)), Step(now, Invalidation("/d"))];
    var dir, sibling := Entry(Attr(true, 0), NtTime(now)), Entry(file, NtTime(now));
    assert h[..2] == [h[0], h[1]] && [h[0], h[1]][..1] == [h[0]] && [h[0]][..0] == [];
    assert HashRun([h[0]]) == ListRun([h[0]]) == map["/d" := dir];
    assert HashRun([h[0], h[1]]) == ListRun([h[0], h[1]]) == map["/d" := dir, "/D2" := sibling];
    CasePrefixIff("/d", "/D2");
    InvalidatedMissesIff(now);
    AgeOfStamp(now, now);
  }

  /** Over all runs: a path that is cached and has been invalidated since its latest set misses if and only
      if the clock is in the range. */
  lemma InvalidatedGetMissesIff(h: seq<Step>, path: string, now: int)
    requires 0 <= now < TWO32 && Cached(h, path) && InvalidatedAfter(h, LastSet(h, path), path)
    ensures HashGet(HashRun(h), path, now) == None <==> ClockRange(now)
  {
    HashState(h, path);
    InvalidatedMissesIff(now);
  }

  /** Outside the clock range the promise of invalidation fails: an invalidated entry still hits. */
  lemma InvalidatedHitsEarly(path: string, attr: Attr)
    ensures var now := 1_000_000_000;  // September 2001
            var h := [Step(now - 100, SetAttr(path, attr)), Step(now, Invalidation(path))];
            HashGet(HashRun(h), path, now) == Some(attr)
  {
    var now := 1_000_000_000;
    var h := [Step(now - 100, SetAttr(path, attr)), Step(now, Invalidation(path))];
    assert h[..1] == [h[0]] && [h[0]][..0] == [];
    assert HashRun([h[0]]) == map[path := Entry(attr, NtTime(now - 100))];
    InvalidatedMissesIff(now);
  }
}
