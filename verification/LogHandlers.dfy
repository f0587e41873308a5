/** Who owns the log handlers when logging is reconfigured: handlers are carried over from the old
    configuration or created, and what is not carried over is destroyed. */
module LogHandlers {
  import opened Basics

  const MAX_DOMAIN_LEN: nat := 64
  const DEFAULT_HANDLER: string := "file+"
  const SAFE_HANDLER: string := "std"
  const LEVEL_MASK: nat := 0xffff_fffc
  const FLAG_FATAL: nat := 2

  type Id = nat
  type Records = map<Id, Handler>

  /** A handler as far as reuse looks at it: `kind` is None for one that inherits from the default. */
  datatype Handler = Handler(domain: string, kind: Option<string>, data: Option<string>, mask: nat)

  /** The configuration of one domain: an unknown level has no mask. */
  datatype DomainConfig = DomainConfig(domain: string, mask: Option<nat>, handler: Option<string>, data: Option<string>)

  datatype Config = Config(main: DomainConfig, others: seq<DomainConfig>)

  predicate IsFile(kind: string) {
    kind == "file" || kind == "file+"
  }

  /** The handler a domain asks for, after the switch away from the old VMX handler and the default. */
  function AskedKind(c: DomainConfig, isDefault: bool, useVmx: bool): (r: Option<string>)
    ensures isDefault ==> r.Some?
    ensures r == Some("vmx") ==> c.handler == r && (!useVmx || c.domain == "vmvss")
    ensures r != c.handler ==>
              r == Some("file+") && if c.handler.None? then isDefault else c.handler == Some("vmx") && useVmx
  {
    if useVmx && c.handler == Some("vmx") && c.domain != "vmvss" then Some(DEFAULT_HANDLER)
    else if c.handler.None? && isDefault then Some(DEFAULT_HANDLER)
    else c.handler
  }

  /** The data a domain asks for: a file handler without any gets the default path. */
  function AskedData(c: DomainConfig, kind: Option<string>, pathOf: PathOf): (r: Option<string>)
    ensures c.data.Some? ==> r == c.data
    ensures c.data.None? && r.Some? ==> kind.Some? && kind.value in {"file", "file+"}
    ensures c.data.None? && kind in {Some("file"), Some("file+")} ==> r == pathOf(c.domain, None)
  {
    if c.data.None? && kind.Some? && IsFile(kind.value) then pathOf(c.domain, None) else c.data
  }

  /** The log file a domain writes to, from its name and what is configured. */
  type PathOf = (string, Option<string>) -> Option<string>

  /** The record of a handler that is new: file handlers get their path, others no data, and one that only
      inherits what is configured. */
  ghost predicate MadeFor(h: Handler, c: DomainConfig, kind: Option<string>, pathOf: PathOf) {
    && h.domain == c.domain && Some(h.mask) == c.mask
    && match kind
       case None => h.kind == None && h.data == c.data
       case Some(k) =>
         if k == "file" || k == "file+" then h.kind == Some("file") && h.data == pathOf(c.domain, c.data)
         else h.kind == kind && h.data == None
  }

  /** A domain is configured only under a name of legal length and with a known level. */
  predicate Usable(c: DomainConfig) {
    0 < |c.domain| <= MAX_DOMAIN_LEN && c.mask.Some?
  }

  /** Those of the first n other domains that get a handler of their own, in order. */
  function OwnDomains(cfg: Config, n: nat): (r: seq<DomainConfig>)
    requires n <= |cfg.others|
  {
    if n == 0 then []
    else
      var c, front := cfg.others[n - 1], OwnDomains(cfg, n - 1);
      if c.domain != cfg.main.domain && Usable(c) then front + [c] else front
  }

  /** They are all those with a name of their own that is not too long, and with a level. */
  lemma {:induction false} OwnDomainsAre(cfg: Config, n: nat)
    requires n <= |cfg.others|
    ensures forall c :: c in OwnDomains(cfg, n) <==>
              && c in cfg.others[..n] && c.domain != cfg.main.domain
              && c.domain != "" && |c.domain| <= MAX_DOMAIN_LEN && c.mask != None
  {
    if n > 0 {
      OwnDomainsAre(cfg, n - 1);
      assert cfg.others[..n] == cfg.others[..n - 1] + [cfg.others[n - 1]];
    }
  }

  /** The kind a handler is recorded under. */
  function StoredKind(kind: Option<string>): (r: Option<string>) {
    if kind.Some? && IsFile(kind.value) then Some("file") else kind
  }

  // ---- counting where a handler is ----

  function OccOpt(o: Option<Id>, x: Id): (r: nat) {
    if o == Some(x) then 1 else 0
  }

  function Occ(s: seq<Id>, x: Id): (r: nat) {
    if s == [] then 0 else Occ(s[..|s| - 1], x) + if s[|s| - 1] == x then 1 else 0
  }

  function OccSparse(s: seq<Option<Id>>, x: Id): (r: nat) {
    if s == [] then 0 else OccSparse(s[..|s| - 1], x) + OccOpt(s[|s| - 1], x)
  }

  lemma OccSnoc(s: seq<Id>, i: Id, x: Id)
    ensures Occ(s + [i], x) == Occ(s, x) + if i == x then 1 else 0
  {
    assert (s + [i])[..|s|] == s;
  }

  lemma {:induction false} OccClear(s: seq<Option<Id>>, k: nat, x: Id)
    requires k < |s|
    ensures OccSparse(s[k := None], x) == OccSparse(s, x) - OccOpt(s[k], x)
    decreases |s|
  {
    var n := |s| - 1;
    if k < n {
      OccClear(s[..n], k, x);
      assert s[k := None][..n] == s[..n][k := None];
    } else {
      assert s[k := None][..n] == s[..n];
    }
  }

  lemma {:induction false} OccPositive(s: seq<Id>, k: nat, x: Id)
    requires k < |s| && s[k] == x
    ensures Occ(s, x) >= 1
  {
    if k < |s| - 1 { OccPositive(s[..|s| - 1], k, x); }
  }

  /** The handlers held back while a new configuration is loaded; an entry is cleared when its handler
      is carried over. */
  datatype Old = Old(default: Option<Id>, domains: seq<Option<Id>>)

  const NOTHING_OLD := Old(None, [])

  /** No handler stands in two of these places. */
  ghost predicate Apart(default: Option<Id>, domains: seq<Id>, o: Old) {
    && (forall i, j :: 0 <= i < j < |domains| ==> domains[i] != domains[j])
    && (forall i :: 0 <= i < |domains| ==> default != Some(domains[i]) && o.default != Some(domains[i]))
    && (forall i, k :: 0 <= i < |domains| && 0 <= k < |o.domains| ==> o.domains[k] != Some(domains[i]))
    && (forall k :: 0 <= k < |o.domains| && o.domains[k].Some? ==> o.domains[k] != default && o.domains[k] != o.default)
    && (forall k, l :: 0 <= k < l < |o.domains| && o.domains[k].Some? ==> o.domains[k] != o.domains[l])
    && (o.default.Some? ==> o.default != default)
  }

  /** `taken` is one of the old handlers, and `rest` are the others. */
  ghost predicate Removes(o: Old, taken: Option<Id>, rest: Old) {
    && |rest.domains| == |o.domains|
    && (rest.default == o.default || rest.default.None?)
    && (forall k :: 0 <= k < |o.domains| ==> rest.domains[k] == o.domains[k] || rest.domains[k].None?)
    && (taken.None? ==> rest == o)
    && (taken.Some? ==> taken == o.default || taken in o.domains)
    && (taken.Some? ==> taken != rest.default && taken !in rest.domains)
  }

  /** A handler from elsewhere, or one just removed, stands apart where it is put. */
  lemma InstallApart(default: Option<Id>, domains: seq<Id>, o: Old, rest: Old, id: Id, isDefault: bool)
    requires Apart(default, domains, o) && (isDefault ==> default.None?)
    requires Removes(o, Some(id), rest) || (rest == o && Foreign(default, domains, o, id))
    ensures id !in domains && default != Some(id)
    ensures if isDefault then Apart(Some(id), domains, rest) else Apart(default, domains + [id], rest)
  {
  }

  ghost predicate Foreign(default: Option<Id>, domains: seq<Id>, o: Old, id: Id) {
    default != Some(id) && id !in domains && o.default != Some(id) && Some(id) !in o.domains
  }

  // ---- which old handler is carried over ----

  ghost predicate OfKind(info: Records, i: Option<Id>, kind: string) {
    i.Some? && i.value in info && info[i.value].kind == Some(kind)
  }

  ghost predicate Carries(info: Records, i: Id, kind: string, data: Option<string>) {
    i in info && info[i].kind == Some(kind) && info[i].data == data
  }

  /** Place i holds a handler of its own for the domain. */
  ghost predicate Named(info: Records, o: Old, domain: string, i: nat) {
    && i < |o.domains| && o.domains[i].Some? && o.domains[i].value in info
    && info[o.domains[i].value].kind.Some? && info[o.domains[i].value].domain == domain
  }

  ghost predicate FirstNamed(info: Records, o: Old, domain: string, i: nat) {
    Named(info, o, domain, i) && forall j: nat :: j < i ==> !Named(info, o, domain, j)
  }

  /** For the default domain, the old default if it is of the asked kind, and then only if it also has the
      same data; otherwise the first old domain of that name, if kind and data agree; otherwise none. */
  ghost predicate CarriesOver(info: Records, o: Old, domain: string, isDefault: bool, kind: string,
                              data: Option<string>, taken: Option<Id>)
  {
    if isDefault && OfKind(info, o.default, kind) then
      taken == if Carries(info, o.default.value, kind, data) then o.default else None
    else
      && (forall i: nat :: FirstNamed(info, o, domain, i) ==>
            taken == if Carries(info, o.domains[i].value, kind, data) then o.domains[i] else None)
      && ((forall i: nat :: !Named(info, o, domain, i)) ==> taken == None)
  }

  /** Handler `id` is the one that serves the domain, where `next` is the first that is not made yet: an old
      one exactly if there is one to carry over, otherwise a new one. */
  ghost predicate Chosen(info: Records, next: Id, o: Old, c: DomainConfig, isDefault: bool, kind: Option<string>,
                         data: Option<string>, id: Id)
  {
    var taken := if id < next then Some(id) else None;
    if kind.None? then taken == None else CarriesOver(info, o, c.domain, isDefault, kind.value, data, taken)
  }

  /** Its record: an old handler only gets the new mask. */
  ghost predicate Recorded(info: Records, next: Id, now: Records, id: Id, c: DomainConfig, kind: Option<string>,
                           pathOf: PathOf)
  {
    && id in now
    && if id < next then id in info && c.mask.Some? && now[id] == info[id].(mask := c.mask.value)
       else MadeFor(now[id], c, kind, pathOf)
  }

  /** The same handlers as before, save for their masks. */
  ghost predicate SameRecords(info: Records, now: Records) {
    forall i :: i in info ==> i in now && now[i].(mask := 0) == info[i].(mask := 0)
  }

  /** Only handlers held back have other records than before. */
  ghost predicate OnlyHeld(info: Records, now: Records, o: Old) {
    forall i :: i in info && o.default != Some(i) && Some(i) !in o.domains ==> i in now && now[i] == info[i]
  }

  /** A domain that asks for "file+" never carries a handler over, because records say "file". */
  lemma FilePlusIsNew(info: Records, next: Id, o: Old, c: DomainConfig, isDefault: bool, data: Option<string>, id: Id)
    requires Chosen(info, next, o, c, isDefault, Some("file+"), data, id)
    requires forall i :: i in info ==> info[i].kind != Some("file+")
    ensures id >= next
  {
    if i: nat :| FirstNamed(info, o, c.domain, i) {
      assert !Carries(info, o.domains[i].value, "file+", data);
    } else {
      NoneNamed(info, o, c.domain);
    }
  }

  /** A default handler that was made for a configuration is kept by the same configuration if and only if
      the configuration asks for the data the handler was made with, under the kind it is recorded under. */
  lemma KeptAgainIff(info: Records, next: Id, o: Old, c: DomainConfig, kind: string, pathOf: PathOf, id: Id, again: Id)
    requires id in info && MadeFor(info[id], c, Some(kind), pathOf) && o.default == Some(id) && id < next
    requires (forall i :: i in info ==> info[i].kind != Some("file+")) && Some(id) !in o.domains
    requires Chosen(info, next, o, c, true, Some(kind), AskedData(c, Some(kind), pathOf), again)
    ensures again == id <==>
            kind != "file+" && (c.data.None? || (kind == "file" && pathOf(c.domain, c.data) == c.data))
  {
    if kind == "file+" { FilePlusIsNew(info, next, o, c, true, AskedData(c, Some(kind), pathOf), again); }
  }

  lemma AddedRecords(info: Records, now: Records, o: Old)
    requires forall i :: i in info ==> i in now && now[i] == info[i]
    ensures SameRecords(info, now) && OnlyHeld(info, now, o)
  {
  }

  lemma CarriedIsChosen(info: Records, next: Id, now: Records, o: Old, rest: Old, c: DomainConfig, isDefault: bool,
                        kind: string, data: Option<string>, id: Id, pathOf: PathOf)
    requires CarriesOver(info, o, c.domain, isDefault, kind, data, Some(id)) && id < next && kind != "file+"
    requires Carries(info, id, kind, data) && (!isDefault ==> info[id].domain == c.domain)
    requires id in now && c.mask.Some? && now[id] == info[id].(mask := c.mask.value)
    requires SameRecords(info, now) && OnlyHeld(info, now, o) && GivesUp(info, o, rest, c.domain)
    ensures Chooses(info, next, now, o, rest, c, isDefault, Some(kind), data, id, pathOf)
  {
  }

  lemma CreatedIsChosen(info: Records, next: Id, now: Records, o: Old, c: DomainConfig, isDefault: bool, kind: string,
                        data: Option<string>, pathOf: PathOf)
    requires CarriesOver(info, o, c.domain, isDefault, kind, data, None)
    requires next in now && MadeFor(now[next], c, Some(kind), pathOf)
    requires forall i :: i in info ==> i in now && now[i] == info[i]
    ensures Chooses(info, next, now, o, o, c, isDefault, Some(kind), data, next, pathOf)
  {
    AddedRecords(info, now, o);
  }

  /** Only places of that name have been given up. */
  ghost predicate GivesUp(info: Records, o: Old, rest: Old, domain: string) {
    && |rest.domains| == |o.domains|
    && forall i: nat :: i < |o.domains| && rest.domains[i] != o.domains[i] ==>
         rest.domains[i] == None && Named(info, o, domain, i)
  }

  /** The handler is chosen as it should be and has the record it should have; only its place is given up,
      and a new one leaves the old ones where they are. */
  ghost predicate Chooses(info: Records, next: Id, now: Records, o: Old, rest: Old, c: DomainConfig, isDefault: bool,
                          kind: Option<string>, data: Option<string>, id: Id, pathOf: PathOf)
  {
    && Chosen(info, next, o, c, isDefault, kind, data, id) && Recorded(info, next, now, id, c, kind, pathOf)
    && SameRecords(info, now) && OnlyHeld(info, now, o)
    && GivesUp(info, o, rest, c.domain) && (id >= next ==> rest == o)
    && now[id].kind == StoredKind(kind) && (!isDefault ==> now[id].domain == c.domain)
  }

  /** Only places of these names have been given up. */
  ghost predicate GivenUp(info: Records, o: Old, rest: Old, names: set<string>) {
    && |rest.domains| == |o.domains|
    && forall i: nat :: i < |o.domains| && rest.domains[i] != o.domains[i] ==>
         && rest.domains[i] == None && o.domains[i].Some? && o.domains[i].value in info
         && info[o.domains[i].value].domain in names
  }

  lemma GivesUpMore(info: Records, now: Records, o: Old, mid: Old, rest: Old, names: set<string>, domain: string)
    requires GivenUp(info, o, mid, names) && GivesUp(now, mid, rest, domain) && SameRecords(info, now)
    requires forall i: nat :: i < |o.domains| && o.domains[i].Some? ==> o.domains[i].value in info
    ensures GivenUp(info, o, rest, names + {domain})
  {
    forall i: nat | i < |o.domains| && rest.domains[i] != o.domains[i]
      ensures && rest.domains[i] == None && o.domains[i].Some? && o.domains[i].value in info
              && info[o.domains[i].value].domain in names + {domain}
    {
      if mid.domains[i] == o.domains[i] {
        assert Named(now, mid, domain, i);
        var id := o.domains[i].value;
        assert now[id].(mask := 0) == info[id].(mask := 0);
      }
    }
  }

  lemma SameNamed(info: Records, now: Records, o: Old, rest: Old, names: set<string>, domain: string, i: nat)
    requires GivenUp(info, o, rest, names) && SameRecords(info, now) && domain !in names
    requires forall i: nat :: i < |o.domains| && o.domains[i].Some? ==> o.domains[i].value in info
    ensures Named(now, rest, domain, i) <==> Named(info, o, domain, i)
    ensures Named(info, o, domain, i) ==> rest.domains[i] == o.domains[i]
  {
    if i < |o.domains| && o.domains[i].Some? {
      var id := o.domains[i].value;
      assert now[id].(mask := 0) == info[id].(mask := 0);
    }
  }

  /** A domain whose name has not come up yet is served as if it came first. */
  lemma ChosenAsFirst(info: Records, next: Id, now: Records, next': Id, o: Old, rest: Old, names: set<string>,
                      c: DomainConfig, kind: Option<string>, data: Option<string>, id: Id)
    requires GivenUp(info, o, rest, names) && SameRecords(info, now) && next <= next' && c.domain !in names
    requires forall i: nat :: i < |o.domains| && o.domains[i].Some? ==> o.domains[i].value in info
    requires forall i: nat :: i < |o.domains| && o.domains[i].Some? ==> o.domains[i].value < next
    requires Chosen(now, next', rest, c, false, kind, data, id)
    ensures Chosen(info, next, o, c, false, kind, data, id)
  {
    if kind.Some? {
      var taken' := if id < next' then Some(id) else None;
      var taken := if id < next then Some(id) else None;
      forall i: nat ensures Named(now, rest, c.domain, i) <==> Named(info, o, c.domain, i)
        ensures Named(info, o, c.domain, i) ==> rest.domains[i] == o.domains[i]
      {
        SameNamed(info, now, o, rest, names, c.domain, i);
      }
      assert taken' == taken || (taken'.Some? && taken == None);
      if i: nat :| FirstNamed(info, o, c.domain, i) {
        assert FirstNamed(now, rest, c.domain, i);
        var held := o.domains[i].value;
        assert now[held].(mask := 0) == info[held].(mask := 0);
        assert Carries(now, held, kind.value, data) <==> Carries(info, held, kind.value, data);
        forall j: nat | FirstNamed(info, o, c.domain, j) ensures j == i { OneFirst(info, o, c.domain, i, j); }
      } else {
        NoneNamed(info, o, c.domain);
        assert taken' == None;
      }
    }
  }

  /** Records and handlers made in between do not matter to a choice among older ones. */
  lemma ChosenEarlier(info: Records, next: Id, now: Records, next': Id, o: Old, c: DomainConfig, isDefault: bool,
                      kind: Option<string>, data: Option<string>, id: Id)
    requires (forall i :: i in info ==> i in now && now[i] == info[i]) && next <= next'
    requires o.default.Some? ==> o.default.value in info && o.default.value < next
    requires forall i: nat :: i < |o.domains| && o.domains[i].Some? ==> o.domains[i].value in info
    requires forall i: nat :: i < |o.domains| && o.domains[i].Some? ==> o.domains[i].value < next
    requires Chosen(now, next', o, c, isDefault, kind, data, id)
    ensures Chosen(info, next, o, c, isDefault, kind, data, id)
  {
    if kind.Some? && !(isDefault && OfKind(info, o.default, kind.value)) {
      assert Chosen(now, next', o, c, false, kind, data, id);
      ChosenAsFirst(info, next, now, next', o, o, {}, c, kind, data, id);
    }
  }

  function HeldBack(default: Option<Id>, domains: seq<Id>): (o: Old) {
    Old(default, seq(|domains|, i requires 0 <= i < |domains| => Some(domains[i])))
  }

  /** The k-th of these domains is the first of its name. */
  ghost predicate IsFirst(own: seq<DomainConfig>, k: nat)
    requires k < |own|
  {
    forall j :: 0 <= j < k ==> own[j].domain != own[k].domain
  }

  /** The names that have come up when n of the other domains are configured. */
  ghost function NamesOf(cfg: Config, n: nat): (r: set<string>)
    requires n <= |cfg.others|
  {
    var own := OwnDomains(cfg, n);
    {cfg.main.domain} + set k | 0 <= k < |own| :: own[k].domain
  }

  lemma NamesGrow(cfg: Config, n: nat)
    requires n < |cfg.others|
    ensures var c := cfg.others[n];
            NamesOf(cfg, n + 1) ==
            if c.domain != cfg.main.domain && Usable(c) then NamesOf(cfg, n) + {c.domain} else NamesOf(cfg, n)
  {
    var c, own, more := cfg.others[n], OwnDomains(cfg, n), OwnDomains(cfg, n + 1);
    if c.domain != cfg.main.domain && Usable(c) {
      assert more == own + [c];
      forall d ensures d in NamesOf(cfg, n + 1) <==> d in NamesOf(cfg, n) + {c.domain} {
        if k :| 0 <= k < |own| && own[k].domain == d { assert more[k].domain == d; }
        if d == c.domain { assert more[|own|].domain == d; }
      }
    }
  }

  lemma OneFirst(info: Records, o: Old, domain: string, i: nat, j: nat)
    requires FirstNamed(info, o, domain, i) && FirstNamed(info, o, domain, j)
    ensures i == j
  {
  }

  /** Handler i does what the domain's configuration asks for. */
  ghost predicate Serving(info: Records, i: Id, c: DomainConfig, isDefault: bool, useVmx: bool) {
    && i in info && Some(info[i].mask) == c.mask && info[i].kind == StoredKind(AskedKind(c, isDefault, useVmx))
    && (!isDefault ==> info[i].domain == c.domain)
  }

  /** The default domain and these others are served as the configuration asks. */
  ghost predicate AllServed(info: Records, default: Option<Id>, ids: seq<Id>, main: DomainConfig,
                            own: seq<DomainConfig>, useVmx: bool)
  {
    && (default.Some? <==> Usable(main)) && (default.Some? ==> Serving(info, default.value, main, true, useVmx))
    && |ids| == |own| && forall k :: 0 <= k < |own| ==> Serving(info, ids[k], own[k], false, useVmx)
  }

  /** The handlers in use, with their records and the first that is not made yet. */
  datatype Use = Use(info: Records, next: Id, default: Option<Id>, ids: seq<Id>)

  /** Together with what is still held back. */
  datatype Stage = Stage(use: Use, rest: Old)

  /** Handlers in use keep serving while others are configured. */
  lemma StillServed(info: Records, now: Records, o: Old, default: Option<Id>, ids: seq<Id>, main: DomainConfig,
                    own: seq<DomainConfig>, useVmx: bool)
    requires AllServed(info, default, ids, main, own, useVmx) && OnlyHeld(info, now, o) && Apart(default, ids, o)
    ensures AllServed(now, default, ids, main, own, useVmx)
  {
    forall k | 0 <= k < |own| ensures Serving(now, ids[k], own[k], false, useVmx) {
      assert Serving(info, ids[k], own[k], false, useVmx);
      assert o.default != Some(ids[k]) && Some(ids[k]) !in o.domains;
    }
    if default.Some? { assert o.default != default && default !in o.domains; }
  }

  lemma NoneNamed(info: Records, o: Old, domain: string)
    requires forall i: nat :: !FirstNamed(info, o, domain, i)
    ensures forall i: nat :: !Named(info, o, domain, i)
  {
    forall i: nat ensures !Named(info, o, domain, i) { NotNamed(info, o, domain, i); }
  }

  lemma {:induction false} NotNamed(info: Records, o: Old, domain: string, i: nat)
    requires forall i: nat :: !FirstNamed(info, o, domain, i)
    ensures !Named(info, o, domain, i)
  {
    forall j: nat | j < i ensures !Named(info, o, domain, j) { NotNamed(info, o, domain, j); }
    assert !FirstNamed(info, o, domain, i);
  }

  method Held(ids: seq<Id>, ghost x: Id) returns (held: seq<Option<Id>>)
    ensures |held| == |ids| && forall k :: 0 <= k < |held| ==> held[k] == Some(ids[k])
    ensures OccSparse(held, x) == Occ(ids, x)
  {
    held := [];
    for i := 0 to |ids|
      invariant |held| == i && OccSparse(held, x) == Occ(ids[..i], x)
      invariant forall k :: 0 <= k < i ==> held[k] == Some(ids[k])
    {
      assert (held + [Some(ids[i])])[..i] == held && ids[..i + 1][..i] == ids[..i];
      held := held + [Some(ids[i])];
    }
    assert ids[..|ids|] == ids;
  }

  lemma HeldApart(default: Option<Id>, domains: seq<Id>, held: seq<Option<Id>>)
    requires Apart(default, domains, NOTHING_OLD)
    requires |held| == |domains| && forall k :: 0 <= k < |held| ==> held[k] == Some(domains[k])
    ensures Apart(None, [], Old(default, held))
  {
  }

  class LogSystem {
    const useVmx: bool
    const pathOf: PathOf
    var next: Id
    var info: Records
    var defaultData: Option<Id>
    var domains: seq<Id>
    var errorData: Option<Id>
    var errorSyslog: Option<Id>
    var destroyed: seq<Id>

    constructor (useVmx: bool, pathOf: PathOf)
      ensures Valid() && next == 0 && Apart(defaultData, domains, NOTHING_OLD) && forall x :: Once(x, NOTHING_OLD)
    {
      this.useVmx, this.pathOf := useVmx, pathOf;
      next, info, defaultData, domains, errorData, errorSyslog, destroyed := 0, map[], None, [], None, None, [];
    }

    /** Every handler has a record; both file kinds are recorded as "file". */
    ghost predicate Valid()
      reads this
    {
      && (forall i: Id :: i in info <==> i < next) && (forall i: Id :: i in info ==> info[i].kind != Some("file+"))
      && (defaultData.Some? ==> defaultData.value < next)
      && (forall k :: 0 <= k < |domains| ==> domains[k] < next)
    }

    /** In how many places handler x is in use. */
    ghost function Live(x: Id): (r: nat)
      reads this
    {
      OccOpt(defaultData, x) + Occ(domains, x) + OccOpt(errorData, x) + OccOpt(errorSyslog, x)
    }

    /** Handler x, if it has been created, is in exactly one place: in use, held back, or destroyed;
        and it is nowhere if it has not. */
    ghost predicate Once(x: Id, o: Old)
      reads this
    {
      Live(x) + OccOpt(o.default, x) + OccSparse(o.domains, x) + Occ(destroyed, x) == if x < next then 1 else 0
    }

    /** Every handler is in its place and `rest` is what is held back. */
    ghost predicate InPlace(rest: Old, x: Id)
      reads this
    {
      Valid() && InRange(rest) && Once(x, rest) && Apart(defaultData, domains, rest)
    }

    ghost function InUse(): (u: Use)
      reads this
    {
      Use(info, next, defaultData, domains)
    }

    /** CLEAR_LOG_HANDLER. */
    method Destroy(o: Option<Id>, ghost x: Id)
      modifies this`destroyed
      ensures Occ(destroyed, x) == Occ(old(destroyed), x) + OccOpt(o, x)
    {
      if o.Some? {
        OccSnoc(destroyed, o.value, x);
        destroyed := destroyed + [o.value];
      }
    }

    /** VMToolsResetLogging: the two error handlers always go; a hard reset takes all handlers. */
    method ResetLogging(hard: bool, ghost x: Id)
      requires Valid() && Once(x, NOTHING_OLD) && Apart(defaultData, domains, NOTHING_OLD)
      modifies this`defaultData, this`domains, this`errorData, this`errorSyslog, this`destroyed
      ensures Apart(defaultData, domains, NOTHING_OLD)
      ensures Valid() && Once(x, NOTHING_OLD) && errorData.None? && errorSyslog.None?
      ensures if hard then defaultData.None? && domains == []
              else defaultData == old(defaultData) && domains == old(domains)
    {
      Destroy(errorData, x);
      Destroy(errorSyslog, x);
      errorData, errorSyslog := None, None;
      if hard {
        DestroyInUse(x);
      }
    }

    method DestroyInUse(ghost x: Id)
      requires Valid() && Once(x, NOTHING_OLD)
      modifies this`defaultData, this`domains, this`destroyed
      ensures Valid() && Once(x, NOTHING_OLD) && defaultData.None? && domains == []
    {
      DestroyAll(domains, x);
      domains := [];
      Destroy(defaultData, x);
      defaultData := None;
    }

    method DestroyAll(ids: seq<Id>, ghost x: Id)
      modifies this`destroyed
      ensures Occ(destroyed, x) == Occ(old(destroyed), x) + Occ(ids, x)
    {
      for i := 0 to |ids|
        invariant Occ(destroyed, x) == Occ(old(destroyed), x) + Occ(ids[..i], x)
      {
        Destroy(Some(ids[i]), x);
        OccSnoc(ids[..i], ids[i], x);
        assert ids[..i] + [ids[i]] == ids[..i + 1];
      }
      assert ids[..|ids|] == ids;
    }

    method DestroySparse(ids: seq<Option<Id>>, ghost x: Id)
      modifies this`destroyed
      ensures Occ(destroyed, x) == Occ(old(destroyed), x) + OccSparse(ids, x)
    {
      for i := 0 to |ids|
        invariant Occ(destroyed, x) == Occ(old(destroyed), x) + OccSparse(ids[..i], x)
      {
        Destroy(ids[i], x);
        assert ids[..i + 1][..i] == ids[..i];
      }
      assert ids[..|ids|] == ids;
    }

    /** The handlers in use become the old ones. */
    method HoldBack(ghost x: Id) returns (o: Old)
      requires Valid() && Once(x, NOTHING_OLD) && Apart(defaultData, domains, NOTHING_OLD)
      modifies this`defaultData, this`domains
      ensures Apart(defaultData, domains, o)
      ensures Valid() && InRange(o) && Once(x, o) && defaultData.None? && domains == []
      ensures o == HeldBack(old(defaultData), old(domains))
    {
      var held := Held(domains, x);
      HeldApart(defaultData, domains, held);
      o := Old(defaultData, held);
      defaultData, domains := None, [];
    }

    /** Creates a handler; it is not in any place yet. */
    method Create(h: Handler) returns (id: Id)
      requires Valid() && h.kind != Some("file+")
      modifies this`next, this`info
      ensures Valid() && id == old(next) && next == old(next) + 1 && info == old(info)[id := h]
    {
      id := next;
      info := info[id := h];
      next := next + 1;
    }

    /** VMToolsGetLogHandler: both file kinds are created under one name, with their path. */
    method GetLogHandler(kind: string, c: DomainConfig, mask: nat) returns (id: Id)
      requires Valid()
      modifies this`next, this`info
      ensures Valid() && id == old(next) && next == old(next) + 1 && id in info && info == old(info)[id := info[id]]
      ensures MadeFor(info[id], c.(mask := Some(mask)), Some(kind), pathOf)
    {
      if IsFile(kind) {
        id := Create(Handler(c.domain, Some("file"), pathOf(c.domain, c.data), mask));
      } else {
        id := Create(Handler(c.domain, Some(kind), None, mask));
      }
    }

    /** The first old domain of that name gives up its handler if kind and data agree. */
    method TakeNamed(domain: string, kind: string, data: Option<string>, o: Old, ghost x: Id)
      returns (taken: Option<Id>, rest: Old)
      requires Valid() && InRange(o) && Apart(defaultData, domains, o)
      ensures InRange(rest) && Removes(o, taken, rest) && GivesUp(info, o, rest, domain)
      ensures CarriesOver(info, o, domain, false, kind, data, taken)
      ensures taken.Some? ==> Carries(info, taken.value, kind, data) && info[taken.value].domain == domain
      ensures rest.default == o.default && OccSparse(rest.domains, x) + OccOpt(taken, x) == OccSparse(o.domains, x)
    {
      taken, rest := None, o;
      for i := 0 to |o.domains|
        invariant forall j: nat :: j < i ==> !Named(info, o, domain, j)
      {
        if o.domains[i].Some? && info[o.domains[i].value].kind.Some? && info[o.domains[i].value].domain == domain {
          assert FirstNamed(info, o, domain, i);
          if info[o.domains[i].value].kind == Some(kind) && info[o.domains[i].value].data == data {
            OccClear(o.domains, i, x);
            taken, rest := o.domains[i], o.(domains := o.domains[i := None]);
          }
          return;
        }
      }
    }

    /** Looks for a handler to carry over to a domain. */
    method TakeOld(c: DomainConfig, isDefault: bool, kind: string, data: Option<string>, o: Old, ghost x: Id)
      returns (taken: Option<Id>, rest: Old)
      requires Valid() && InRange(o) && Apart(defaultData, domains, o)
      ensures InRange(rest) && Removes(o, taken, rest) && GivesUp(info, o, rest, c.domain)
      ensures CarriesOver(info, o, c.domain, isDefault, kind, data, taken)
      ensures taken.Some? ==>
                Carries(info, taken.value, kind, data) && (!isDefault ==> info[taken.value].domain == c.domain)
      ensures OccOpt(rest.default, x) + OccSparse(rest.domains, x) + OccOpt(taken, x) ==
              OccOpt(o.default, x) + OccSparse(o.domains, x)
    {
      taken, rest := None, o;
      if isDefault && o.default.Some? && info[o.default.value].kind == Some(kind) {
        if info[o.default.value].data == data {
          return o.default, o.(default := None);
        }
      } else {
        taken, rest := TakeNamed(c.domain, kind, data, o, x);
      }
    }

    ghost predicate Holds(o: Old, i: Id) {
      o.default == Some(i) || Some(i) in o.domains
    }

    ghost predicate InRange(o: Old)
      reads this
    {
      && (o.default.Some? ==> o.default.value < next)
      && (forall k :: 0 <= k < |o.domains| && o.domains[k].Some? ==> o.domains[k].value < next)
    }

    /** As `Once`, with one more handler in hand that is not in any place yet. */
    ghost predicate OnceWith(x: Id, o: Old, hand: Id)
      reads this
    {
      Live(x) + OccOpt(o.default, x) + OccSparse(o.domains, x) + Occ(destroyed, x) + (if hand == x then 1 else 0)
        == if x < next then 1 else 0
    }

    /** Handler `id` is in hand and in no place, and `rest` is what is held back then. */
    ghost predicate InHand(id: Id, o: Old, rest: Old, x: Id)
      reads this
    {
      && Valid() && InRange(rest) && id < next && OnceWith(x, rest, id)
      && (Removes(o, Some(id), rest) || (rest == o && Foreign(defaultData, domains, o, id)))
    }

    /** Carries a handler of the asked kind over, with a new mask, or creates one. */
    method CarryOrCreate(c: DomainConfig, isDefault: bool, kind: string, data: Option<string>, mask: nat, o: Old,
                         ghost x: Id)
      returns (id: Id, rest: Old)
      requires InPlace(o, x) && c.mask == Some(mask)
      modifies this`next, this`info
      ensures InHand(id, o, rest, x) && next >= old(next)
      ensures Chooses(old(info), old(next), info, o, rest, c, isDefault, Some(kind), data, id, pathOf)
    {
      var taken;
      taken, rest := Carry(c, isDefault, kind, data, o, x);
      if taken.None? {
        id := CreateForeign(c, kind, mask, o, x);
        CreatedIsChosen(old(info), id, info, o, c, isDefault, kind, data, pathOf);
      } else {
        id := taken.value;
        Remask(id, mask, o);
        CarriedIsChosen(old(info), next, info, o, rest, c, isDefault, kind, data, id, pathOf);
      }
    }

    /** An old handler in hand, if there is one to carry over. */
    method Carry(c: DomainConfig, isDefault: bool, kind: string, data: Option<string>, o: Old, ghost x: Id)
      returns (taken: Option<Id>, rest: Old)
      requires InPlace(o, x)
      ensures InRange(rest) && Removes(o, taken, rest) && GivesUp(info, o, rest, c.domain)
      ensures CarriesOver(info, o, c.domain, isDefault, kind, data, taken)
      ensures taken.Some? ==> taken.value < next && OnceWith(x, rest, taken.value) && Holds(o, taken.value)
      ensures taken.Some? ==>
                Carries(info, taken.value, kind, data) && (!isDefault ==> info[taken.value].domain == c.domain)
    {
      taken, rest := TakeOld(c, isDefault, kind, data, o, x);
    }

    /** A new handler, in no place yet. */
    method CreateForeign(c: DomainConfig, kind: string, mask: nat, ghost o: Old, ghost x: Id) returns (id: Id)
      requires Valid() && InRange(o) && Once(x, o) && c.mask == Some(mask)
      modifies this`next, this`info
      ensures Valid() && InRange(o) && id == old(next) && next == id + 1
      ensures OnceWith(x, o, id) && Foreign(defaultData, domains, o, id)
      ensures id in info && MadeFor(info[id], c, Some(kind), pathOf)
      ensures forall i :: i in old(info) ==> i in info && info[i] == old(info)[i]
    {
      NextIsForeign(o);
      id := GetLogHandler(kind, c, mask);
    }

    method Remask(id: Id, mask: nat, ghost o: Old)
      requires Valid() && id < next && Holds(o, id)
      modifies this`info
      ensures Valid() && id in info && info[id] == old(info)[id].(mask := mask)
      ensures SameRecords(old(info), info) && OnlyHeld(old(info), info, o)
    {
      info := info[id := info[id].(mask := mask)];
    }

    /** A handler still to be created is in no place. */
    lemma NextIsForeign(o: Old)
      requires Valid() && InRange(o)
      ensures Foreign(defaultData, domains, o, next)
    {
    }

    ghost function Kind(c: DomainConfig, isDefault: bool): (r: Option<string>) {
      AskedKind(c, isDefault, useVmx)
    }

    ghost function Data(c: DomainConfig, isDefault: bool): (r: Option<string>) {
      AskedData(c, Kind(c, isDefault), pathOf)
    }

    method ChooseHandler(c: DomainConfig, isDefault: bool, mask: nat, o: Old, ghost x: Id) returns (id: Id, rest: Old)
      requires InPlace(o, x) && c.mask == Some(mask)
      modifies this`next, this`info
      ensures InHand(id, o, rest, x) && next >= old(next) && (o.default.None? ==> rest.default.None?)
      ensures Puts(old(info), old(next), info, o, rest, c, isDefault, id)
    {
      rest := o;
      var kind := AskedKind(c, isDefault, useVmx);
      var data := AskedData(c, kind, pathOf);
      if kind.Some? {
        id, rest := CarryOrCreate(c, isDefault, kind.value, data, mask, o, x);
      } else {
        NextIsForeign(o);
        id := Create(Handler(c.domain, None, data, mask));
      }
    }

    /** VMToolsConfigLogDomain: a handler for the domain is carried over or created and put to use,
        unless the domain's name or level is unusable. */
    method ConfigDomain(c: DomainConfig, isDefault: bool, o: Old, ghost x: Id) returns (rest: Old, ghost id: Id)
      requires InPlace(o, x) && (isDefault ==> defaultData.None?)
      modifies this`next, this`info, this`defaultData, this`domains
      ensures InPlace(rest, x) && next >= old(next) && (o.default.None? ==> rest.default.None?)
      ensures if Usable(c) then
                && Puts(old(info), old(next), info, o, rest, c, isDefault, id)
                && PutAt(old(InUse()), InUse(), isDefault, id)
              else rest == o && InUse() == old(InUse())
      ensures c.domain == "" || |c.domain| > MAX_DOMAIN_LEN || c.mask == None ==> rest == o && InUse() == old(InUse())
      ensures Kind(c, isDefault) == Some("file+") ==> rest == o
    {
      rest, id := o, 0;
      if |c.domain| > MAX_DOMAIN_LEN || |c.domain| == 0 || c.mask.None? {
        return;
      }
      rest, id := PutToUse(c, isDefault, o, x);
      if Kind(c, isDefault) == Some("file+") {
        FilePlusIsNew(old(info), old(next), o, c, isDefault, Data(c, isDefault), id);
      }
    }

    ghost predicate Puts(was: Records, before: Id, now: Records, o: Old, rest: Old, c: DomainConfig, isDefault: bool,
                         id: Id)
    {
      Chooses(was, before, now, o, rest, c, isDefault, Kind(c, isDefault), Data(c, isDefault), id, pathOf)
    }

    /** The handler of a usable domain is chosen and put in its place. */
    method PutToUse(c: DomainConfig, isDefault: bool, o: Old, ghost x: Id) returns (rest: Old, ghost id: Id)
      requires InPlace(o, x) && (isDefault ==> defaultData.None?) && Usable(c)
      modifies this`next, this`info, this`defaultData, this`domains
      ensures InPlace(rest, x) && next >= old(next) && (o.default.None? ==> rest.default.None?)
      ensures Puts(old(info), old(next), info, o, rest, c, isDefault, id)
      ensures PutIn(old(defaultData), old(domains), isDefault, id)
    {
      var handler;
      handler, rest := ChooseHandler(c, isDefault, c.mask.value, o, x);
      id := handler;
      Install(handler, isDefault, o, rest, x);
    }

    /** Where it is put. */
    ghost predicate PutAt(u: Use, u': Use, isDefault: bool, id: Id) {
      if isDefault then u'.default == Some(id) && u'.ids == u.ids else u'.default == u.default && u'.ids == u.ids + [id]
    }

    ghost predicate PutIn(default: Option<Id>, ids: seq<Id>, isDefault: bool, id: Id)
      reads this
    {
      if isDefault then defaultData == Some(id) && domains == ids else defaultData == default && domains == ids + [id]
    }

    method Install(id: Id, isDefault: bool, ghost o: Old, ghost rest: Old, ghost x: Id)
      requires InHand(id, o, rest, x) && Apart(defaultData, domains, o) && (isDefault ==> defaultData.None?)
      modifies this`defaultData, this`domains
      ensures InPlace(rest, x) && PutIn(old(defaultData), old(domains), isDefault, id)
    {
      InstallApart(defaultData, domains, o, rest, id, isDefault);
      Place(id, isDefault, rest, x);
    }

    method Place(id: Id, isDefault: bool, ghost rest: Old, ghost x: Id)
      requires Valid() && InRange(rest) && id < next && OnceWith(x, rest, id) && (isDefault ==> defaultData.None?)
      requires if isDefault then Apart(Some(id), domains, rest) else Apart(defaultData, domains + [id], rest)
      modifies this`defaultData, this`domains
      ensures InPlace(rest, x) && PutIn(old(defaultData), old(domains), isDefault, id)
    {
      if isDefault {
        defaultData := Some(id);
      } else {
        OccSnoc(domains, id, x);
        domains := domains + [id];
      }
    }

    /** What has been reached when the default domain and these others are configured, starting from `w`
        with the old handlers `o`: all are served, the default domain and each other one whose name comes
        up for the first time by the handler that is theirs if they come first. */
    ghost predicate Reached(u: Use, main: DomainConfig, own: seq<DomainConfig>, w: Use, o: Old) {
      && AllServed(u.info, u.default, u.ids, main, own, useVmx)
      && (u.default.Some? ==>
           Chosen(w.info, w.next, o, main, true, Kind(main, true), Data(main, true), u.default.value))
      && AsFirst(own, u.ids, w, o)
    }

    ghost predicate Configured(cfg: Config, n: nat, w: Use, o: Old)
      requires n <= |cfg.others|
      reads this
    {
      Reached(InUse(), cfg.main, OwnDomains(cfg, n), w, o)
    }

    ghost predicate AsFirst(own: seq<DomainConfig>, ids: seq<Id>, w: Use, o: Old) {
      && |ids| == |own|
      && forall k: nat :: k < |own| && IsFirst(own, k) ==> ChosenOther(own[k], w, o, ids[k])
    }

    ghost predicate ChosenOther(c: DomainConfig, w: Use, o: Old, id: Id) {
      Chosen(w.info, w.next, o, c, false, Kind(c, false), Data(c, false), id)
    }

    lemma AsFirstSnoc(own: seq<DomainConfig>, ids: seq<Id>, c: DomainConfig, id: Id, w: Use, o: Old)
      requires AsFirst(own, ids, w, o)
      requires IsFirst(own + [c], |own|) ==> ChosenOther(c, w, o, id)
      ensures AsFirst(own + [c], ids + [id], w, o)
    {
      var more, all := own + [c], ids + [id];
      forall k: nat | k < |more| && IsFirst(more, k) ensures ChosenOther(more[k], w, o, all[k]) {
        if k < |own| {
          assert forall j :: 0 <= j <= k ==> more[j] == own[j];
          assert IsFirst(own, k);
        }
      }
    }

    /** The same, told from before the error handlers were made. */
    lemma ReachedFrom(u: Use, main: DomainConfig, own: seq<DomainConfig>, w: Use, w': Use, o: Old)
      requires Reached(u, main, own, w', o) && w.next <= w'.next && Made(w, o)
      requires forall i :: i in w.info ==> i in w'.info && w'.info[i] == w.info[i]
      requires o.default.Some? ==> o.default.value in w.info && o.default.value < w.next
      ensures Reached(u, main, own, w, o)
    {
      if u.default.Some? {
        ChosenEarlier(w.info, w.next, w'.info, w'.next, o, main, true, Kind(main, true), Data(main, true),
                      u.default.value);
      }
      forall k: nat | k < |own| && IsFirst(own, k) ensures ChosenOther(own[k], w, o, u.ids[k]) {
        assert ChosenOther(own[k], w', o, u.ids[k]);
        ChosenEarlier(w.info, w.next, w'.info, w'.next, o, own[k], false, Kind(own[k], false), Data(own[k], false),
                      u.ids[k]);
      }
    }

    ghost predicate Made(w: Use, o: Old) {
      && (forall i: nat :: i < |o.domains| && o.domains[i].Some? ==> o.domains[i].value in w.info)
      && (forall i: nat :: i < |o.domains| && o.domains[i].Some? ==> o.domains[i].value < w.next)
    }

    /** What is left of the old handlers: those of names that have not come up. */
    ghost predicate Spared(u: Use, names: set<string>, w: Use, o: Old, rest: Old) {
      GivenUp(w.info, o, rest, names) && SameRecords(w.info, u.info) && w.next <= u.next && Made(w, o)
    }

    /** What ConfigDomain does for one more domain, as values. */
    ghost predicate Adds(u: Use, u': Use, c: DomainConfig, mid: Old, rest: Old, id: Id) {
      && u'.next >= u.next && Usable(c)
      && PutAt(u, u', false, id) && Puts(u.info, u.next, u'.info, mid, rest, c, false, id)
    }

    lemma ReachesMore(u: Use, u': Use, c: DomainConfig, mid: Old, rest: Old, id: Id, main: DomainConfig,
                      own: seq<DomainConfig>, names: set<string>, w: Use, o: Old)
      requires Reached(u, main, own, w, o) && Spared(u, names, w, o, mid) && Adds(u, u', c, mid, rest, id)
      requires Apart(u.default, u.ids, mid) && (IsFirst(own + [c], |own|) ==> c.domain !in names)
      ensures Reached(u', main, own + [c], w, o)
    {
      StillServed(u.info, u'.info, mid, u.default, u.ids, main, own, useVmx);
      if IsFirst(own + [c], |own|) {
        ChosenAsFirst(w.info, w.next, u.info, u.next, o, mid, names, c, Kind(c, false), Data(c, false), id);
      }
      AsFirstSnoc(own, u.ids, c, id, w, o);
    }

    lemma SparesRest(u: Use, u': Use, c: DomainConfig, mid: Old, rest: Old, id: Id, names: set<string>, w: Use, o: Old)
      requires Spared(u, names, w, o, mid) && Adds(u, u', c, mid, rest, id)
      ensures Spared(u', names + {c.domain}, w, o, rest)
    {
      GivesUpMore(w.info, u.info, o, mid, rest, names, c.domain);
      forall i | i in w.info ensures i in u'.info && u'.info[i].(mask := 0) == w.info[i].(mask := 0) {
        assert u.info[i].(mask := 0) == w.info[i].(mask := 0);
      }
    }

    /** What one of the other domains adds. */
    ghost predicate Step(cfg: Config, i: nat, a: Stage, b: Stage)
      requires i < |cfg.others|
    {
      var c := cfg.others[i];
      && Apart(a.use.default, a.use.ids, a.rest) && (a.rest.default.None? ==> b.rest.default.None?)
      && if c.domain != cfg.main.domain && Usable(c) then
           b.use.ids != [] && Adds(a.use, b.use, c, a.rest, b.rest, b.use.ids[|b.use.ids| - 1])
         else a == b
    }

    /** One more of the other domains. */
    method ConfigOther(cfg: Config, i: nat, mid: Old, ghost x: Id) returns (rest: Old)
      requires i < |cfg.others| && InPlace(mid, x)
      modifies this`next, this`info, this`defaultData, this`domains
      ensures InPlace(rest, x) && Step(cfg, i, Stage(old(InUse()), mid), Stage(InUse(), rest))
    {
      rest := mid;
      if cfg.others[i].domain != cfg.main.domain {
        ghost var id;
        rest, id := ConfigDomain(cfg.others[i], false, mid, x);
      }
    }

    lemma OtherStep(cfg: Config, i: nat, a: Stage, b: Stage, w: Use, o: Old)
      requires i < |cfg.others| && Underway(a, cfg, i, w, o) && Step(cfg, i, a, b)
      ensures Underway(b, cfg, i + 1, w, o)
    {
      var c, own, names := cfg.others[i], OwnDomains(cfg, i), NamesOf(cfg, i);
      NamesGrow(cfg, i);
      if c.domain != cfg.main.domain && Usable(c) {
        var id := b.use.ids[|b.use.ids| - 1];
        if IsFirst(own + [c], |own|) {
          forall k | 0 <= k < |own| ensures own[k].domain != c.domain { assert (own + [c])[k] == own[k]; }
        }
        ReachesMore(a.use, b.use, c, a.rest, b.rest, id, cfg.main, own, names, w, o);
        SparesRest(a.use, b.use, c, a.rest, b.rest, id, names, w, o);
      }
    }

    /** The stages since the default domain, one for each other domain. */
    ghost predicate Steps(cfg: Config, stages: seq<Stage>) {
      && 0 < |stages| <= |cfg.others| + 1
      && forall i: nat :: i < |stages| - 1 ==> Step(cfg, i, stages[i], stages[i + 1])
    }

    lemma {:induction false} StepsReach(cfg: Config, stages: seq<Stage>, n: nat, w: Use, o: Old)
      requires Steps(cfg, stages) && n < |stages| && Underway(stages[0], cfg, 0, w, o)
      ensures Underway(stages[n], cfg, n, w, o)
    {
      if n > 0 {
        StepsReach(cfg, stages, n - 1, w, o);
        assert Step(cfg, n - 1, stages[n - 1], stages[n]);
        OtherStep(cfg, n - 1, stages[n - 1], stages[n], w, o);
      }
    }

    lemma StepsSnoc(cfg: Config, stages: seq<Stage>, next: Stage)
      requires Steps(cfg, stages) && |stages| <= |cfg.others|
      requires Step(cfg, |stages| - 1, stages[|stages| - 1], next)
      ensures Steps(cfg, stages + [next])
    {
      var more := stages + [next];
      forall i: nat | i < |more| - 1 ensures Step(cfg, i, more[i], more[i + 1]) {
        if i < |stages| - 1 { assert Step(cfg, i, stages[i], stages[i + 1]); }
      }
    }

    method ConfigMain(cfg: Config, o: Old, ghost x: Id) returns (rest: Old)
      requires InPlace(o, x) && defaultData.None? && domains == []
      modifies this`next, this`info, this`defaultData, this`domains
      ensures InPlace(rest, x) && Underway(Stage(InUse(), rest), cfg, 0, old(InUse()), o)
    {
      ghost var id;
      rest, id := ConfigDomain(cfg.main, true, o, x);
    }

    /** The default domain and n others are configured, from `w` with the old handlers `o`. */
    ghost predicate Underway(a: Stage, cfg: Config, n: nat, w: Use, o: Old)
      requires n <= |cfg.others|
    {
      && Reached(a.use, cfg.main, OwnDomains(cfg, n), w, o) && Spared(a.use, NamesOf(cfg, n), w, o, a.rest)
      && (o.default.None? ==> a.rest.default.None?)
    }

    /** The other domains in turn. */
    method ConfigOthers(cfg: Config, o: Old, ghost x: Id) returns (rest: Old, ghost stages: seq<Stage>)
      requires InPlace(o, x)
      modifies this`next, this`info, this`defaultData, this`domains
      ensures InPlace(rest, x) && Steps(cfg, stages) && |stages| == |cfg.others| + 1
      ensures stages[0] == Stage(old(InUse()), o) && stages[|cfg.others|] == Stage(InUse(), rest)
    {
      rest, stages := o, [Stage(InUse(), o)];
      for i := 0 to |cfg.others|
        invariant InPlace(rest, x) && Steps(cfg, stages) && |stages| == i + 1
        invariant stages[0] == Stage(old(InUse()), o) && stages[i] == Stage(InUse(), rest)
      {
        rest := ConfigOther(cfg, i, rest, x);
        StepsSnoc(cfg, stages, Stage(InUse(), rest));
        stages := stages + [Stage(InUse(), rest)];
      }
    }

    /** The domains of the new configuration in turn, the default one first. */
    method ConfigDomains(cfg: Config, o: Old, ghost x: Id) returns (rest: Old)
      requires InPlace(o, x) && defaultData.None? && domains == []
      modifies this`next, this`info, this`defaultData, this`domains
      ensures InPlace(rest, x) && Underway(Stage(InUse(), rest), cfg, |cfg.others|, old(InUse()), o)
    {
      ghost var stages;
      rest := ConfigMain(cfg, o, x);
      rest, stages := ConfigOthers(cfg, rest, x);
      StepsReach(cfg, stages, |cfg.others|, old(InUse()), o);
    }

    /** The default domain and the first n others are served as the configuration asks. */
    ghost predicate InForce(cfg: Config, n: nat)
      requires n <= |cfg.others|
      reads this
    {
      AllServed(info, defaultData, domains, cfg.main, OwnDomains(cfg, n), useVmx)
    }

    /** What was held back and not carried over goes. */
    method DestroyOld(o: Old, ghost x: Id)
      requires Valid() && Once(x, o)
      modifies this`destroyed
      ensures Valid() && Once(x, NOTHING_OLD)
    {
      DestroySparse(o.domains, x);
      Destroy(o.default, x);
    }

    /** The old handlers go or are held back, and the two error handlers are made anew. */
    method Begin(cfg: Config, reset: bool, ghost x: Id) returns (o: Old)
      requires Valid() && Once(x, NOTHING_OLD) && Apart(defaultData, domains, NOTHING_OLD)
      modifies this
      ensures Valid() && Once(x, o) && InRange(o) && errorData.Some? && errorSyslog.Some?
      ensures defaultData.None? && domains == [] && Apart(None, [], o)
      ensures o == if reset then NOTHING_OLD else HeldBack(old(defaultData), old(domains))
      ensures next >= old(next) && forall i :: i in old(info) ==> i in info && info[i] == old(info)[i]
    {
      ResetLogging(reset, x);
      o := NOTHING_OLD;
      if !reset {
        o := HoldBack(x);
      }
      CreateErrorHandlers(cfg, o, x);
    }

    /** VMToolsConfigLoggingInt: any handler x is, before and after, in exactly one place if it exists;
        so every handler that was in use is carried over or destroyed once, none in use is destroyed,
        and none is in use twice. Every usable domain is served as the configuration asks, and unless all
        is reset, by the old handler exactly if there is one to carry over. */
    method ConfigLogging(cfg: Config, reset: bool, ghost x: Id)
      requires Valid() && Once(x, NOTHING_OLD) && Apart(defaultData, domains, NOTHING_OLD)
      modifies this
      ensures Valid() && Once(x, NOTHING_OLD) && Apart(defaultData, domains, NOTHING_OLD)
      ensures errorData.Some? && errorSyslog.Some?
      ensures Configured(cfg, |cfg.others|, old(InUse()),
                         if reset then NOTHING_OLD else HeldBack(old(defaultData), old(domains)))
      ensures var kind, data := Kind(cfg.main, true), Data(cfg.main, true);
              !reset && Usable(cfg.main) && old(defaultData).Some?
              && Carries(old(info), old(defaultData).value, kind.value, data) ==>
                defaultData == old(defaultData) && (defaultData == Some(x) ==> Occ(destroyed, x) == 0)
    {
      var o := Begin(cfg, reset, x);
      ghost var w := InUse();
      Finish(cfg, o, reset, x);
      ReachedFrom(InUse(), cfg.main, OwnDomains(cfg, |cfg.others|), old(InUse()), w, o);
    }

    /** The new configuration is loaded, and what is left of the old one goes. */
    method Finish(cfg: Config, o: Old, reset: bool, ghost x: Id)
      requires InPlace(o, x) && defaultData.None? && domains == [] && (reset ==> o == NOTHING_OLD)
      modifies this`next, this`info, this`defaultData, this`domains, this`destroyed
      ensures InPlace(NOTHING_OLD, x) && Configured(cfg, |cfg.others|, old(InUse()), o)
    {
      var rest := ConfigDomains(cfg, o, x);
      if !reset {
        DestroyOld(rest, x);
      }
    }

    method CreateErrorHandlers(cfg: Config, ghost o: Old, ghost x: Id)
      requires Valid() && Once(x, o) && InRange(o) && errorData.None? && errorSyslog.None?
      modifies this`next, this`info, this`errorData, this`errorSyslog
      ensures Valid() && Once(x, o) && InRange(o) && errorData.Some? && errorSyslog.Some?
      ensures next >= old(next) && forall i :: i in old(info) ==> i in info && info[i] == old(info)[i]
      ensures errorData.value in info && errorSyslog.value in info
      ensures info[errorData.value] == Handler(cfg.main.domain, Some("std"), None, LEVEL_MASK)
      ensures info[errorSyslog.value] == Handler(cfg.main.domain, Some("syslog"), None, FLAG_FATAL)
    {
      var e := CreateForeign(cfg.main.(mask := Some(LEVEL_MASK)), SAFE_HANDLER, LEVEL_MASK, o, x);
      errorData := Some(e);
      e := CreateForeign(cfg.main.(mask := Some(FLAG_FATAL)), "syslog", FLAG_FATAL, o, x);
      errorSyslog := Some(e);
    }

    /** Any run of reconfigurations. */
    method Run(configs: seq<(Config, bool)>, ghost x: Id)
      requires Valid() && Once(x, NOTHING_OLD) && Apart(defaultData, domains, NOTHING_OLD)
      modifies this
      ensures Valid()
      ensures configs != [] ==> var cfg := configs[|configs| - 1].0; InForce(cfg, |cfg.others|)
      ensures x < next ==> (Live(x) == 1 && x !in destroyed) || (Live(x) == 0 && Occ(destroyed, x) == 1)
      ensures x >= next ==> Live(x) == 0 && x !in destroyed
    {
      for i := 0 to |configs|
        invariant Valid() && Once(x, NOTHING_OLD) && Apart(defaultData, domains, NOTHING_OLD)
        invariant i > 0 ==> InForce(configs[i - 1].0, |configs[i - 1].0.others|)
      {
        ConfigLogging(configs[i].0, configs[i].1, x);
      }
      if x in destroyed {
        var k :| 0 <= k < |destroyed| && destroyed[k] == x;
        OccPositive(destroyed, k, x);
      }
    }
  }
}
