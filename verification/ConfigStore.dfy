/** The tools configuration dictionaries: comparing and merging them. */
module ConfigStore {
  import opened Basics

  type Group = map<string, string>
  type Config = map<string, Group>

  /** A GKeyFile object. */
  class KeyFile {
    var groups: Config

    constructor ()
      ensures groups == map[]
    {
      groups := map[];
    }

    method SetValue(group: string, key: string, value: string)
      modifies this
      ensures groups == WithValue(old(groups), group, key, value)
    {
      var g := if group in groups then groups[group] else map[];
      groups := groups[group := g[key := value]];
    }
  }

  predicate HasKey(cfg: Config, group: string, key: string) {
    group in cfg && key in cfg[group]
  }

  function WithValue(cfg: Config, group: string, key: string, value: string): (r: Config) {
    cfg[group := (if group in cfg then cfg[group] else map[])[key := value]]
  }

  // ---- names of groups and keys, in whatever order the dictionary lists them ----

  ghost predicate Lists(names: seq<string>, s: set<string>) {
    && (forall i :: 0 <= i < |names| ==> names[i] in s)
    && (forall x :: x in s ==> x in names)
    && (forall i, j :: 0 <= i < j < |names| ==> names[i] != names[j])
    && |names| == |s|
  }

  method Names(s: set<string>) returns (names: seq<string>)
    ensures Lists(names, s)
  {
    names := [];
    var rest := s;
    while rest != {}
      invariant rest <= s && |names| + |rest| == |s|
      invariant forall i :: 0 <= i < |names| ==> names[i] in s
      invariant forall i :: 0 <= i < |names| ==> names[i] !in rest
      invariant forall i, j :: 0 <= i < j < |names| ==> names[i] != names[j]
      invariant forall x :: x in s ==> x in rest || x in names
      decreases |rest|
    {
      var x :| x in rest;
      names := names + [x];
      rest := rest - {x};
    }
  }

  // ---- comparing ----

  lemma SubsetOfSameSize(a: set<string>, b: set<string>)
    requires a <= b && |a| == |b|
    ensures a == b
  {
    assert b == a + (b - a);
    assert |a + (b - a)| == |a| + |b - a|;
  }

  /** Inner loop: the keys of one group that both dictionaries have. */
  method CompareGroup(g1: Group, g2: Group) returns (same: bool)
    ensures same <==> g1 == g2
  {
    var keys1 := Names(g1.Keys);
    var keys2 := Names(g2.Keys);
    if |keys1| != |keys2| {
      return false;
    }
    for j := 0 to |keys1|
      invariant forall i :: 0 <= i < j ==> keys1[i] in g2 && g1[keys1[i]] == g2[keys1[i]]
    {
      var key := keys1[j];
      if key !in g2 {
        return false;
      }
      if g1[key] != g2[key] {
        return false;
      }
    }
    assert g1.Keys <= g2.Keys by {
      forall x | x in g1.Keys ensures x in g2.Keys { assert x in keys1; }
    }
    SubsetOfSameSize(g1.Keys, g2.Keys);
    forall x | x in g1 ensures g1[x] == g2[x] { assert x in keys1; }
    return true;
  }

  method CompareGroups(config1: Config, config2: Config) returns (same: bool)
    ensures same <==> config1 == config2
  {
    var names1 := Names(config1.Keys);
    var names2 := Names(config2.Keys);
    if |names1| != |names2| {
      return false;
    }
    for i := 0 to |names1|
      invariant forall k :: 0 <= k < i ==> names1[k] in config2 && config1[names1[k]] == config2[names1[k]]
    {
      var group := names1[i];
      if group !in config2 {
        return false;
      }
      var sameGroup := CompareGroup(config1[group], config2[group]);
      if !sameGroup {
        return false;
      }
    }
    assert config1.Keys <= config2.Keys by {
      forall x | x in config1.Keys ensures x in config2.Keys { assert x in names1; }
    }
    SubsetOfSameSize(config1.Keys, config2.Keys);
    forall x | x in config1 ensures config1[x] == config2[x] { assert x in names1; }
    return true;
  }

  /** Checks in one direction only, and equal counts, decide equality of the dictionaries. */
  method CompareConfig(config1: KeyFile?, config2: KeyFile?) returns (same: bool)
    ensures same <==>
            if config1 == null || config2 == null then config1 == config2 else config1.groups == config2.groups
  {
    if config1 == null && config2 == null {
      return true;
    }
    if config1 == null || config2 == null {
      return false;
    }
    same := CompareGroups(config1.groups, config2.groups);
  }

  // ---- merging ----

  function Lookup(cfg: Config, group: string, key: string): (r: Option<string>) {
    if HasKey(cfg, group, key) then Some(cfg[group][key]) else None
  }

  function MergeGroup(src: Group, dst: Group): (r: Group) {
    src + dst
  }

  function GroupOf(cfg: Config, group: string): (r: Group) {
    if group in cfg then cfg[group] else map[]
  }

  /** Everything of dst, and what src has for keys that dst lacks. */
  function Merge(src: Config, dst: Config): (r: Config) {
    map g | g in src.Keys + dst.Keys && (g in dst || GroupOf(src, g) != map[]) ::
      MergeGroup(GroupOf(src, g), GroupOf(dst, g))
  }

  /** The destination wins on every key, the source supplies the others, and a group comes into being
      only for the sake of a key. */
  lemma MergeLookup(src: Config, dst: Config, group: string, key: string)
    ensures Lookup(Merge(src, dst), group, key) ==
            if HasKey(dst, group, key) then Lookup(dst, group, key) else Lookup(src, group, key)
    ensures group in Merge(src, dst) <==> group in dst || (exists k :: HasKey(src, group, k))
  {
    if group in src && src[group] != map[] {
      var k :| k in src[group];
      assert HasKey(src, group, k);
    }
  }

  ghost predicate Covers(dst: Config, src: Config) {
    forall g, k :: HasKey(src, g, k) ==> HasKey(dst, g, k)
  }

  /** Nothing changes exactly when the destination already has every key of the source. */
  lemma MergeUnchangedIff(src: Config, dst: Config)
    ensures Merge(src, dst) == dst <==> Covers(dst, src)
  {
    if Merge(src, dst) == dst {
      forall g, k | HasKey(src, g, k) ensures HasKey(dst, g, k) { MergeLookup(src, dst, g, k); }
    }
    if Covers(dst, src) {
      var m := Merge(src, dst);
      forall g | g in m ensures g in dst && m[g] == dst[g] {
        assert g !in dst ==> exists k :: HasKey(src, g, k) by { MergeLookup(src, dst, g, ""); }
        forall k | k in GroupOf(src, g) ensures k in dst[g] { assert HasKey(src, g, k); }
      }
    }
  }

  /** A second merge of the same source adds nothing. */
  lemma MergeIdempotent(src: Config, dst: Config)
    ensures Merge(src, Merge(src, dst)) == Merge(src, dst)
  {
    forall g, k | HasKey(src, g, k) ensures HasKey(Merge(src, dst), g, k) { MergeLookup(src, dst, g, k); }
    MergeUnchangedIff(src, Merge(src, dst));
  }

  /** Merging depends on the keys of the source and their values only. */
  lemma MergeSame(src: Config, part: Config, dst: Config)
    requires forall g, k :: Lookup(src, g, k) == Lookup(part, g, k)
    ensures Merge(src, dst) == Merge(part, dst)
  {
    forall g
      ensures g in Merge(src, dst) <==> g in Merge(part, dst)
      ensures GroupOf(Merge(src, dst), g) == GroupOf(Merge(part, dst), g)
    {
      forall k ensures k in GroupOf(src, g) <==> k in GroupOf(part, g)
        ensures k in GroupOf(src, g) ==> GroupOf(src, g)[k] == GroupOf(part, g)[k]
      {
        assert Lookup(src, g, k) == Lookup(part, g, k);
      }
      assert GroupOf(src, g) == GroupOf(part, g);
      MergeAt(src, dst, g);
      MergeAt(part, dst, g);
    }
    SameGroups(Merge(src, dst), Merge(part, dst));
  }

  lemma MergeGroupStep(p: Group, d: Group, key: string, value: string)
    requires key !in p
    ensures MergeGroup(p[key := value], d) == if key in d then MergeGroup(p, d) else MergeGroup(p, d)[key := value]
    ensures key in d ==> key in MergeGroup(p, d)
  {
  }

  lemma MergeAt(src: Config, dst: Config, g: string)
    ensures g in Merge(src, dst) <==> g in dst || GroupOf(src, g) != map[]
    ensures GroupOf(Merge(src, dst), g) == MergeGroup(GroupOf(src, g), GroupOf(dst, g))
  {
  }

  lemma WithValueAt(cfg: Config, group: string, key: string, value: string, g: string)
    ensures g in WithValue(cfg, group, key, value) <==> g == group || g in cfg
    ensures GroupOf(WithValue(cfg, group, key, value), g) == if g == group then GroupOf(cfg, g)[key := value]
                                                             else GroupOf(cfg, g)
  {
  }

  /** One more source key, seen from one group. */
  lemma MergeStepAt(part: Config, dst: Config, group: string, key: string, value: string, g: string)
    requires !HasKey(part, group, key)
    ensures var more, was := Merge(WithValue(part, group, key, value), dst), Merge(part, dst);
            var now := if HasKey(dst, group, key) then was else WithValue(was, group, key, value);
            (g in more <==> g in now) && GroupOf(more, g) == GroupOf(now, g)
  {
    MergeAt(WithValue(part, group, key, value), dst, g);
    MergeAt(part, dst, g);
    WithValueAt(part, group, key, value, g);
    WithValueAt(Merge(part, dst), group, key, value, g);
    MergeGroupStep(GroupOf(part, group), GroupOf(dst, group), key, value);
  }

  lemma SameGroups(a: Config, b: Config)
    requires forall g :: (g in a <==> g in b) && GroupOf(a, g) == GroupOf(b, g)
    ensures a == b
  {
    forall g | g in a ensures g in b && a[g] == b[g] { assert GroupOf(a, g) == GroupOf(b, g); }
    forall g | g in b ensures g in a { assert GroupOf(a, g) == GroupOf(b, g); }
  }

  /** One more source key: it is set if the destination lacks it. */
  lemma MergeStep(part: Config, dst: Config, group: string, key: string, value: string)
    requires !HasKey(part, group, key)
    ensures Merge(WithValue(part, group, key, value), dst) ==
            if HasKey(dst, group, key) then Merge(part, dst) else WithValue(Merge(part, dst), group, key, value)
  {
    var more, was := Merge(WithValue(part, group, key, value), dst), Merge(part, dst);
    var now := if HasKey(dst, group, key) then was else WithValue(was, group, key, value);
    forall g ensures (g in more <==> g in now) && GroupOf(more, g) == GroupOf(now, g) {
      MergeStepAt(part, dst, group, key, value, g);
    }
    SameGroups(more, now);
  }

  /** The source keys visited: all of the groups `names`, and of `group` the keys `keys`. */
  ghost predicate Visited(part: Config, src: Config, names: seq<string>, group: string, keys: seq<string>) {
    forall g, k :: Lookup(part, g, k) == if g in names || (g == group && k in keys) then Lookup(src, g, k) else None
  }

  lemma VisitedStep(part: Config, src: Config, names: seq<string>, group: string, keys: seq<string>, key: string)
    requires Visited(part, src, names, group, keys) && HasKey(src, group, key) && group !in names && key !in keys
    ensures !HasKey(part, group, key)
    ensures Visited(WithValue(part, group, key, src[group][key]), src, names, group, keys + [key])
  {
    assert Lookup(part, group, key) == None;
    var next := WithValue(part, group, key, src[group][key]);
    forall g, k
      ensures Lookup(next, g, k) == if g in names || (g == group && k in keys + [key]) then Lookup(src, g, k) else None
    {
      assert Lookup(part, g, k) == if g in names || (g == group && k in keys) then Lookup(src, g, k) else None;
    }
  }

  lemma VisitedGroup(part: Config, src: Config, names: seq<string>, group: string, keys: seq<string>)
    requires Visited(part, src, names, group, keys) && group in src && forall k :: k in src[group] ==> k in keys
    ensures forall other :: Visited(part, src, names + [group], other, [])
  {
    forall g, k ensures Lookup(part, g, k) == if g in names + [group] then Lookup(src, g, k) else None {
      assert Lookup(part, g, k) == if g in names || (g == group && k in keys) then Lookup(src, g, k) else None;
    }
  }

  method AddKey(dst: KeyFile, group: string, key: string, value: string, ghost before: Config, ghost part: Config)
    returns (added: bool)
    requires !HasKey(part, group, key) && dst.groups == Merge(part, before)
    modifies dst
    ensures dst.groups == Merge(WithValue(part, group, key, value), before)
    ensures added <==> !HasKey(before, group, key)
  {
    MergeLookup(part, before, group, key);
    MergeStep(part, before, group, key, value);
    added := !HasKey(dst.groups, group, key);
    if added {
      dst.SetValue(group, key, value);
    }
  }

  /** One of `keys` is missing from the group. */
  ghost predicate Lacks(cfg: Config, group: string, keys: seq<string>) {
    exists k :: k in keys && !HasKey(cfg, group, k)
  }

  lemma LacksSnoc(cfg: Config, group: string, keys: seq<string>, key: string)
    ensures Lacks(cfg, group, keys + [key]) <==> Lacks(cfg, group, keys) || !HasKey(cfg, group, key)
  {
    assert key in keys + [key] && forall k :: k in keys ==> k in keys + [key];
  }

  lemma LacksAll(cfg: Config, src: Config, group: string, keys: seq<string>)
    requires group in src && Lists(keys, src[group].Keys)
    ensures Lacks(cfg, group, keys) <==> exists k :: HasKey(src, group, k) && !HasKey(cfg, group, k)
  {
    if Lacks(cfg, group, keys) {
      var k :| k in keys && !HasKey(cfg, group, k);
      assert HasKey(src, group, k);
    }
    if k :| HasKey(src, group, k) && !HasKey(cfg, group, k) {
      assert k in keys;
    }
  }

  /** Inner loop: the keys of one source group. */
  method AddGroup(src: Config, dst: KeyFile, group: string, ghost names: seq<string>,
                  ghost before: Config, ghost visited: Config)
    returns (added: bool, ghost part: Config)
    requires group in src && group !in names
    requires Visited(visited, src, names, group, []) && dst.groups == Merge(visited, before)
    modifies dst
    ensures dst.groups == Merge(part, before) && forall other :: Visited(part, src, names + [group], other, [])
    ensures added <==> exists k :: HasKey(src, group, k) && !HasKey(before, group, k)
  {
    added, part := false, visited;
    var keys := Names(src[group].Keys);
    for j := 0 to |keys|
      invariant Visited(part, src, names, group, keys[..j]) && dst.groups == Merge(part, before)
      invariant added <==> Lacks(before, group, keys[..j])
    {
      var key := keys[j];
      VisitedStep(part, src, names, group, keys[..j], key);
      LacksSnoc(before, group, keys[..j], key);
      assert keys[..j] + [key] == keys[..j + 1];
      var more := AddKey(dst, group, key, src[group][key], before, part);
      added := added || more;
      part := WithValue(part, group, key, src[group][key]);
    }
    assert keys[..|keys|] == keys;
    LacksAll(before, src, group, keys);
    VisitedGroup(part, src, names, group, keys);
  }

  /** One of the groups `names` has a key that the dictionary lacks. */
  ghost predicate LacksOf(cfg: Config, src: Config, names: seq<string>) {
    exists g, k :: g in names && HasKey(src, g, k) && !HasKey(cfg, g, k)
  }

  lemma LacksOfSnoc(cfg: Config, src: Config, names: seq<string>, group: string)
    ensures LacksOf(cfg, src, names + [group]) <==>
            LacksOf(cfg, src, names) || exists k :: HasKey(src, group, k) && !HasKey(cfg, group, k)
  {
    assert forall g :: g in names + [group] <==> g in names || g == group;
  }

  lemma LacksOfAll(cfg: Config, src: Config, names: seq<string>)
    requires Lists(names, src.Keys)
    ensures LacksOf(cfg, src, names) <==> !Covers(cfg, src)
  {
  }

  /** The destination becomes the merge; the result says whether it changed, which is the case exactly
      when the source has a key that the destination lacked. The two may be the same object. */
  method AddConfig(src: KeyFile?, dst: KeyFile?) returns (added: bool)
    modifies dst
    ensures src == null || dst == null ==> !added && (dst != null ==> dst.groups == old(dst.groups))
    ensures src != null && dst != null ==>
              && dst.groups == Merge(old(src.groups), old(dst.groups))
              && (added <==> dst.groups != old(dst.groups)) && (added <==> !Covers(old(dst.groups), old(src.groups)))
  {
    if src == null || dst == null {
      return false;
    }
    added := AddGroups(src.groups, dst);
  }

  method AddGroups(src: Config, dst: KeyFile) returns (added: bool)
    modifies dst
    ensures dst.groups == Merge(src, old(dst.groups))
    ensures added <==> dst.groups != old(dst.groups)
    ensures added <==> !Covers(old(dst.groups), src)
  {
    added := false;
    ghost var before := dst.groups;
    ghost var part: Config := map[];
    MergeUnchangedIff(part, before);
    var names := Names(src.Keys);
    for i := 0 to |names|
      invariant dst.groups == Merge(part, before) && forall other :: Visited(part, src, names[..i], other, [])
      invariant added <==> LacksOf(before, src, names[..i])
    {
      assert names[..i] + [names[i]] == names[..i + 1];
      LacksOfSnoc(before, src, names[..i], names[i]);
      var more;
      more, part := AddGroup(src, dst, names[i], names[..i], before, part);
      added := added || more;
    }
    assert names[..|names|] == names;
    LacksOfAll(before, src, names);
    assert Visited(part, src, names, "", []);
    forall g, k ensures Lookup(src, g, k) == Lookup(part, g, k) {
      assert Lookup(part, g, k) == if g in names then Lookup(src, g, k) else None;
    }
    MergeSame(src, part, before);
    MergeUnchangedIff(src, before);
  }
}
