/** Reloading the configuration file by modification time, over whole runs of any number of callers. */
module ConfigReload {
  import opened Basics
  import opened ConfigStore

  /** What a load finds at the path. `parse` is None when the text cannot be parsed. */
  datatype Disk = BadName | StatFails | Absent | File(mtime: int, size: nat, parse: Option<Config>)

  function Content(d: Disk): (r: Option<Config>)
    requires d.File?
  {
    if d.size == 0 then Some(map[]) else d.parse
  }

  predicate Readable(d: Disk) {
    d.File? && Content(d).Some?
  }

  /** A caller's two in-out variables. */
  datatype Slot = Slot(config: Option<Config>, mtime: int)

  class Caller {
    var config: Option<Config>
    var mtime: int

    constructor ()
      ensures config == None && mtime == 0
    {
      config, mtime := None, 0;
    }

    function View(): (r: Slot)
      reads this
    {
      Slot(config, mtime)
    }
  }

  /** Whether a load takes a new dictionary, and which. `timed` callers pass a modification time. */
  function Taken(had: bool, mtime: int, timed: bool, disk: Disk): (r: Option<Config>) {
    match disk
    case BadName => None
    case StatFails => None
    case Absent => if had then Some(map[]) else None
    case File(m, _, _) => if timed && m <= mtime then None else Content(disk)
  }

  function SlotStep(had: bool, s: Slot, timed: bool, disk: Disk): (r: Slot) {
    var t := Taken(had, s.mtime, timed, disk);
    if t == None then s else Slot(t, if !timed then s.mtime else if disk.File? then disk.mtime else 0)
  }

  function HadStep(had: bool, disk: Disk): (r: bool) {
    disk.File? || (had && disk != Absent)
  }

  class Loader {
    var hadConfFile: bool

    constructor ()
      ensures hadConfFile
    {
      hadConfFile := true;
    }

    method LoadConfig(caller: Caller?, timed: bool, disk: Disk) returns (loaded: bool)
      modifies this, caller
      ensures caller == null ==> !loaded && hadConfFile == old(hadConfFile)
      ensures caller != null ==> hadConfFile == HadStep(old(hadConfFile), disk)
      ensures caller != null ==> caller.View() == SlotStep(old(hadConfFile), old(caller.View()), timed, disk)
      ensures caller != null ==> (loaded <==> Taken(old(hadConfFile), old(caller.mtime), timed, disk).Some?)
      ensures caller != null && disk.File? && (timed ==> disk.mtime > old(caller.mtime)) ==>
                if disk.size == 0 then loaded && caller.config == Some(map[])
                else
                  && (loaded <==> disk.parse.Some?)
                  && caller.config == if loaded then disk.parse else old(caller.config)
    {
      if caller == null {
        return false;
      }
      if disk == BadName {
        return false;
      }
      var cfg: Option<Config>, stMtime := None, 0;
      if !disk.File? {
        if disk == StatFails {
          return false;
        }
        if hadConfFile {
          cfg := Some(map[]);
        }
        hadConfFile := false;
      } else {
        hadConfFile := true;
        stMtime := disk.mtime;
        if !(timed && stMtime <= caller.mtime) {
          if disk.size == 0 {
            cfg := Some(map[]);
          } else {
            cfg := disk.parse;
          }
        }
      }
      loaded := cfg.Some?;
      if loaded {
        caller.config := cfg;
        if timed {
          caller.mtime := stMtime;
        }
      }
    }
  }

  // ---- runs ----

  /** One load: who calls, whether with a modification time, and what is on the disk. */
  datatype Event = Event(caller: nat, timed: bool, disk: Disk)

  /** The shared flag after the first n loads. */
  function Had(h: seq<Event>, n: nat): (r: bool)
    requires n <= |h|
  {
    n == 0 || HadStep(Had(h, n - 1), h[n - 1].disk)
  }

  /** Caller c's variables after the first n loads. */
  function SlotAfter(h: seq<Event>, n: nat, c: nat): (r: Slot)
    requires n <= |h|
  {
    if n == 0 then Slot(None, 0)
    else
      var s, e := SlotAfter(h, n - 1, c), h[n - 1];
      if e.caller == c then SlotStep(Had(h, n - 1), s, e.timed, e.disk) else s
  }

  /** The classes compute exactly these functions. */
  method Run(h: seq<Event>, callers: seq<Caller>, loader: Loader)
    requires forall j :: 0 <= j < |h| ==> h[j].caller < |callers|
    requires forall i, j :: 0 <= i < j < |callers| ==> callers[i] != callers[j]
    requires loader.hadConfFile && forall i :: 0 <= i < |callers| ==> callers[i].View() == Slot(None, 0)
    modifies loader, callers
    ensures loader.hadConfFile == Had(h, |h|)
    ensures forall c :: 0 <= c < |callers| ==> callers[c].View() == SlotAfter(h, |h|, c)
  {
    for n := 0 to |h|
      invariant loader.hadConfFile == Had(h, n)
      invariant forall c :: 0 <= c < |callers| ==> callers[c].View() == SlotAfter(h, n, c)
    {
      var _ := loader.LoadConfig(callers[h[n].caller], h[n].timed, h[n].disk);
    }
  }

  /** The flag is down exactly when some load found the file absent and none found it since. */
  lemma {:induction false} HadIff(h: seq<Event>, n: nat)
    requires n <= |h|
    ensures Had(h, n) <==> forall j :: 0 <= j < n && h[j].disk.Absent? ==> exists i :: j < i < n && h[i].disk.File?
  {
    if n > 0 {
      HadIff(h, n - 1);
      var d := h[n - 1].disk;
      if Had(h, n - 1) && !d.Absent? {
        forall j | 0 <= j < n && h[j].disk.Absent? ensures exists i :: j < i < n && h[i].disk.File? {
          var i :| j < i < n - 1 && h[i].disk.File?;
        }
      }
      if d.File? {
        forall j | 0 <= j < n && h[j].disk.Absent? ensures exists i :: j < i < n && h[i].disk.File? {
          assert h[n - 1].disk.File?;
        }
      }
      if !Had(h, n) && !d.Absent? {
        var j :| 0 <= j < n - 1 && h[j].disk.Absent? && !exists i :: j < i < n - 1 && h[i].disk.File?;
        assert !exists i :: j < i < n && h[i].disk.File?;
      }
    }
  }

  /** Load j empties its caller's dictionary because the file is gone. */
  ghost predicate Reset(h: seq<Event>, c: nat, j: nat)
    requires j < |h|
  {
    h[j].caller == c && h[j].disk.Absent? && Had(h, j)
  }

  /** a is just after c's last reset among the first n loads, or 0. */
  ghost predicate Since(h: seq<Event>, n: nat, c: nat, a: nat)
    requires n <= |h|
  {
    && a <= n && (a > 0 ==> Reset(h, c, a - 1))
    && forall j :: a <= j < n ==> !Reset(h, c, j)
  }

  predicate Sees(e: Event, c: nat) {
    e.caller == c && Readable(e.disk)
  }

  /** Load k found the newest readable file c has found from a on, and was the first to find it. */
  ghost predicate Newest(h: seq<Event>, n: nat, c: nat, a: nat, k: nat)
    requires n <= |h|
  {
    && a <= k < n && Sees(h[k], c) && h[k].disk.mtime > 0
    && (forall j :: a <= j < k && Sees(h[j], c) ==> h[j].disk.mtime < h[k].disk.mtime)
    && (forall j :: k < j < n && Sees(h[j], c) ==> h[j].disk.mtime <= h[k].disk.mtime)
  }

  ghost predicate NothingNew(h: seq<Event>, n: nat, c: nat, a: nat)
    requires n <= |h|
  {
    forall j :: a <= j < n && Sees(h[j], c) ==> h[j].disk.mtime <= 0
  }

  ghost predicate Timed(h: seq<Event>, c: nat) {
    forall j :: 0 <= j < |h| && h[j].caller == c ==> h[j].timed
  }

  /** The variables come from the newest file since the last reset; `k` is that load, or -1. */
  lemma {:induction false} SlotOrigin(h: seq<Event>, n: nat, c: nat) returns (a: nat, k: int)
    requires n <= |h| && Timed(h, c)
    ensures Since(h, n, c, a)
    ensures k >= 0 ==> Newest(h, n, c, a, k) && SlotAfter(h, n, c) == Slot(Content(h[k].disk), h[k].disk.mtime)
    ensures k < 0 ==> NothingNew(h, n, c, a) && SlotAfter(h, n, c) == Slot(if a == 0 then None else Some(map[]), 0)
  {
    if n == 0 {
      a, k := 0, -1;
    } else {
      a, k := SlotOrigin(h, n - 1, c);
      var e, was := h[n - 1], SlotAfter(h, n - 1, c);
      if e.caller == c {
        if Reset(h, c, n - 1) {
          a, k := n, -1;
        } else if Readable(e.disk) && e.disk.mtime > was.mtime {
          k := n - 1;
        }
      }
    }
  }

  /** A caller that passes no modification time has what its last readable file since its last reset
      held; `k` is that load, or -1. */
  lemma {:induction false} UntimedOrigin(h: seq<Event>, n: nat, c: nat) returns (a: nat, k: int)
    requires n <= |h| && forall j :: 0 <= j < |h| && h[j].caller == c ==> !h[j].timed
    ensures Since(h, n, c, a) && -1 <= k < n && (k >= 0 ==> a <= k && Sees(h[k], c))
    ensures forall j :: a <= j < n && Sees(h[j], c) ==> j <= k
    ensures SlotAfter(h, n, c).config == if k >= 0 then Content(h[k].disk) else if a == 0 then None else Some(map[])
  {
    if n == 0 {
      a, k := 0, -1;
    } else {
      a, k := UntimedOrigin(h, n - 1, c);
      var e := h[n - 1];
      if Reset(h, c, n - 1) {
        a, k := n, -1;
      } else if Sees(e, c) {
        k := n - 1;
      }
    }
  }

  /** In terms of the run: cfg is what c's newest file since its last reset held, or nothing was newer
      than the reset and cfg is empty. */
  ghost predicate Holds(h: seq<Event>, n: nat, c: nat, cfg: Config)
    requires n <= |h|
  {
    exists a ::
      && Since(h, n, c, a)
      && (|| (a > 0 && NothingNew(h, n, c, a) && cfg == map[])
          || exists k: nat :: Newest(h, n, c, a, k) && Content(h[k].disk) == Some(cfg))
  }

  lemma SinceUnique(h: seq<Event>, n: nat, c: nat, a: nat, b: nat)
    requires n <= |h| && Since(h, n, c, a) && Since(h, n, c, b)
    ensures a == b
  {
    assert a > 0 ==> Reset(h, c, a - 1);
    assert b > 0 ==> Reset(h, c, b - 1);
  }

  lemma NewestUnique(h: seq<Event>, n: nat, c: nat, a: nat, k: nat)
    requires n <= |h| && Newest(h, n, c, a, k)
    ensures !NothingNew(h, n, c, a) && forall l :: Newest(h, n, c, a, l) ==> l == k
  {
    assert Sees(h[k], c);
  }

  /** What a caller's configuration is after any run of loads by any callers. */
  lemma ConfigIs(h: seq<Event>, n: nat, c: nat, cfg: Config)
    requires n <= |h| && Timed(h, c)
    ensures SlotAfter(h, n, c).config == Some(cfg) <==> Holds(h, n, c, cfg)
  {
    var a, k := SlotOrigin(h, n, c);
    if k >= 0 { NewestUnique(h, n, c, a, k); }
    if Holds(h, n, c, cfg) {
      var b :| Since(h, n, c, b)
               && (|| (b > 0 && NothingNew(h, n, c, b) && cfg == map[])
                   || exists l: nat :: Newest(h, n, c, b, l) && Content(h[l].disk) == Some(cfg));
      SinceUnique(h, n, c, a, b);
    }
  }

  // ---- one caller ----

  ghost predicate OneCaller(h: seq<Event>, c: nat) {
    forall j :: 0 <= j < |h| ==> h[j].caller == c && h[j].timed
  }

  lemma {:induction false} FlagDownIsEmpty(h: seq<Event>, n: nat, c: nat)
    requires n <= |h| && OneCaller(h, c)
    ensures !Had(h, n) ==> SlotAfter(h, n, c) == Slot(Some(map[]), 0)
  {
    if n > 0 { FlagDownIsEmpty(h, n - 1, c); }
  }

  /** Different files found by two loads have growing modification times. */
  ghost predicate Growing(h: seq<Event>) {
    && (forall j :: 0 <= j < |h| && h[j].disk.File? ==> h[j].disk.mtime > 0)
    && (forall i, j :: 0 <= i < j < |h| && h[i].disk.File? && h[j].disk.File? && h[i].disk != h[j].disk ==>
          h[i].disk.mtime < h[j].disk.mtime)
  }

  /** For a single caller whose file is readable or absent: after every load the configuration is what
      the file holds, or empty when there is none. */
  lemma ReloadCoherent(h: seq<Event>, n: nat, c: nat)
    requires 0 < n <= |h| && OneCaller(h, c) && Growing(h)
    requires h[n - 1].disk.Absent? || Readable(h[n - 1].disk)
    ensures SlotAfter(h, n, c).config ==
            var d := h[n - 1].disk; if d.Absent? || d.size == 0 then Some(map[]) else d.parse
  {
    if h[n - 1].disk.Absent? {
      FlagDownIsEmpty(h, n - 1, c);
    } else {
      var a, k := SlotOrigin(h, n, c);
      assert Sees(h[n - 1], c);
    }
  }

  /** The disk over time: every edit leaves no file, or a file newer than every one before. */
  ghost predicate Rising(world: seq<Disk>) {
    && (forall t :: 0 <= t < |world| && world[t].File? ==> world[t].mtime > 0)
    && (forall s, t :: 0 <= s < t < |world| && world[t] != world[t - 1] && world[s].File? && world[t].File? ==>
          world[s].mtime < world[t].mtime)
  }

  lemma {:induction false} RisingPair(world: seq<Disk>, s: nat, t: nat)
    requires Rising(world) && s < t < |world| && world[s].File? && world[t].File? && world[s] != world[t]
    ensures world[s].mtime < world[t].mtime
  {
    if world[t] == world[t - 1] { RisingPair(world, s, t - 1); }
  }

  /** Loads at any moments of such a history find growing files. */
  lemma LoadsOfRisingWorld(world: seq<Disk>, when: seq<nat>, h: seq<Event>)
    requires Rising(world) && |when| == |h|
    requires forall i :: 0 <= i < |h| ==> when[i] < |world| && h[i].disk == world[when[i]]
    requires forall i, j :: 0 <= i < j < |h| ==> when[i] <= when[j]
    ensures Growing(h)
  {
    forall i, j | 0 <= i < j < |h| && h[i].disk.File? && h[j].disk.File? && h[i].disk != h[j].disk
      ensures h[i].disk.mtime < h[j].disk.mtime
    {
      RisingPair(world, when[i], when[j]);
    }
  }

  // ---- where it is not coherent ----

  /** A second edit with the same modification time is not seen. */
  lemma EqualTimeStale(m: int, before: Config, after: Config)
    requires m > 0 && before != after
    ensures var h := [Event(0, true, File(m, 1, Some(before))), Event(0, true, File(m, 1, Some(after)))];
            SlotAfter(h, 2, 0).config == Some(before) != Content(h[1].disk)
  {
    var h := [Event(0, true, File(m, 1, Some(before))), Event(0, true, File(m, 1, Some(after)))];
    assert SlotAfter(h, 1, 0) == Slot(Some(before), m);
  }

  /** Two callers share the flag: when another one finds the file gone first, this one keeps its old
      configuration although its own load also finds no file. */
  lemma SharedFlagStale(m: int, cfg: Config, timed: bool)
    requires m > 0
    ensures var h := [Event(0, true, File(m, 1, Some(cfg))), Event(1, timed, Absent), Event(0, true, Absent)];
            SlotAfter(h, 3, 0).config == Some(cfg)
  {
    var h := [Event(0, true, File(m, 1, Some(cfg))), Event(1, timed, Absent), Event(0, true, Absent)];
    assert SlotAfter(h, 1, 0) == Slot(Some(cfg), m);
    assert SlotAfter(h, 2, 0) == Slot(Some(cfg), m);
    assert !Had(h, 2);
  }
}
