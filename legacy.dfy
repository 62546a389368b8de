/**
 * `src/power_api.c`, the first generation of the library: one set of process-wide
 * globals instead of a context, islands read from `affected_cpus` only, status
 * codes returned instead of stored, and signed `long` cpu ids and island ids.
 */
module Legacy {
  import opened Machine
  import opened Text
  import opened Codes
  import opened Sysfs
  import opened Seqs
  import Dvfs

  /** `island_t` without its voltage fields. */
  datatype Island = Island(
    id: int,
    cpus: seq<int>,
    numSpeedLevels: int,
    current: int,
    minLevel: int,
    maxLevel: int,
    freqs: seq<int>,
    agility: int)

  /**
   * The globals of the library. `throttle` and `speed` hold the paths of the open
   * streams `island_throttle_files` and `island_speed_files`; `log` is every value
   * the library has written to a sysfs file, in order.
   */
  datatype Globals = Globals(
    initialized: bool,
    numCpu: int,
    numIslands: int,
    islands: seq<Island>,
    throttle: seq<string>,
    speed: seq<string>,
    log: seq<Write>)

  /** The globals as the program starts: nothing initialized, no island, no stream. */
  function Boot(): Globals {
    Globals(false, 0, 0, [], [], [], [])
  }

  /**
   * What holds while the library is initialized: one island record, one throttle
   * stream and one speed stream per island, and levels `0 .. num-1` in every table.
   */
  predicate Consistent(g: Globals) {
    g.initialized ==>
      |g.islands| == g.numIslands && |g.throttle| == g.numIslands && |g.speed| == g.numIslands &&
      forall i :: 0 <= i < |g.islands| ==> TableShape(g.islands[i])
  }

  predicate TableShape(isl: Island) {
    isl.minLevel == 0 && isl.maxLevel == |isl.freqs| - 1 && isl.numSpeedLevels == |isl.freqs|
  }

  /** The process-wide state of `src/power_api.c`. */
  class Library {
    var initialized: bool
    var numCpu: int
    var numIslands: int
    var islands: seq<Island>
    var throttle: seq<string>
    var speed: seq<string>
    var log: seq<Write>

    function Snapshot(): Globals
      reads this
    {
      Globals(initialized, numCpu, numIslands, islands, throttle, speed, log)
    }

    /** The static initialisers of the globals. */
    constructor ()
      ensures Snapshot() == Boot()
    {
      initialized := false;
      numCpu := 0;
      numIslands := 0;
      islands := [];
      throttle := [];
      speed := [];
      log := [];
    }

    /** `pwr_initialize(...)`: the three policy arguments are ignored and left out. */
    method Initialize(fs: Tree, cpuCount: Option<nat>, unset: nat -> int) returns (code: int)
      requires WellFormed(fs) && Consistent(Snapshot())
      modifies this
      ensures (Snapshot(), code) == InitializeSpec(old(Snapshot()), fs, cpuCount, unset)
    {
      if initialized {
        return AlreadyInitialized;
      }
      if cpuCount.None? {
        numCpu := 0;
        return InitErr;
      }
      var n := cpuCount.value;
      numCpu := n;
      var found, complete := Discover(fs, n);
      assert found == Found(fs, n);
      numIslands := |found|;
      if !complete {
        return InitErr;
      }
      var isls, latencies := ReadLatencies(fs, found, unset);
      islands := isls;
      if !latencies {
        return InitErr;
      }
      code := SetUp(fs, isls);
    }

    /**
     * The rest of `pwr_initialize` once the islands are known: `init_speed_levels`,
     * the two streams of every island, then `initialized` and the level-1 requests.
     */
    method SetUp(fs: Tree, isls: seq<Island>) returns (code: int)
      requires Ready(fs, isls) && !initialized && |isls| == numIslands && islands == isls
      modifies this
      ensures (Snapshot(), code) == SetUpSpec(old(Snapshot()), fs)
    {
      var ok, tables := SetLevels(fs, isls);
      islands := tables;
      if !ok {
        return InitErr;
      }
      var canOpen, ts, ss := OpenFiles(fs, tables);
      if !canOpen {
        return InitErr;
      }
      LevelsPhaseTables(fs, isls, |isls|);
      throttle := ts;
      speed := ss;
      initialized := true;
      assert Snapshot() == Opened(old(Snapshot()).(islands := tables));
      RequestLevelOne();
      return Ok;
    }

    /** The loop of `pwr_initialize` that asks for level 1 on every island, in order. */
    method RequestLevelOne()
      requires Consistent(Snapshot()) && initialized
      modifies this
      ensures Snapshot() == RequestAll(old(Snapshot()), old(numIslands))
    {
      var i := 0;
      while i < numIslands
        invariant 0 <= i <= numIslands == old(numIslands)
        invariant Snapshot() == RequestAll(old(Snapshot()), i)
      {
        RequestAllFrame(old(Snapshot()), i);
        var _ := RequestSpeedLevel(i, 1);
        i := i + 1;
      }
    }

    /**
     * `pwr_request_speed_level(island, new_level)`. The two `ferror` checks never see
     * a refused write: the short text waits in the stream's buffer until `rewind`
     * flushes it, and `rewind` clears the error indicator (section 7.21.9.5 of C11),
     * so `PWR_DVFS_ERR` is never returned and the write is always logged.
     */
    method RequestSpeedLevel(island: int, level: int) returns (code: int)
      requires Consistent(Snapshot())
      modifies this
      ensures (Snapshot(), code) == Request(old(Snapshot()), island, level)
    {
      if !initialized {
        return Uninitialized;
      }
      if island < 0 || island >= numIslands {
        return InvalidIsland;
      }
      var isl := islands[island];
      if level < isl.minLevel || level > isl.maxLevel {
        return UnsupportedSpeedLevel;
      }
      if (level == isl.minLevel || level == isl.maxLevel) && level == isl.current {
        return AlreadyMinMax;
      }
      log := log + [Write(throttle[island], FormatLong(isl.freqs[level]))];
      islands := islands[island := isl.(current := level)];
      return Ok;
    }

    /** `pwr_modify_speed_level(island, delta, bottom)`: `bottom` is not used. */
    method ModifySpeedLevel(island: int, delta: Int32, bottom: int) returns (code: int)
      requires Consistent(Snapshot())
      modifies this
      ensures (Snapshot(), code) == Modify(old(Snapshot()), island, delta)
    {
      if !initialized {
        return Uninitialized;
      }
      var current := 0;
      var c := CurrentSpeedLevel(Snapshot(), island);
      if c.0 == Ok {
        current := c.1;
      }
      code := RequestSpeedLevel(island, current + delta);
    }

    /** `pwr_finalize()` */
    method Finalize() returns (code: int)
      modifies this
      ensures (Snapshot(), code) == FinalizeSpec(old(Snapshot()))
    {
      if !initialized {
        return Uninitialized;
      }
      islands := [];
      throttle := [];
      speed := [];
      initialized := false;
      return Ok;
    }
  }

  //===------------------------------------------------------------------------
  // The comparators and the sorts through them

  /** `compare_cpu_id`: -1, 0 or 1 as `i0` is below, equal to or above `i1`. */
  function CompareCpuId(i0: int, i1: int): (r: int)
    ensures r < 0 <==> i0 < i1
    ensures r == 0 <==> i0 == i1
    ensures r > 0 <==> i0 > i1
  {
    if i0 < i1 then -1 else if i0 > i1 then 1 else 0
  }

  /** On values it is the ascending order, the one `CpuList` produces. */
  lemma CompareCpuIdOrders(a: int, b: int)
    ensures CompareCpuId(a, b) <= 0 <==> InOrder(a, b, false)
    ensures CompareCpuId(a, b) == -CompareCpuId(b, a)
  {
  }

  /**
   * The `g_array_sort` of `init_islands` as written: through the `(GCompareFunc)` cast,
   * `compare_cpu_id` receives the addresses of two ids of the array at `base`.
   */
  function SortIdsAsWritten(ids: seq<int>, base: int): seq<int> {
    AddressSort(ids, base, (p, q) => CompareCpuId(p, q))
  }

  /** The earlier address is always the lower, so the sort leaves the ids in the order of the file. */
  lemma SortIdsAsWrittenKeeps(ids: seq<int>, base: int)
    ensures SortIdsAsWritten(ids, base) == ids
  {
    AddressSortKeeps(ids, base, (p, q) => CompareCpuId(p, q));
  }

  /** On an ascending `affected_cpus` list, the kernel's order, the sort as written gives `CpuList`'s order. */
  lemma SortIdsAsWrittenOnKernelList(ids: seq<int>, base: int)
    requires Sorted(ids, false)
    ensures SortIdsAsWritten(ids, base) == Sort(ids, false)
  {
    SortIdsAsWrittenKeeps(ids, base);
    SortSorted(ids, false);
    SortedUnique(ids, Sort(ids, false), false);
  }

  /**
   * The `g_array_sort` of the older `sort_and_cast_freqs` as written: its `compare_freq`
   * (`Dvfs.CompareFreq`) receives two addresses and answers 1 for the earlier one.
   */
  function SortFreqsAsWritten(freqs: seq<int>, base: int): seq<int> {
    AddressSort(freqs, base, (p, q) => Dvfs.CompareFreq(p, q))
  }

  /** So the sort returns the frequencies in the reverse of the file's order, whatever their values. */
  lemma SortFreqsAsWrittenReverses(freqs: seq<int>, base: int)
    ensures SortFreqsAsWritten(freqs, base) == Reverse(freqs)
  {
    AddressSortReverses(freqs, base, (p, q) => Dvfs.CompareFreq(p, q));
  }

  /**
   * On lists in any other order the sorts as written do not sort: the ids 1, 0 stay as
   * they are and the frequencies 800000, 2400000, 1800000 come back reversed.
   */
  lemma SortsAsWrittenUnsorted(base: int)
    ensures SortIdsAsWritten([1, 0], base) == [1, 0] && !Sorted([1, 0], false)
    ensures SortFreqsAsWritten([800000, 2400000, 1800000], base) == [1800000, 2400000, 800000]
  {
    SortIdsAsWrittenKeeps([1, 0], base);
    var ids: seq<int> := [1, 0];
    assert !InOrder(ids[0], ids[1], false);
    var freqs := [800000, 2400000, 1800000];
    SortFreqsAsWrittenReverses(freqs, base);
    assert Reverse(freqs) == [1800000, 2400000, 800000];
  }

  /** On the kernel's highest-first file that is the ascending table `Dvfs.Table` describes. */
  lemma SortFreqsAsWrittenOnKernelFile(freqs: seq<int>, base: int)
    requires Sorted(freqs, true)
    ensures SortFreqsAsWritten(freqs, base) == Sort(freqs, false)
  {
    SortFreqsAsWrittenReverses(freqs, base);
    ReverseSorted(freqs);
    ReverseMultiset(freqs);
    SortSorted(freqs, false);
    SortedUnique(Reverse(freqs), Sort(freqs, false), false);
  }

  //===------------------------------------------------------------------------
  // init_islands

  /** The `affected_cpus` file of a cpu. */
  function AffectedPath(cpu: int): string {
    Path(cpu, "affected_cpus")
  }

  /** The ids of a list of tokens: `atoi` of each, widened to `long`. */
  function CpuIds(tokens: seq<string>): (r: seq<int>)
    ensures |r| == |tokens|
  {
    seq(|tokens|, i requires 0 <= i < |tokens| => Atoi(tokens[i]))
  }

  /** The cpus of one island: the tokens of an `affected_cpus` text, parsed and ascending. */
  function CpuList(text: string): (r: seq<int>)
    ensures Sorted(r, false)
    ensures multiset(r) == multiset(CpuIds(Split(text, LegacyMaxCpuPerIsland)))
    ensures text != [] ==> r != []
  {
    var ids := CpuIds(Split(text, LegacyMaxCpuPerIsland));
    SortSorted(ids, false);
    Sort(ids, false)
  }

  /** The first cpu below `n` without an `affected_cpus` file, or `n`. */
  function FirstUnreadable(fs: Tree, n: nat): (u: nat)
    ensures u <= n
    ensures forall c :: 0 <= c < u ==> AffectedPath(c) in fs.files
    ensures u < n ==> AffectedPath(u) !in fs.files
  {
    if n == 0 then 0
    else
      var u := FirstUnreadable(fs, n - 1);
      if u < n - 1 || AffectedPath(n - 1) !in fs.files then u else n
  }

  lemma FirstUnreadableAt(fs: Tree, n: nat, cpu: nat)
    requires cpu <= n
    requires forall c :: 0 <= c < cpu ==> AffectedPath(c) in fs.files
    requires cpu < n ==> AffectedPath(cpu) !in fs.files
    ensures FirstUnreadable(fs, n) == cpu
  {
  }

  /** The sorted sibling lists of the cpus `0 .. k-1`. */
  function Lists(fs: Tree, k: nat): (r: seq<seq<int>>)
    requires forall c :: 0 <= c < k ==> AffectedPath(c) in fs.files
    ensures |r| == k
  {
    seq(k, c requires 0 <= c < k => CpuList(fs.files[AffectedPath(c)]))
  }

  lemma ListsNonEmpty(fs: Tree, k: nat)
    requires WellFormed(fs)
    requires forall c :: 0 <= c < k ==> AffectedPath(c) in fs.files
    ensures forall i :: 0 <= i < k ==> Lists(fs, k)[i] != []
  {
  }

  /** The islands in discovery order: every distinct sibling list, first occurrence first. */
  function Found(fs: Tree, n: nat): (r: seq<seq<int>>)
    requires WellFormed(fs)
    ensures |r| <= n
    ensures forall i :: 0 <= i < |r| ==> r[i] != []
  {
    var u := FirstUnreadable(fs, n);
    ListsNonEmpty(fs, u);
    Dedup(Lists(fs, u))
  }

  /** The scan over the islands found so far: the index of the one equal to `list`, or `|found|`. */
  method FindEqual(found: seq<seq<int>>, list: seq<int>) returns (k: nat)
    ensures k == Find(found, list)
  {
    k := 0;
    while k < |found|
      invariant k <= |found|
      invariant forall j :: 0 <= j < k ==> found[j] != list
    {
      var eq := DeepEq(list, found[k]);
      if eq {
        break;
      }
      k := k + 1;
    }
  }

  lemma FoundStep(fs: Tree, cpu: nat, k: nat)
    requires forall c :: 0 <= c <= cpu ==> AffectedPath(c) in fs.files
    requires k == Find(Dedup(Lists(fs, cpu)), CpuList(fs.files[AffectedPath(cpu)]))
    ensures var d := Dedup(Lists(fs, cpu)); var l := CpuList(fs.files[AffectedPath(cpu)]);
      Dedup(Lists(fs, cpu + 1)) == if k < |d| then d else d + [l]
  {
    var xs := Lists(fs, cpu + 1);
    var ys := Lists(fs, cpu);
    assert xs[..cpu] == ys by {
      forall j | 0 <= j < cpu
        ensures xs[j] == ys[j]
      {
      }
    }
    DedupStep(xs, ys, CpuList(fs.files[AffectedPath(cpu)]));
  }



  /** One cpu of the loop of `init_islands`: its `affected_cpus` list, read, split, parsed and sorted. */
  method ReadSiblings(fs: Tree, cpu: nat) returns (list: Option<seq<int>>)
    ensures list.None? <==> AffectedPath(cpu) !in fs.files
    ensures list.Some? ==> list.value == CpuList(fs.files[AffectedPath(cpu)])
  {
    var text := Read(fs, AffectedPath(cpu));
    if text.None? {
      return None;
    }
    var tokens := Split(text.value, LegacyMaxCpuPerIsland);
    var ids: seq<int> := [];
    var i := 0;
    while i < |tokens|
      invariant i <= |tokens| && ids == CpuIds(tokens)[..i]
    {
      ids := ids + [Atoi(tokens[i])];
      i := i + 1;
    }
    assert ids == CpuIds(tokens);
    return Some(Sort(ids, false));
  }

  /** The loop over the cpus of `init_islands`, up to the first that has no `affected_cpus`. */
  method Discover(fs: Tree, n: nat) returns (found: seq<seq<int>>, complete: bool)
    ensures complete <==> FirstUnreadable(fs, n) == n
    ensures found == Dedup(Lists(fs, FirstUnreadable(fs, n)))
  {
    found := [];
    var cpu := 0;
    while cpu < n
      invariant cpu <= n
      invariant forall c :: 0 <= c < cpu ==> AffectedPath(c) in fs.files
      invariant found == Dedup(Lists(fs, cpu))
    {
      var read := ReadSiblings(fs, cpu);
      if read.None? {
        FirstUnreadableAt(fs, n, cpu);
        return found, false;
      }
      var list := read.value;
      var k := FindEqual(found, list);
      FoundStep(fs, cpu, k);
      if k == |found| {
        found := found + [list];
      }
      cpu := cpu + 1;
    }
    FirstUnreadableAt(fs, n, n);
    return found, true;
  }

  /** The `cpuinfo_transition_latency` file of a cpu. */
  function LatencyPath(cpu: int): string {
    Path(cpu, "cpuinfo_transition_latency")
  }

  /** The island has a cpu, and the first one has a `cpuinfo_transition_latency` file. */
  predicate HasLatency(fs: Tree, cpus: seq<int>) {
    cpus != [] && LatencyPath(cpus[0]) in fs.files
  }

  /** The transition latency of an island, read from its first cpu with `sscanf("%ld")`. */
  function Latency(fs: Tree, cpus: seq<int>): int
    requires HasLatency(fs, cpus)
  {
    Atoi(fs.files[LatencyPath(cpus[0])])
  }

  /** For each of the islands `0 .. k-1`, whether its latency can be read. */
  function LatencyKnown(fs: Tree, found: seq<seq<int>>, k: nat): seq<bool>
    requires k <= |found|
  {
    seq(k, i requires 0 <= i < k => HasLatency(fs, found[i]))
  }

  /** The first of the islands `0 .. k-1` whose latency cannot be read, or `k`. */
  function FirstWithoutLatency(fs: Tree, found: seq<seq<int>>, k: nat): (a: nat)
    requires k <= |found|
    ensures a <= k
    ensures forall i {:trigger HasLatency(fs, found[i])} :: 0 <= i < a ==> HasLatency(fs, found[i])
    ensures a < k ==> !HasLatency(fs, found[a])
  {
    var a := FirstFalse(LatencyKnown(fs, found, k));
    assert forall i :: 0 <= i < k ==> LatencyKnown(fs, found, k)[i] == HasLatency(fs, found[i]);
    a
  }

  lemma FirstWithoutLatencyAt(fs: Tree, found: seq<seq<int>>, k: nat, a: nat)
    requires k <= |found|
    requires a <= k
    requires forall i :: 0 <= i < a ==> HasLatency(fs, found[i])
    requires a < k ==> !HasLatency(fs, found[a])
    ensures FirstWithoutLatency(fs, found, k) == a
  {
    FirstFalseAt(LatencyKnown(fs, found, k), a);
  }

  /**
   * The island records of `init_islands` for the first `a` islands: island `i` gets
   * id `i`, its cpus and the latency of its first cpu. `unset(i)` is whatever `malloc`
   * left in its `current_speed_level`, which nothing sets before the first request
   * reads it.
   */
  function WithLatencies(fs: Tree, found: seq<seq<int>>, a: nat, unset: nat -> int): (r: seq<Island>)
    requires a <= |found|
    requires forall i :: 0 <= i < a ==> HasLatency(fs, found[i])
    ensures |r| == a
    ensures forall i :: 0 <= i < a ==> r[i].id == i && r[i].cpus == found[i] && r[i].current == unset(i)
  {
    seq(a, i requires 0 <= i < a => Island(i, found[i], 0, unset(i), 0, 0, [], Latency(fs, found[i])))
  }

  /** The agility loop of `init_islands`, stopping at the first latency it cannot read. */
  method ReadLatencies(fs: Tree, found: seq<seq<int>>, unset: nat -> int) returns (isls: seq<Island>, complete: bool)
    requires forall i :: 0 <= i < |found| ==> found[i] != []
    ensures complete <==> FirstWithoutLatency(fs, found, |found|) == |found|
    ensures isls == WithLatencies(fs, found, FirstWithoutLatency(fs, found, |found|), unset)
  {
    isls := [];
    var i := 0;
    while i < |found|
      invariant i <= |found|
      invariant forall j :: 0 <= j < i ==> HasLatency(fs, found[j])
      invariant isls == WithLatencies(fs, found, i, unset)
    {
      var latency := Read(fs, LatencyPath(found[i][0]));
      if latency.None? {
        FirstWithoutLatencyAt(fs, found, |found|, i);
        return isls, false;
      }
      WithLatenciesStep(fs, found, i, unset);
      isls := isls + [Island(i, found[i], 0, unset(i), 0, 0, [], Atoi(latency.value))];
      i := i + 1;
    }
    FirstWithoutLatencyAt(fs, found, |found|, i);
    return isls, true;
  }

  lemma WithLatenciesStep(fs: Tree, found: seq<seq<int>>, a: nat, unset: nat -> int)
    requires a < |found|
    requires forall i :: 0 <= i <= a ==> HasLatency(fs, found[i])
    ensures WithLatencies(fs, found, a + 1, unset) ==
      WithLatencies(fs, found, a, unset) + [Island(a, found[a], 0, unset(a), 0, 0, [], Latency(fs, found[a]))]
  {
  }

  //===------------------------------------------------------------------------
  // init_speed_levels

  /** Every island has at least one cpu. */
  predicate Listed(isls: seq<Island>) {
    forall i :: 0 <= i < |isls| ==> isls[i].cpus != []
  }

  /** What the setup after `init_islands` needs: readable files are non-empty, islands have cpus. */
  predicate Ready(fs: Tree, isls: seq<Island>) {
    WellFormed(fs) && Listed(isls)
  }

  /** The `scaling_available_frequencies` file of a cpu; an island reads the one of its first cpu. */
  function FrequencyPath(cpu: int): string {
    Path(cpu, "scaling_available_frequencies")
  }

  /** `isl` carries the table of the frequency file of the first of `cpus`, with levels `0 .. num-1`. */
  predicate HasTable(fs: Tree, cpus: seq<int>, isl: Island)
    requires WellFormed(fs) && cpus != []
  {
    FrequencyPath(cpus[0]) in fs.files && TableShape(isl) &&
    isl.freqs == Dvfs.Table(fs.files[FrequencyPath(cpus[0])])
  }

  /**
   * A table as `init_speed_levels` stores it holds every value of the frequency file
   * but the last piece, as often as it occurs, lowest first: level 0 is the lowest
   * frequency and the last level the highest.
   */
  lemma TableOrder(text: string)
    requires text != []
    ensures var t := Dvfs.Table(text);
      multiset(t) == multiset(Dvfs.Frequencies(Split(text, MaxSpeedLevels))) && Sorted(t, false) &&
      forall j :: 0 <= j < |t| ==> t[0] <= t[j] <= t[|t| - 1]
  {
    SortSorted(Dvfs.Frequencies(Split(text, MaxSpeedLevels)), false);
    SortedEnds(Dvfs.Table(text));
  }

  /** One island of `init_speed_levels`; a missing frequency file leaves the island as it was. */
  function TableOf(fs: Tree, isl: Island): (r: (bool, Island))
    requires WellFormed(fs) && isl.cpus != []
    ensures r.0 <==> FrequencyPath(isl.cpus[0]) in fs.files
    ensures r.1.id == isl.id && r.1.cpus == isl.cpus && r.1.agility == isl.agility && r.1.current == isl.current
    ensures !r.0 ==> r.1 == isl
  {
    var p := FrequencyPath(isl.cpus[0]);
    if p !in fs.files then (false, isl)
    else
      var freqs := Dvfs.Table(fs.files[p]);
      (true, isl.(numSpeedLevels := |freqs|, freqs := freqs, minLevel := 0, maxLevel := |freqs| - 1))
  }

  /** A table read from the frequency file is that file's table, with levels `0 .. num-1`. */
  lemma TableOfHasTable(fs: Tree, isl: Island)
    requires WellFormed(fs) && isl.cpus != []
    ensures TableOf(fs, isl).0 ==> HasTable(fs, isl.cpus, TableOf(fs, isl).1)
  {
  }

  /** The steps `0 .. k-1` applied in order to `isls`, stopping at the first that fails. */
  function Run(isls: seq<Island>, steps: seq<(bool, Island)>, k: nat): (r: (bool, seq<Island>))
    requires k <= |isls| == |steps|
    ensures |r.1| == |isls|
  {
    if k == 0 then (true, isls)
    else
      var o := Run(isls, steps, k - 1);
      if !o.0 then o
      else (steps[k - 1].0, o.1[k - 1 := steps[k - 1].1])
  }

  /** Steps that keep each island's id, cpus, agility and current level. */
  predicate StepsKeep(isls: seq<Island>, steps: seq<(bool, Island)>) {
    |steps| == |isls| &&
    forall i :: 0 <= i < |isls| ==>
      steps[i].1.id == isls[i].id && steps[i].1.cpus == isls[i].cpus &&
      steps[i].1.agility == isls[i].agility && steps[i].1.current == isls[i].current
  }

  /**
   * A run keeps what its steps keep, leaves the islands it did not reach as they
   * were, and on success each island it went through is what its own step made.
   */
  lemma {:induction false} RunFrame(isls: seq<Island>, steps: seq<(bool, Island)>, k: nat)
    requires StepsKeep(isls, steps) && k <= |isls|
    ensures var r := Run(isls, steps, k);
      (forall i :: 0 <= i < |isls| ==>
        r.1[i].id == isls[i].id && r.1[i].cpus == isls[i].cpus &&
        r.1[i].agility == isls[i].agility && r.1[i].current == isls[i].current) &&
      (forall i :: k <= i < |isls| ==> r.1[i] == isls[i]) &&
      (r.0 ==> forall i :: 0 <= i < k ==> steps[i].0 && r.1[i] == steps[i].1)
  {
    if k > 0 {
      RunFrame(isls, steps, k - 1);
      var o := Run(isls, steps, k - 1);
      if o.0 {
        var r := Run(isls, steps, k);
        assert forall i :: 0 <= i < |isls| && i != k - 1 ==> r.1[i] == o.1[i];
      }
    }
  }

  /** The step of each island of `init_speed_levels`, taken on the island as `init_islands` left it. */
  function Tables(fs: Tree, isls: seq<Island>): (r: seq<(bool, Island)>)
    requires Ready(fs, isls)
    ensures StepsKeep(isls, r)
  {
    seq(|isls|, i requires 0 <= i < |isls| => TableOf(fs, isls[i]))
  }

  /**
   * The loop of `init_speed_levels` over the first `k` islands, stopping at the
   * first whose frequency file cannot be read; the islands before it keep their
   * new tables.
   */
  function LevelsPhase(fs: Tree, isls: seq<Island>, k: nat): (r: (bool, seq<Island>))
    requires Ready(fs, isls) && k <= |isls|
    ensures |r.1| == |isls|
    ensures forall i :: 0 <= i < |isls| ==>
      r.1[i].id == isls[i].id && r.1[i].cpus == isls[i].cpus &&
      r.1[i].agility == isls[i].agility && r.1[i].current == isls[i].current
  {
    RunFrame(isls, Tables(fs, isls), k);
    Run(isls, Tables(fs, isls), k)
  }

  /** When the loop got through, each of the first `k` islands carries the table of its own frequency file. */
  lemma LevelsPhaseTables(fs: Tree, isls: seq<Island>, k: nat)
    requires Ready(fs, isls) && k <= |isls|
    ensures LevelsPhase(fs, isls, k).0 ==>
      forall i :: 0 <= i < k ==> HasTable(fs, isls[i].cpus, LevelsPhase(fs, isls, k).1[i])
  {
    var steps := Tables(fs, isls);
    RunFrame(isls, steps, k);
    forall i | 0 <= i < k
      ensures LevelsPhase(fs, isls, k).0 ==> HasTable(fs, isls[i].cpus, LevelsPhase(fs, isls, k).1[i])
    {
      assert steps[i] == TableOf(fs, isls[i]);
      TableOfHasTable(fs, isls[i]);
    }
  }

  /** Once a step fails, the steps after it are not taken. */
  lemma {:induction false} RunStop(isls: seq<Island>, steps: seq<(bool, Island)>, m: nat, n: nat)
    requires m <= n <= |isls| == |steps|
    requires !Run(isls, steps, m).0
    ensures Run(isls, steps, n) == Run(isls, steps, m)
  {
    if m < n {
      RunStop(isls, steps, m, n - 1);
    }
  }

  /** One more island read into its table. */
  lemma LevelsStep(fs: Tree, isls: seq<Island>, i: nat, tables: seq<Island>, read: bool, isl: Island)
    requires Ready(fs, isls) && i < |isls| && LevelsPhase(fs, isls, i) == (true, tables)
    requires (read, isl) == TableOf(fs, tables[i])
    ensures tables[i] == isls[i]
    ensures LevelsPhase(fs, isls, i + 1) == (read, tables[i := isl])
  {
    var steps := Tables(fs, isls);
    RunUntouched(isls, steps, i, tables);
    assert steps[i] == (read, isl);
    RunStep(isls, steps, i, tables, (read, isl));
  }

  /** The island a run reaches next is still as it was. */
  lemma RunUntouched(isls: seq<Island>, steps: seq<(bool, Island)>, i: nat, tables: seq<Island>)
    requires StepsKeep(isls, steps) && i < |isls| && Run(isls, steps, i) == (true, tables)
    ensures tables[i] == isls[i]
  {
    RunFrame(isls, steps, i);
  }

  /** A run that went through `i` islands takes the next step on island `i`. */
  lemma RunStep(isls: seq<Island>, steps: seq<(bool, Island)>, i: nat, tables: seq<Island>, o: (bool, Island))
    requires i < |isls| == |steps| && Run(isls, steps, i) == (true, tables) && steps[i] == o
    ensures Run(isls, steps, i + 1) == (o.0, tables[i := o.1])
  {
  }

  /** Once an island's frequency file is missing, the islands after it are not tried. */
  lemma LevelsStop(fs: Tree, isls: seq<Island>, m: nat)
    requires Ready(fs, isls) && m <= |isls| && !LevelsPhase(fs, isls, m).0
    ensures LevelsPhase(fs, isls, |isls|) == LevelsPhase(fs, isls, m)
  {
    RunStop(isls, Tables(fs, isls), m, |isls|);
  }

  /** The loop of `init_speed_levels`: each table through `sort_and_cast_freqs`. */
  method SetLevels(fs: Tree, isls: seq<Island>) returns (ok: bool, tables: seq<Island>)
    requires Ready(fs, isls)
    ensures (ok, tables) == LevelsPhase(fs, isls, |isls|)
  {
    ok, tables := true, isls;
    var i := 0;
    while i < |isls| && ok
      invariant i <= |isls|
      invariant LevelsPhase(fs, isls, i) == (ok, tables)
    {
      ok, tables := SetLevel(fs, isls, i, tables);
      i := i + 1;
    }
    if !ok {
      LevelsStop(fs, isls, i);
    }
  }

  /** One turn of that loop: island `i` gets its table, or the phase ends with a failure. */
  method SetLevel(fs: Tree, isls: seq<Island>, i: nat, tables: seq<Island>) returns (read: bool, next: seq<Island>)
    requires Ready(fs, isls) && i < |isls| && LevelsPhase(fs, isls, i) == (true, tables)
    ensures LevelsPhase(fs, isls, i + 1) == (read, next)
  {
    var isl;
    read, isl := ReadTable(fs, tables[i]);
    LevelsStep(fs, isls, i, tables, read, isl);
    next := tables[i := isl];
  }

  /** One pass of that loop: the frequency file of the island's first cpu, split and sorted. */
  method ReadTable(fs: Tree, isl: Island) returns (read: bool, r: Island)
    requires WellFormed(fs) && isl.cpus != []
    ensures (read, r) == TableOf(fs, isl)
  {
    var text := Read(fs, FrequencyPath(isl.cpus[0]));
    if text.None? {
      return false, isl;
    }
    var tokens := Split(text.value, LegacyMaxSpeedLevels);
    var num := |tokens| - 1;
    var freqs := Dvfs.SortAndCastFreqs(tokens, num);
    assert freqs == Dvfs.Table(text.value) by {
      assert LegacyMaxSpeedLevels == MaxSpeedLevels;
    }
    return true, isl.(numSpeedLevels := num, freqs := freqs, minLevel := 0, maxLevel := num - 1);
  }

  //===------------------------------------------------------------------------
  // pwr_initialize

  /** The throttle file of an island, `scaling_setspeed` of its first cpu. */
  function ThrottlePath(isl: Island): string
    requires isl.cpus != []
  {
    Path(isl.cpus[0], "scaling_setspeed")
  }

  /** The speed file of an island, `scaling_cur_freq` of its first cpu. */
  function SpeedPath(isl: Island): string
    requires isl.cpus != []
  {
    Path(isl.cpus[0], "scaling_cur_freq")
  }

  function Throttles(isls: seq<Island>): (r: seq<string>)
    requires Listed(isls)
    ensures |r| == |isls| && forall i :: 0 <= i < |r| ==> r[i] == ThrottlePath(isls[i])
  {
    seq(|isls|, i requires 0 <= i < |isls| => ThrottlePath(isls[i]))
  }

  function Speeds(isls: seq<Island>): (r: seq<string>)
    requires Listed(isls)
    ensures |r| == |isls| && forall i :: 0 <= i < |r| ==> r[i] == SpeedPath(isls[i])
  {
    seq(|isls|, i requires 0 <= i < |isls| => SpeedPath(isls[i]))
  }

  /** Both streams of the first `k` islands can be opened. */
  predicate Openable(fs: Tree, isls: seq<Island>, k: nat)
    requires k <= |isls| && Listed(isls)
  {
    forall i :: 0 <= i < k ==> ThrottlePath(isls[i]) in fs.writable && SpeedPath(isls[i]) in fs.files
  }

  /** The stream-opening loop of `pwr_initialize`, stopping at the first island that fails. */
  method OpenFiles(fs: Tree, isls: seq<Island>) returns (ok: bool, throttle: seq<string>, speed: seq<string>)
    requires Listed(isls)
    ensures ok <==> Openable(fs, isls, |isls|)
    ensures ok ==> throttle == Throttles(isls) && speed == Speeds(isls)
  {
    var ts, ss := Throttles(isls), Speeds(isls);
    var i := 0;
    while i < |isls|
      invariant i <= |isls|
      invariant forall j :: 0 <= j < i ==> ts[j] in fs.writable && ss[j] in fs.files
    {
      if ts[i] !in fs.writable || ss[i] !in fs.files {
        return false, ts[..i], ss[..i];
      }
      i := i + 1;
    }
    return true, ts, ss;
  }

  /** The globals once both streams of every island are open and `initialized` is set. */
  function Opened(g: Globals): (r: Globals)
    requires Listed(g.islands) && |g.islands| == g.numIslands
    requires forall i :: 0 <= i < |g.islands| ==> TableShape(g.islands[i])
    ensures Consistent(r) && r.initialized
  {
    g.(initialized := true, throttle := Throttles(g.islands), speed := Speeds(g.islands))
  }

  /**
   * The level-1 requests `pwr_initialize` makes once `initialized` is set: one per
   * island, in order, each through the island's own throttle stream.
   */
  function RequestAll(g: Globals, k: nat): (r: Globals)
    requires Consistent(g) && g.initialized && k <= g.numIslands
    ensures Consistent(r) && r.initialized && r.numIslands == g.numIslands
    ensures r.throttle == g.throttle && r.speed == g.speed && r.numCpu == g.numCpu
  {
    if k == 0 then g
    else
      var h := RequestAll(g, k - 1);
      Request(h, k - 1, 1).0
  }

  lemma RequestAllFrame(g: Globals, k: nat)
    requires Consistent(g) && g.initialized && k < g.numIslands
    ensures RequestAll(g, k + 1) == Request(RequestAll(g, k), k, 1).0
  {
  }

  /**
   * What the rest of `pwr_initialize` leaves once the islands are stored: the tables
   * of `init_speed_levels`, then, when every frequency file was read and both streams
   * of every island opened, `initialized` and a request for level 1 on each island.
   */
  function SetUpSpec(g: Globals, fs: Tree): (r: (Globals, int))
    requires Ready(fs, g.islands) && !g.initialized && |g.islands| == g.numIslands
    ensures r.1 == Ok || r.1 == InitErr
    ensures r.0.initialized <==> r.1 == Ok
    ensures Consistent(r.0) && r.0.numCpu == g.numCpu && r.0.numIslands == g.numIslands
    ensures var o := LevelsPhase(fs, g.islands, |g.islands|);
      r.1 == Ok <==> o.0 && Openable(fs, o.1, |o.1|)
  {
    var o := LevelsPhase(fs, g.islands, |g.islands|);
    var g2 := g.(islands := o.1);
    if !o.0 || !Openable(fs, o.1, |o.1|) then (g2, InitErr)
    else
      LevelsPhaseTables(fs, g.islands, |g.islands|);
      (RequestAll(Opened(g2), g.numIslands), Ok)
  }

  /**
   * The globals `pwr_initialize` leaves and the status it returns. `cpuCount` is the
   * number of `cpuN` entries `init_cpu` counts under `/sys/devices/system/cpu`, `None`
   * when the directory cannot be opened. A failure leaves `initialized` false but
   * keeps what the steps before it stored.
   */
  function InitializeSpec(g: Globals, fs: Tree, cpuCount: Option<nat>, unset: nat -> int): (r: (Globals, int))
    requires WellFormed(fs) && Consistent(g)
  {
    if g.initialized then (g, AlreadyInitialized)
    else if cpuCount.None? then (g.(numCpu := 0), InitErr)
    else
      var n := cpuCount.value;
      var found := Found(fs, n);
      var g1 := g.(numCpu := n, numIslands := |found|);
      if FirstUnreadable(fs, n) < n then (g1, InitErr)
      else
        var a := FirstWithoutLatency(fs, found, |found|);
        var g2 := g1.(islands := WithLatencies(fs, found, a, unset));
        if a < |found| then (g2, InitErr) else SetUpSpec(g2, fs)
  }

  /** Every sibling list, latency, frequency file and stream `pwr_initialize` needs is there. */
  predicate Initializable(fs: Tree, n: nat, unset: nat -> int)
    requires WellFormed(fs)
  {
    var found := Found(fs, n);
    FirstUnreadable(fs, n) == n && FirstWithoutLatency(fs, found, |found|) == |found| &&
    var o := LevelsPhase(fs, WithLatencies(fs, found, |found|, unset), |found|);
    o.0 && Openable(fs, o.1, |found|)
  }

  /**
   * A second `pwr_initialize` is refused with `PWR_ALREADY_INITIALIZED` and changes
   * nothing; otherwise it returns `PWR_OK` exactly when every file it needs is there,
   * and `PWR_INIT_ERR` else; `initialized` is set exactly on success, and the globals
   * stay consistent.
   */
  lemma InitializeOutcome(g: Globals, fs: Tree, cpuCount: Option<nat>, unset: nat -> int)
    requires WellFormed(fs) && Consistent(g)
    ensures var r := InitializeSpec(g, fs, cpuCount, unset);
      (g.initialized ==> r == (g, AlreadyInitialized)) &&
      (!g.initialized ==>
        (r.1 == Ok <==> cpuCount.Some? && Initializable(fs, cpuCount.value, unset)) &&
        (r.1 == Ok || r.1 == InitErr) &&
        (r.0.initialized <==> r.1 == Ok)) &&
      Consistent(r.0)
  {
  }

  /** The globals once `init_cpu` and `init_islands` have gone through for `n` cpus. */
  function Collected(g: Globals, fs: Tree, n: nat, unset: nat -> int): (r: Globals)
    requires WellFormed(fs) && FirstWithoutLatency(fs, Found(fs, n), |Found(fs, n)|) == |Found(fs, n)|
    ensures Ready(fs, r.islands) && |r.islands| == r.numIslands
  {
    var found := Found(fs, n);
    g.(numCpu := n, numIslands := |found|, islands := WithLatencies(fs, found, |found|, unset))
  }

  /** A successful `pwr_initialize` got through `init_cpu` and `init_islands`, then set up. */
  lemma InitializeSetsUp(g: Globals, fs: Tree, n: nat, unset: nat -> int)
    requires WellFormed(fs) && Consistent(g) && !g.initialized
    requires InitializeSpec(g, fs, Some(n), unset).1 == Ok
    ensures FirstUnreadable(fs, n) == n
    ensures FirstWithoutLatency(fs, Found(fs, n), |Found(fs, n)|) == |Found(fs, n)|
    ensures !Collected(g, fs, n, unset).initialized
    ensures InitializeSpec(g, fs, Some(n), unset) == SetUpSpec(Collected(g, fs, n, unset), fs)
  {
  }

  /**
   * After a successful set-up island `i` is as the level-1 request on its new table
   * left it, and its throttle stream is the `scaling_setspeed` of its first cpu.
   */
  lemma SetUpIsland(g: Globals, fs: Tree, i: nat)
    requires Ready(fs, g.islands) && !g.initialized && |g.islands| == g.numIslands && i < |g.islands|
    requires SetUpSpec(g, fs).1 == Ok
    ensures var r := SetUpSpec(g, fs).0; var o := LevelsPhase(fs, g.islands, |g.islands|);
      r.throttle[i] == ThrottlePath(g.islands[i]) &&
      r.islands[i] == Apply(o.1[i], 1).1 &&
      HasTable(fs, g.islands[i].cpus, o.1[i])
  {
    var o := LevelsPhase(fs, g.islands, |g.islands|);
    LevelsPhaseTables(fs, g.islands, |g.islands|);
    RequestAllAt(Opened(g.(islands := o.1)), g.numIslands, i);
  }

  /** The level-1 request of the set-up on island `i`, as seen from its level fields. */
  lemma SetUpLevelOne(g: Globals, fs: Tree, i: nat)
    requires Ready(fs, g.islands) && !g.initialized && |g.islands| == g.numIslands && i < |g.islands|
    requires SetUpSpec(g, fs).1 == Ok
    ensures var r := SetUpSpec(g, fs).0;
      (r.islands[i].maxLevel >= 1 ==> r.islands[i].current == 1) &&
      (r.islands[i].maxLevel < 1 ==> r.islands[i].current == g.islands[i].current)
  {
    SetUpIsland(g, fs, i);
  }

  /**
   * After a successful `pwr_initialize` island `i` has id `i` and the `i`-th distinct
   * sibling list in discovery order; the lists are pairwise different and every cpu's
   * list is one of them; each table is the frequency file of the island's first cpu,
   * lowest frequency first.
   */
  lemma InitializeIslands(g: Globals, fs: Tree, n: nat, unset: nat -> int)
    requires WellFormed(fs) && Consistent(g) && !g.initialized
    requires InitializeSpec(g, fs, Some(n), unset).1 == Ok
    ensures var r := InitializeSpec(g, fs, Some(n), unset).0; var found := Found(fs, n);
      r.numIslands == |r.islands| == |found| && Distinct(found) &&
      (forall c :: 0 <= c < n ==> CpuList(fs.files[AffectedPath(c)]) in found) &&
      forall i :: 0 <= i < |found| ==>
        r.islands[i].id == i && r.islands[i].cpus == found[i] && HasTable(fs, r.islands[i].cpus, r.islands[i])
  {
    var found := Found(fs, n);
    var g2 := Collected(g, fs, n, unset);
    InitializeSetsUp(g, fs, n, unset);
    SetUpIslands(g2, fs);
    FoundCovers(fs, n);
  }

  /** The set-up keeps the ids and cpus of the islands and gives each its own table. */
  lemma SetUpIslands(g: Globals, fs: Tree)
    requires Ready(fs, g.islands) && !g.initialized && |g.islands| == g.numIslands
    requires SetUpSpec(g, fs).1 == Ok
    ensures var r := SetUpSpec(g, fs).0;
      |r.islands| == |g.islands| &&
      forall i :: 0 <= i < |g.islands| ==>
        r.islands[i].id == g.islands[i].id && r.islands[i].cpus == g.islands[i].cpus &&
        HasTable(fs, r.islands[i].cpus, r.islands[i])
  {
    var r := SetUpSpec(g, fs).0;
    forall i | 0 <= i < |g.islands|
      ensures r.islands[i].id == g.islands[i].id && r.islands[i].cpus == g.islands[i].cpus
      ensures HasTable(fs, r.islands[i].cpus, r.islands[i])
    {
      SetUpIsland(g, fs, i);
    }
  }

  /** When every cpu has a sibling list, each of them is one of the islands found. */
  lemma FoundCovers(fs: Tree, n: nat)
    requires WellFormed(fs) && FirstUnreadable(fs, n) == n
    ensures forall c :: 0 <= c < n ==> CpuList(fs.files[AffectedPath(c)]) in Found(fs, n)
  {
    var xs := Lists(fs, n);
    forall c | 0 <= c < n
      ensures CpuList(fs.files[AffectedPath(c)]) in Found(fs, n)
    {
      assert xs[c] in Found(fs, n);
    }
  }

  /**
   * After a successful `pwr_initialize` every island with a level 1 is at level 1
   * (written now, or already there as a bound); an island with a single frequency
   * keeps the `current_speed_level` `malloc` left.
   */
  lemma InitializeLevelOne(g: Globals, fs: Tree, n: nat, unset: nat -> int, i: nat)
    requires WellFormed(fs) && Consistent(g) && !g.initialized
    requires InitializeSpec(g, fs, Some(n), unset).1 == Ok
    requires i < |Found(fs, n)|
    ensures var r := InitializeSpec(g, fs, Some(n), unset).0;
      (r.islands[i].maxLevel >= 1 ==> r.islands[i].current == 1) &&
      (r.islands[i].maxLevel < 1 ==> r.islands[i].current == unset(i))
  {
    var g2 := Collected(g, fs, n, unset);
    InitializeSetsUp(g, fs, n, unset);
    SetUpLevelOne(g2, fs, i);
    assert g2.islands[i].current == unset(i);
  }

  //===------------------------------------------------------------------------
  // Speed control

  /**
   * A request on a valid island: the status and the island as it is left. A level
   * outside `[min, max]` is refused, and so is a bound level the island is already
   * at; the write itself never reports an error (see `Library.RequestSpeedLevel`).
   */
  function Apply(isl: Island, level: int): (r: (int, Island))
    ensures r.0 == Ok || r.0 == UnsupportedSpeedLevel || r.0 == AlreadyMinMax
    ensures r.0 == Ok <==>
      (isl.minLevel <= level <= isl.maxLevel &&
       !((level == isl.minLevel || level == isl.maxLevel) && level == isl.current))
    ensures r.1 == if r.0 == Ok then isl.(current := level) else isl
  {
    if level < isl.minLevel || level > isl.maxLevel then (UnsupportedSpeedLevel, isl)
    else if (level == isl.minLevel || level == isl.maxLevel) && level == isl.current then (AlreadyMinMax, isl)
    else (Ok, isl.(current := level))
  }

  /**
   * `pwr_request_speed_level(island, new_level)`: `PWR_UNINITIALIZED` before
   * `pwr_initialize`, `PWR_INVALID_ISLAND` for a negative or too large id, then the
   * checks of `Apply`. On success the level's frequency is written to the island's
   * throttle stream; every failure changes nothing.
   */
  function Request(g: Globals, island: int, level: int): (r: (Globals, int))
    requires Consistent(g)
    ensures Consistent(r.0)
    ensures r.1 != Ok ==> r.0 == g
    ensures r.1 != DvfsErr
    ensures !g.initialized ==> r.1 == Uninitialized
    ensures g.initialized && (island < 0 || island >= g.numIslands) ==> r.1 == InvalidIsland
    ensures r.0.initialized == g.initialized && r.0.numIslands == g.numIslands
    ensures r.0.throttle == g.throttle && r.0.speed == g.speed && |r.0.islands| == |g.islands|
  {
    if !g.initialized then (g, Uninitialized)
    else if island < 0 || island >= g.numIslands then (g, InvalidIsland)
    else
      var (e, isl) := Apply(g.islands[island], level);
      if e != Ok then (g, e)
      else
        var r := g.(islands := g.islands[island := isl],
          log := g.log + [Write(g.throttle[island], FormatLong(g.islands[island].freqs[level]))]);
        assert forall i :: 0 <= i < |r.islands| ==> TableShape(r.islands[i]);
        (r, Ok)
  }

  /** A request touches only its own island: the others are left as they were. */
  lemma RequestOthers(g: Globals, island: int, level: int, j: int)
    requires Consistent(g) && g.initialized && 0 <= j < g.numIslands && j != island
    ensures Request(g, island, level).0.islands[j] == g.islands[j]
  {
  }

  /**
   * After the level-1 requests over the first `k` islands, each of them is as its
   * own request left it and the others are untouched: the requests do not interfere.
   */
  lemma {:induction false} RequestAllAt(g: Globals, k: nat, i: nat)
    requires Consistent(g) && g.initialized && k <= g.numIslands && i < g.numIslands
    ensures RequestAll(g, k).islands[i] == if i < k then Apply(g.islands[i], 1).1 else g.islands[i]
  {
    if k > 0 {
      RequestAllAt(g, k - 1, i);
      var h := RequestAll(g, k - 1);
      if i != k - 1 {
        RequestOthers(h, k - 1, 1, i);
      } else {
        RequestAllAt(g, k - 1, k - 1);
      }
    }
  }

  /**
   * The status and the value of `pwr_current_speed_level(island, &level)`. The value
   * is 0 where the source leaves the out-parameter unwritten.
   */
  function CurrentSpeedLevel(g: Globals, island: int): (r: (int, int))
    requires Consistent(g)
    ensures !g.initialized ==> r.0 == Uninitialized
    ensures g.initialized && (island < 0 || island >= g.numIslands) ==> r.0 == InvalidIsland
    ensures r.0 == Ok <==> g.initialized && 0 <= island < g.numIslands
    ensures r.0 == Ok ==> r.1 == g.islands[island].current
  {
    if !g.initialized then (Uninitialized, 0)
    else if island < 0 || island >= g.numIslands then (InvalidIsland, 0)
    else (Ok, g.islands[island].current)
  }

  /** The status and the value of `pwr_num_speed_levels(island, &num)`. */
  function NumSpeedLevels(g: Globals, island: int): (r: (int, int))
    requires Consistent(g)
    ensures !g.initialized ==> r.0 == Uninitialized
    ensures g.initialized && (island < 0 || island >= g.numIslands) ==> r.0 == InvalidIsland
    ensures r.0 == Ok <==> g.initialized && 0 <= island < g.numIslands
    ensures r.0 == Ok ==> r.1 == |g.islands[island].freqs|
  {
    if !g.initialized then (Uninitialized, 0)
    else if island < 0 || island >= g.numIslands then (InvalidIsland, 0)
    else (Ok, g.islands[island].numSpeedLevels)
  }

  /**
   * `pwr_modify_speed_level(island, delta, bottom)`: the level `delta` away from the
   * current one is requested (`bottom` is ignored). For an invalid island the level
   * read is never set, but the request refuses the island before looking at it.
   */
  function Modify(g: Globals, island: int, delta: Int32): (r: (Globals, int))
    requires Consistent(g)
  {
    if !g.initialized then (g, Uninitialized)
    else Request(g, island, CurrentSpeedLevel(g, island).1 + delta)
  }

  /**
   * Moving by `delta` is requesting the level `delta` away, and a move below level 0
   * or beyond the maximum level is refused and changes nothing.
   */
  lemma ModifyIsRequest(g: Globals, island: int, delta: Int32)
    requires Consistent(g) && g.initialized && 0 <= island < g.numIslands
    ensures var cur := g.islands[island].current;
      Modify(g, island, delta) == Request(g, island, cur + delta)
    ensures var cur := g.islands[island].current;
      cur + delta < 0 || cur + delta > g.islands[island].maxLevel ==>
        Modify(g, island, delta) == (g, UnsupportedSpeedLevel)
  {
  }

  /**
   * A successful request makes the island report the level, writes the level's
   * frequency to its throttle stream and leaves the other islands alone; asking again
   * for a bound level just reached is refused with `PWR_ALREADY_MINMAX`.
   */
  lemma RequestThenQuery(g: Globals, island: int, level: int)
    requires Consistent(g)
    requires Request(g, island, level).1 == Ok
    ensures var r := Request(g, island, level).0;
      CurrentSpeedLevel(r, island) == (Ok, level) &&
      r.log == g.log + [Write(g.throttle[island], FormatLong(g.islands[island].freqs[level]))] &&
      (forall j :: 0 <= j < |g.islands| && j != island ==> r.islands[j] == g.islands[j]) &&
      (level == 0 || level == g.islands[island].maxLevel ==> Request(r, island, level) == (r, AlreadyMinMax))
  {
  }

  /**
   * The status and the two values of `pwr_agility(island, from, to, &best, &worst)`:
   * the island's latency as both the best and the worst case, whatever the levels.
   * The island id is not checked, so it must be valid.
   */
  function Agility(g: Globals, island: int, from: int, to: int): (r: (int, int, int))
    requires Consistent(g)
    requires g.initialized ==> 0 <= island < g.numIslands
    ensures !g.initialized ==> r.0 == Uninitialized
    ensures g.initialized ==> r == (Ok, g.islands[island].agility, g.islands[island].agility)
  {
    if !g.initialized then (Uninitialized, 0, 0)
    else (Ok, g.islands[island].agility, g.islands[island].agility)
  }

  /** The answer does not depend on the two levels. */
  lemma AgilitySymmetric(g: Globals, island: int, a: int, b: int, c: int, d: int)
    requires Consistent(g) && g.initialized && 0 <= island < g.numIslands
    ensures Agility(g, island, a, b) == Agility(g, island, c, d)
    ensures Agility(g, island, a, b).1 == Agility(g, island, a, b).2
  {
  }

  /** `pwr_modify_voltage(island, delta)`: not implemented once initialized. */
  function ModifyVoltage(g: Globals, island: int, delta: Int32): (r: int)
    ensures r == (if g.initialized then Unimplemented else Uninitialized)
  {
    if !g.initialized then Uninitialized else Unimplemented
  }

  //===------------------------------------------------------------------------
  // The other accessors

  /** `pwr_is_initialized(&flag)`: always `PWR_OK`, with the flag. */
  function IsInitialized(g: Globals): (r: (int, bool))
    ensures r.0 == Ok && r.1 == g.initialized
  {
    (Ok, g.initialized)
  }

  /** `pwr_num_islands(&num)` and `pwr_num_cpu(&num)`: the count once initialized. */
  function Count(g: Globals, value: int): (r: (int, int))
    ensures r.0 == Ok <==> g.initialized
    ensures !g.initialized ==> r.0 == Uninitialized
    ensures g.initialized ==> r.1 == value
  {
    if !g.initialized then (Uninitialized, 0) else (Ok, value)
  }

  /** `pwr_islands(ids)`: the loop that copies the id of every island. */
  method IslandIds(g: Globals) returns (code: int, ids: seq<int>)
    requires Consistent(g)
    ensures code == (if g.initialized then Ok else Uninitialized)
    ensures g.initialized ==>
      |ids| == g.numIslands && forall i :: 0 <= i < g.numIslands ==> ids[i] == g.islands[i].id
  {
    if !g.initialized {
      return Uninitialized, [];
    }
    ids := [];
    var i := 0;
    while i < g.numIslands
      invariant 0 <= i <= g.numIslands && |ids| == i
      invariant forall j :: 0 <= j < i ==> ids[j] == g.islands[j].id
    {
      ids := ids + [g.islands[i].id];
      i := i + 1;
    }
    return Ok, ids;
  }

  /**
   * Every accessor refuses with `PWR_UNINITIALIZED` before `pwr_initialize`, and
   * answers `PWR_OK` right after a successful one, with the ids `0 .. num-1`.
   */
  lemma AccessorsAroundInitialize(g: Globals, fs: Tree, n: nat, unset: nat -> int, island: int)
    requires WellFormed(fs) && Consistent(g) && !g.initialized
    requires InitializeSpec(g, fs, Some(n), unset).1 == Ok
    ensures Count(g, g.numIslands).0 == Uninitialized && NumSpeedLevels(g, island).0 == Uninitialized
    ensures CurrentSpeedLevel(g, island).0 == Uninitialized
    ensures var r := InitializeSpec(g, fs, Some(n), unset).0;
      Count(r, r.numIslands) == (Ok, |Found(fs, n)|) && Count(r, r.numCpu) == (Ok, n) &&
      (0 <= island < r.numIslands ==> NumSpeedLevels(r, island).0 == Ok && CurrentSpeedLevel(r, island).0 == Ok) &&
      forall i :: 0 <= i < r.numIslands ==> r.islands[i].id == i
  {
    InitializeOutcome(g, fs, Some(n), unset);
    InitializeIslands(g, fs, n, unset);
  }

  //===------------------------------------------------------------------------
  // pwr_finalize

  /** `pwr_finalize()`: refused before `pwr_initialize`; otherwise everything is released. */
  function FinalizeSpec(g: Globals): (r: (Globals, int))
    ensures !g.initialized ==> r == (g, Uninitialized)
    ensures g.initialized ==> r.1 == Ok && !r.0.initialized && r.0.throttle == [] && r.0.speed == []
  {
    if !g.initialized then (g, Uninitialized)
    else (g.(initialized := false, islands := [], throttle := [], speed := []), Ok)
  }

  /** After `pwr_finalize` the library can be initialized again, and a second finalize is refused. */
  lemma FinalizeThenInitialize(g: Globals, fs: Tree, cpuCount: Option<nat>, unset: nat -> int)
    requires WellFormed(fs) && g.initialized
    ensures Consistent(FinalizeSpec(g).0)
    ensures InitializeSpec(FinalizeSpec(g).0, fs, cpuCount, unset).1 != AlreadyInitialized
    ensures FinalizeSpec(FinalizeSpec(g).0).1 == Uninitialized
  {
    InitializeOutcome(FinalizeSpec(g).0, fs, cpuCount, unset);
  }

  //===------------------------------------------------------------------------
  // pwr_energy_counter

  const Billion: int := 1_000_000_000

  /** What `pwr_energy_counter` reports. */
  datatype Reading = Reading(code: int, joules: int, microJoules: int, time: Option<(int, int)>)

  /**
   * `pwr_energy_counter(island, ...)` for the first counter value `v` (in nanojoules)
   * and the monotonic clock `clock`: whole joules and the micro-joules beyond them,
   * with C's truncating `/` and `%`; `PWR_ERR`, and no timestamp, when the joules are 0.
   */
  function EnergyCounter(v: int, clock: (int, int)): (r: Reading)
    ensures r.joules == CDiv(v, Billion) && r.microJoules == CDiv(CRem(v, Billion), 1000)
    ensures r.code == Err <==> r.joules == 0
    ensures r.code == Ok <==> r.joules != 0
    ensures r.time.Some? <==> r.code == Ok
    ensures r.time.Some? ==> r.time.value == clock
  {
    var joules := CDiv(v, Billion);
    var micro := CDiv(CRem(v, Billion), 1000);
    if joules == 0 then Reading(Err, joules, micro, None) else Reading(Ok, joules, micro, Some(clock))
  }

  /**
   * For a non-negative count the two parts recompose it up to the nanojoules below a
   * microjoule, the micro-joule part is below a million, and the status is `PWR_ERR`
   * exactly for less than one joule.
   */
  lemma EnergySplit(v: int, clock: (int, int))
    requires v >= 0
    ensures var r := EnergyCounter(v, clock);
      v == r.joules * Billion + r.microJoules * 1000 + v % 1000 &&
      0 <= r.microJoules < 1_000_000 &&
      (r.code == Err <==> v < Billion)
  {
    var r := EnergyCounter(v, clock);
    assert r.joules == v / Billion;
    assert r.microJoules == (v % Billion) / 1000;
    assert v % Billion == (v % Billion) / 1000 * 1000 + (v % Billion) % 1000;
    assert (v % Billion) % 1000 == v % 1000 by {
      assert v == (v / Billion) * Billion + v % Billion;
      assert Billion == 1000 * 1_000_000;
      ModThousand(v / Billion, v % Billion);
    }
  }

  lemma ModThousand(q: int, m: nat)
    ensures (q * Billion + m) % 1000 == m % 1000
  {
    assert q * Billion + m == (q * 1_000_000) * 1000 + m;
  }

  /** Negative counts split the same way, both parts taking the sign of the count. */
  lemma EnergyNegative(v: int, clock: (int, int))
    requires v < 0
    ensures var r := EnergyCounter(v, clock);
      r.joules == -EnergyCounter(-v, clock).joules && r.microJoules == -EnergyCounter(-v, clock).microJoules &&
      (r.code == Err <==> -v < Billion)
  {
  }
}
