/**
 * `src/dvfs.c`: the speed-level tables of the islands, built from cpufreq, and
 * the requests that move an island to another level through its throttle file.
 */
module Dvfs {
  import opened Machine
  import opened Text
  import opened Codes
  import opened Sysfs
  import opened Seqs
  import opened Context

  //===------------------------------------------------------------------------
  // The frequency comparator and the sort through it

  /** `compare_freq` as written: the `long` difference narrowed to `gint`. */
  function CompareFreqAsWritten(f0: int, f1: int): (r: Int32)
    ensures (r - (f1 - f0)) % Two32 == 0
  {
    ToInt32(f1 - f0)
  }

  /**
   * On frequencies `atoi` can return it is not an order: 2^31 - 1 comes before 0,
   * 0 before -2, and -2 before 2^31 - 1 again.
   */
  lemma CompareFreqAsWrittenCycles()
    ensures CompareFreqAsWritten(Two31 - 1, 0) < 0
    ensures CompareFreqAsWritten(0, -2) < 0
    ensures CompareFreqAsWritten(-2, Two31 - 1) < 0
  {
  }

  /**
   * The comparison the comment of `compare_freq` describes, negative when `f0` is the
   * higher frequency; the `compare_freq` of the older library computes exactly this.
   */
  function CompareFreq(f0: int, f1: int): (r: int)
    ensures r < 0 <==> f0 > f1
    ensures r == 0 <==> f0 == f1
    ensures r > 0 <==> f0 < f1
  {
    if f0 > f1 then -1 else if f0 < f1 then 1 else 0
  }

  /** On values it would be the highest-first order. */
  lemma CompareFreqOrders(a: int, b: int)
    ensures CompareFreq(a, b) <= 0 <==> InOrder(a, b, true)
    ensures CompareFreq(a, b) == -CompareFreq(b, a)
  {
  }

  /**
   * The `g_array_sort` of `sort_and_cast_freqs` as written: through the
   * `(GCompareFunc)` cast, `compare_freq` receives the addresses of two elements of
   * the array at `base` and returns their difference, the later one minus the earlier.
   */
  function SortFreqsAsWritten(freqs: seq<int>, base: int): seq<int> {
    AddressSort(freqs, base, (p, q) => CompareFreqAsWritten(p, q) as int)
  }

  /**
   * Two elements of an array of up to `MaxSpeedLevels` frequencies lie less than 2^31
   * bytes apart, so every comparison asks for the later element first, and the sort
   * returns the frequencies in the reverse of the file's order, whatever their values.
   */
  lemma SortFreqsAsWrittenReverses(freqs: seq<int>, base: int)
    requires |freqs| <= MaxSpeedLevels
    ensures SortFreqsAsWritten(freqs, base) == Reverse(freqs)
  {
    var cmp := (p, q) => CompareFreqAsWritten(p, q) as int;
    forall p, q | base <= p < q < base + Stride * |freqs|
      ensures cmp(p, q) > 0
    {
      assert 0 < q - p < Two31;
    }
    AddressSortReverses(freqs, base, cmp);
  }

  /**
   * The kernel lists `scaling_available_frequencies` from the highest frequency down;
   * on such a file the table as written is the ascending table `Table` describes.
   */
  lemma SortFreqsAsWrittenOnKernelFile(freqs: seq<int>, base: int)
    requires |freqs| <= MaxSpeedLevels && Sorted(freqs, true)
    ensures SortFreqsAsWritten(freqs, base) == Sort(freqs, false)
  {
    SortFreqsAsWrittenReverses(freqs, base);
    ReverseSorted(freqs);
    ReverseMultiset(freqs);
    SortSorted(freqs, false);
    SortedUnique(Reverse(freqs), Sort(freqs, false), false);
  }

  /**
   * On a file in any other order the table as written is not sorted: 800000,
   * 2400000, 1800000 becomes 1800000, 2400000, 800000.
   */
  lemma SortFreqsAsWrittenUnsorted(base: int)
    ensures SortFreqsAsWritten([800000, 2400000, 1800000], base) == [1800000, 2400000, 800000]
    ensures !Sorted([1800000, 2400000, 800000], false) && !Sorted([1800000, 2400000, 800000], true)
  {
    var freqs, t := [800000, 2400000, 1800000], [1800000, 2400000, 800000];
    SortFreqsAsWrittenReverses(freqs, base);
    assert Reverse(freqs) == t;
    assert !InOrder(t[1], t[2], false);
    assert !InOrder(t[0], t[1], true);
  }

  //===------------------------------------------------------------------------
  // Queries and requests

  /** The island index is one `pwr_request_speed_level` and the queries accept. */
  predicate ValidIsland(s: State, island: ULong) {
    Initialized(s, ModuleDvfs) && island < s.numPhysIslands
  }

  /**
   * What `pwr_num_speed_levels` and `pwr_current_speed_level` check before they read
   * an island: `PWR_UNINITIALIZED` without DVFS, `PWR_INVALID_ISLAND` beyond the count.
   */
  function IslandCheck(s: State, island: ULong): (e: int)
    ensures e == Ok <==> ValidIsland(s, island)
    ensures !Initialized(s, ModuleDvfs) ==> e == Uninitialized
    ensures Initialized(s, ModuleDvfs) && island >= s.numPhysIslands ==> e == InvalidIsland
  {
    if !Initialized(s, ModuleDvfs) then Uninitialized
    else if island >= s.numPhysIslands then InvalidIsland
    else Ok
  }

  /** The status and the result of `pwr_num_speed_levels`: 0 unless the island is valid. */
  function NumSpeedLevels(s: State, island: ULong): (r: (int, UInt))
    requires Consistent(s)
    ensures r.0 == IslandCheck(s, island)
    ensures r.0 != Ok ==> r.1 == 0
    ensures r.0 == Ok ==> r.1 == |s.islands[island].freqs|
  {
    var e := IslandCheck(s, island);
    if e != Ok then (e, 0) else (Ok, s.islands[island].numSpeedLevels)
  }

  /** The status and the result of `pwr_current_speed_level`: a level in `[0, num)` for a valid island. */
  function CurrentSpeedLevel(s: State, island: ULong): (r: (int, UInt))
    requires Consistent(s)
    ensures r.0 == IslandCheck(s, island)
    ensures r.0 != Ok ==> r.1 == 0
    ensures r.0 == Ok ==> r.1 == s.islands[island].current < |s.islands[island].freqs|
  {
    var e := IslandCheck(s, island);
    if e != Ok then (e, 0) else (Ok, s.islands[island].current)
  }

  /** `pwr_num_speed_levels(ctx, island)` */
  method NumSpeedLevelsOf(ctx: Context, island: ULong) returns (r: UInt)
    requires Consistent(ctx.Snapshot())
    modifies ctx
    ensures (ctx.error, r) == NumSpeedLevels(old(ctx.Snapshot()), island)
    ensures ctx.Snapshot() == old(ctx.Snapshot()).(error := ctx.error)
  {
    if !HasModule(ctx.moduleInit, ModuleDvfs) {
      ctx.error := Uninitialized;
      return 0;
    }
    if island >= ctx.numPhysIslands {
      ctx.error := InvalidIsland;
      return 0;
    }
    ctx.error := Ok;
    return ctx.islands[island].numSpeedLevels;
  }

  /** `pwr_current_speed_level(ctx, island)` */
  method CurrentSpeedLevelOf(ctx: Context, island: ULong) returns (r: UInt)
    requires Consistent(ctx.Snapshot())
    modifies ctx
    ensures (ctx.error, r) == CurrentSpeedLevel(old(ctx.Snapshot()), island)
    ensures ctx.Snapshot() == old(ctx.Snapshot()).(error := ctx.error)
  {
    if !HasModule(ctx.moduleInit, ModuleDvfs) {
      ctx.error := Uninitialized;
      return 0;
    }
    if island >= ctx.numPhysIslands {
      ctx.error := InvalidIsland;
      return 0;
    }
    ctx.error := Ok;
    return ctx.islands[island].current;
  }

  /** The level is one of the two bounds and the island is already there. */
  predicate AtBound(isl: Island, level: int) {
    (level == isl.minLevel || level == isl.maxLevel) && level == isl.current
  }

  /**
   * `pwr_request_speed_level(ctx, island, level)`, where `accepted` says whether the
   * kernel takes the text when `fflush` hands it over. A stream whose error indicator
   * is set fails the `ferror` check after `fprintf`; a failed flush sets that
   * indicator, and nothing in the module clears it (the `rewind` is commented out),
   * so every later request that reaches the write fails too. On success the
   * frequency of the level is written to the island's throttle file and the level
   * becomes current.
   */
  function Request(s: State, island: ULong, level: UInt, accepted: bool): State
    requires Consistent(s)
  {
    if !ValidIsland(s, island) then s.(error := IslandCheck(s, island))
    else
      var isl := s.islands[island];
      if level < isl.minLevel || level > isl.maxLevel then s.(error := UnsupportedSpeedLevel)
      else if AtBound(isl, level) then s.(error := AlreadyMinMax)
      else if island in s.throttleErrors then s.(error := DvfsErr)
      else if !accepted then s.(error := DvfsErr, throttleErrors := s.throttleErrors + {island})
      else s.(islands := s.islands[island := isl.(current := level)],
              log := s.log + [Write(s.throttle[island], FormatLong(isl.freqs[level]))],
              error := Ok)
  }

  method RequestSpeedLevel(ctx: Context, island: ULong, level: UInt, accepted: bool)
    requires Consistent(ctx.Snapshot())
    modifies ctx
    ensures ctx.Snapshot() == Request(old(ctx.Snapshot()), island, level, accepted)
  {
    if !HasModule(ctx.moduleInit, ModuleDvfs) {
      ctx.error := Uninitialized;
      return;
    }
    if island >= ctx.numPhysIslands {
      ctx.error := InvalidIsland;
      return;
    }
    var isl := ctx.islands[island];
    if level < isl.minLevel || level > isl.maxLevel {
      ctx.error := UnsupportedSpeedLevel;
      return;
    }
    if (level == isl.minLevel || level == isl.maxLevel) && level == isl.current {
      ctx.error := AlreadyMinMax;
      return;
    }
    if island in ctx.throttleErrors {
      ctx.error := DvfsErr;
      return;
    }
    if !accepted {
      ctx.throttleErrors := ctx.throttleErrors + {island};
      ctx.error := DvfsErr;
      return;
    }
    ctx.log := ctx.log + [Write(ctx.throttle[island], FormatLong(isl.freqs[level]))];
    ctx.islands := ctx.islands[island := isl.(current := level)];
    ctx.error := Ok;
  }

  /**
   * A request succeeds exactly when DVFS is set, the island and the level are valid,
   * the island is not already at that bound, its stream has not failed before and the
   * write is accepted. A failure changes the status, and a refused flush also marks
   * the island's stream as failed; nothing else changes.
   */
  lemma RequestOutcome(s: State, island: ULong, level: UInt, accepted: bool)
    requires Consistent(s)
    ensures var r := Request(s, island, level, accepted);
      (r.error == Ok <==> (ValidIsland(s, island) && level < |s.islands[island].freqs| &&
        !AtBound(s.islands[island], level) && island !in s.throttleErrors && accepted)) &&
      (r.error != Ok ==> r == s.(error := r.error, throttleErrors := r.throttleErrors)) &&
      (r.error != DvfsErr ==> r.throttleErrors == s.throttleErrors) &&
      (r.error == DvfsErr ==> r.throttleErrors == s.throttleErrors + {island})
  {
  }

  /**
   * After a successful request the island reports the requested level, the frequency
   * of that level was written to its throttle file, and the other islands are untouched.
   */
  lemma RequestSucceeds(s: State, island: ULong, level: UInt)
    requires Consistent(s)
    requires Request(s, island, level, true).error == Ok
    ensures Consistent(Request(s, island, level, true))
    ensures var r := Request(s, island, level, true);
      CurrentSpeedLevel(r, island) == (Ok, level) &&
      r.log == s.log + [Write(s.throttle[island], FormatLong(s.islands[island].freqs[level]))] &&
      |r.islands| == |s.islands| &&
      (forall j :: 0 <= j < |s.islands| && j != island ==> r.islands[j] == s.islands[j]) &&
      r.islands[island] == s.islands[island].(current := level)
  {
    RequestConsistent(s, island, level, true);
  }

  /** A request keeps the context consistent. */
  lemma RequestConsistent(s: State, island: ULong, level: UInt, accepted: bool)
    requires Consistent(s)
    ensures Consistent(Request(s, island, level, accepted))
  {
    var r := Request(s, island, level, accepted);
    if r.error == Ok {
      var isl := s.islands[island];
      var moved := s.(islands := s.islands[island := isl.(current := level)]);
      CurrentMoves(s, island, level);
      ConsistentFrame(moved, r);
    } else {
      ConsistentFrame(s, r);
    }
  }

  /** Moving the current level of one island inside its table keeps the context consistent. */
  lemma CurrentMoves(s: State, island: ULong, level: UInt)
    requires Consistent(s) && ValidIsland(s, island)
    requires level <= s.islands[island].maxLevel
    ensures Consistent(s.(islands := s.islands[island := s.islands[island].(current := level)]))
  {
    var isls := s.islands[island := s.islands[island].(current := level)];
    forall j | 0 <= j < |isls|
      ensures LevelsReady(isls[j]) && isls[j].cpus == s.islands[j].cpus
    {
    }
  }

  /** Asking again for a bound level that was just reached is refused with `PWR_ALREADY_MINMAX`. */
  lemma RequestBoundTwice(s: State, island: ULong, level: UInt, accepted: bool)
    requires Consistent(s)
    requires Request(s, island, level, true).error == Ok
    requires level == s.islands[island].minLevel || level == s.islands[island].maxLevel
    ensures var r := Request(s, island, level, true);
      Consistent(r) && Request(r, island, level, accepted) == r.(error := AlreadyMinMax)
  {
    RequestSucceeds(s, island, level);
    RequestConsistent(s, island, level, true);
  }

  /**
   * Once a request on an island fails with `PWR_DVFS_ERR`, its stream stays failed:
   * no later request on that island succeeds, whatever the kernel would do with the
   * write, and requests on any island keep it failed.
   */
  lemma RequestErrorSticks(s: State, island: ULong, level: UInt, accepted: bool,
                           other: ULong, level2: UInt, accepted2: bool)
    requires Consistent(s)
    requires Request(s, island, level, accepted).error == DvfsErr
    ensures var r := Request(s, island, level, accepted);
      Consistent(r) && island in r.throttleErrors &&
      Request(r, island, level2, accepted2).error != Ok &&
      island in Request(r, other, level2, accepted2).throttleErrors
  {
    RequestOutcome(s, island, level, accepted);
    RequestConsistent(s, island, level, accepted);
    var r := Request(s, island, level, accepted);
    RequestOutcome(r, island, level2, accepted2);
    RequestOutcome(r, other, level2, accepted2);
  }

  /**
   * `pwr_increase_speed_level(ctx, island, delta)`: the current level is read with
   * `pwr_current_speed_level` (which sets the status), and the `unsigned int` sum of
   * it and `delta` is requested.
   */
  function Increase(s: State, island: ULong, delta: Int32, accepted: bool): State
    requires Consistent(s)
  {
    if !Initialized(s, ModuleDvfs) then s.(error := Uninitialized)
    else
      var cur := CurrentSpeedLevel(s, island);
      Request(s.(error := cur.0), island, ToUInt(cur.1 + delta), accepted)
  }

  method IncreaseSpeedLevel(ctx: Context, island: ULong, delta: Int32, accepted: bool)
    requires Consistent(ctx.Snapshot())
    modifies ctx
    ensures ctx.Snapshot() == Increase(old(ctx.Snapshot()), island, delta, accepted)
  {
    if !HasModule(ctx.moduleInit, ModuleDvfs) {
      ctx.error := Uninitialized;
      return;
    }
    var current := CurrentSpeedLevelOf(ctx, island);
    RequestSpeedLevel(ctx, island, ToUInt(current + delta), accepted);
  }

  /**
   * Moving by `delta` is requesting the level `delta` away; moving below level 0
   * wraps around to a huge `unsigned int` and is refused as an unsupported level.
   */
  lemma IncreaseIsRequest(s: State, island: ULong, delta: Int32, accepted: bool)
    requires Consistent(s) && ValidIsland(s, island)
    ensures var cur := s.islands[island].current;
      (0 <= cur + delta ==> Increase(s, island, delta, accepted) == Request(s, island, cur + delta, accepted)) &&
      (cur + delta < 0 ==> Increase(s, island, delta, accepted) == s.(error := UnsupportedSpeedLevel))
  {
    var cur := s.islands[island].current;
    assert s.(error := Ok) == s.(error := s.error).(error := Ok);
    if 0 <= cur + delta {
      assert ToUInt(cur + delta) == cur + delta;
    }
  }

  /**
   * The status and the result of `pwr_agility(ctx, island, from, to)`: the island's
   * transition latency whatever the two levels are, once both are valid. The island
   * index is not checked, so it must be valid.
   */
  function Agility(s: State, island: ULong, from: UInt, to: UInt): (r: (int, int))
    requires Consistent(s)
    requires Initialized(s, ModuleDvfs) ==> island < s.numPhysIslands
    ensures !Initialized(s, ModuleDvfs) ==> r == (Uninitialized, 0)
    ensures Initialized(s, ModuleDvfs) ==>
      (r.0 == Ok <==> from < |s.islands[island].freqs| && to < |s.islands[island].freqs|)
    ensures r.0 == Ok ==> r.1 == s.islands[island].agility
    ensures r.0 != Ok ==> r.1 == 0 && (r.0 == Uninitialized || r.0 == UnsupportedSpeedLevel)
  {
    if !Initialized(s, ModuleDvfs) then (Uninitialized, 0)
    else
      var isl := s.islands[island];
      if from < isl.minLevel || from > isl.maxLevel then (UnsupportedSpeedLevel, 0)
      else if to < isl.minLevel || to > isl.maxLevel then (UnsupportedSpeedLevel, 0)
      else (Ok, isl.agility)
  }

  method AgilityOf(ctx: Context, island: ULong, from: UInt, to: UInt) returns (r: int)
    requires Consistent(ctx.Snapshot())
    requires Initialized(ctx.Snapshot(), ModuleDvfs) ==> island < ctx.numPhysIslands
    modifies ctx
    ensures (ctx.error, r) == Agility(old(ctx.Snapshot()), island, from, to)
    ensures ctx.Snapshot() == old(ctx.Snapshot()).(error := ctx.error)
  {
    if !HasModule(ctx.moduleInit, ModuleDvfs) {
      ctx.error := Uninitialized;
      return 0;
    }
    var isl := ctx.islands[island];
    if from < isl.minLevel || from > isl.maxLevel || to < isl.minLevel || to > isl.maxLevel {
      ctx.error := UnsupportedSpeedLevel;
      return 0;
    }
    ctx.error := Ok;
    return isl.agility;
  }

  /** `pwr_increase_voltage(ctx, island, delta)`: voltage control is not implemented. */
  method IncreaseVoltage(ctx: Context?, island: ULong, delta: Int32)
    modifies ctx
    ensures ctx != null ==> ctx.Snapshot() == old(ctx.Snapshot()).(error := Unimplemented)
  {
    if ctx != null {
      ctx.error := Unimplemented;
    }
  }

  //===------------------------------------------------------------------------
  // init_speed_levels, phase 1: the governors

  /** The `scaling_governor` file of cpu `c`. */
  function GovernorPath(c: ULong): string {
    Filename(c, "scaling_governor")
  }

  /**
   * The governor of cpu `c`: `PWR_ARCH_UNSUPPORTED` when its file cannot be read,
   * `PWR_UNAVAILABLE` unless it starts with "userspace".
   */
  function GovernorAt(fs: Tree, c: ULong): (e: int)
    ensures e == Ok || e == ArchUnsupported || e == Unavailable
    ensures e == ArchUnsupported <==> GovernorPath(c) !in fs.files
  {
    var p := GovernorPath(c);
    if p !in fs.files then ArchUnsupported
    else if |fs.files[p]| >= 9 && fs.files[p][..9] == "userspace" then Ok
    else Unavailable
  }

  /** The first failing governor among the cpus `0 .. n-1`, or `PWR_OK`. */
  function GovernorScan(fs: Tree, n: ULong): (e: int)
    ensures e == Ok || e == ArchUnsupported || e == Unavailable
    ensures e == Ok <==> forall c :: 0 <= c < n ==> GovernorAt(fs, c) == Ok
  {
    if n == 0 then Ok
    else
      var e := GovernorScan(fs, n - 1);
      if e != Ok then e else GovernorAt(fs, n - 1)
  }

  /**
   * The governor check of `init_speed_levels`, as written: for an island of `k`
   * cpus it checks the cpus numbered `0 .. k-1`, not the island's own cpus.
   */
  function GovernorPhase(fs: Tree, isls: seq<Island>): int
    requires forall i :: 0 <= i < |isls| ==> |isls[i].cpus| < Two64
  {
    if isls == [] then Ok
    else
      var e := GovernorPhase(fs, isls[..|isls| - 1]);
      if e != Ok then e else GovernorScan(fs, |isls[|isls| - 1].cpus|)
  }

  /** Scanning further finds the same first failure, if the shorter scan found one. */
  lemma {:induction false} GovernorScanExtends(fs: Tree, m: ULong, n: ULong)
    requires m <= n
    ensures GovernorScan(fs, m) != Ok ==> GovernorScan(fs, n) == GovernorScan(fs, m)
    ensures GovernorScan(fs, n) == Ok ==> GovernorScan(fs, m) == Ok
  {
    if m < n {
      GovernorScanExtends(fs, m, n - 1);
    }
  }

  /** Once an island fails the check, the islands after it are not looked at. */
  lemma {:induction false} GovernorPhasePrefix(fs: Tree, isls: seq<Island>, k: nat)
    requires forall i :: 0 <= i < |isls| ==> |isls[i].cpus| < Two64
    requires k <= |isls|
    requires GovernorPhase(fs, isls[..k]) != Ok
    ensures GovernorPhase(fs, isls) == GovernorPhase(fs, isls[..k])
  {
    if k < |isls| {
      var init := isls[..|isls| - 1];
      assert init[..k] == isls[..k];
      GovernorPhasePrefix(fs, init, k);
    } else {
      assert isls[..k] == isls;
    }
  }

  /** The largest island size. */
  function MaxCpus(isls: seq<Island>): (m: nat)
    ensures forall i :: 0 <= i < |isls| ==> |isls[i].cpus| <= m
    ensures isls != [] ==> exists i :: 0 <= i < |isls| && |isls[i].cpus| == m
  {
    if isls == [] then 0
    else
      var m := MaxCpus(isls[..|isls| - 1]);
      assert forall i :: 0 <= i < |isls| - 1 ==> isls[..|isls| - 1][i] == isls[i];
      if |isls[|isls| - 1].cpus| > m then |isls[|isls| - 1].cpus| else m
  }

  /**
   * The whole governor phase amounts to checking the cpus `0 .. m-1`, with `m` the
   * size of the largest island: the governors of the islands' real cpus above `m`
   * are never looked at.
   */
  lemma {:induction false} GovernorPhaseWidest(fs: Tree, isls: seq<Island>)
    requires forall i :: 0 <= i < |isls| ==> |isls[i].cpus| < Two64
    ensures MaxCpus(isls) < Two64
    ensures GovernorPhase(fs, isls) == GovernorScan(fs, MaxCpus(isls))
  {
    if isls != [] {
      var init := isls[..|isls| - 1];
      var last := |isls[|isls| - 1].cpus|;
      assert forall i :: 0 <= i < |init| ==> init[i] == isls[i];
      GovernorPhaseWidest(fs, init);
      var m := MaxCpus(init);
      if last > m {
        GovernorScanExtends(fs, m, last);
      } else {
        GovernorScanExtends(fs, last, m);
      }
    }
  }

  /** The check fails only for a missing governor file or a governor other than userspace. */
  lemma {:induction false} GovernorPhaseRange(fs: Tree, isls: seq<Island>)
    requires forall i :: 0 <= i < |isls| ==> |isls[i].cpus| < Two64
    ensures var e := GovernorPhase(fs, isls); e == Ok || e == ArchUnsupported || e == Unavailable
  {
    if isls != [] {
      GovernorPhaseRange(fs, isls[..|isls| - 1]);
    }
  }

  /** The inner loop of the governor check: the cpus `0 .. n-1`. */
  method ScanGovernors(fs: Tree, n: ULong) returns (e: int)
    ensures e == GovernorScan(fs, n)
  {
    var c: ULong := 0;
    while c < n
      invariant c <= n
      invariant GovernorScan(fs, c) == Ok
    {
      var gov := Read(fs, GovernorPath(c));
      if gov.None? || !(|gov.value| >= 9 && gov.value[..9] == "userspace") {
        e := if gov.None? then ArchUnsupported else Unavailable;
        assert GovernorScan(fs, c + 1) == e;
        GovernorScanExtends(fs, c + 1, n);
        return;
      }
      c := c + 1;
    }
    return Ok;
  }

  /** The outer loop of the governor check, over the first `num` islands. */
  method CheckGovernors(fs: Tree, isls: seq<Island>, num: ULong) returns (e: int)
    requires num <= |isls|
    requires forall i :: 0 <= i < |isls| ==> |isls[i].cpus| < Two64
    ensures e == GovernorPhase(fs, isls[..num])
  {
    var i: ULong := 0;
    while i < num
      invariant i <= num
      invariant GovernorPhase(fs, isls[..i]) == Ok
    {
      assert isls[..i + 1][..i] == isls[..i];
      e := ScanGovernors(fs, |isls[i].cpus|);
      if e != Ok {
        assert isls[..num][..i + 1] == isls[..i + 1];
        GovernorPhasePrefix(fs, isls[..num], i + 1);
        return;
      }
      i := i + 1;
    }
    assert isls[..num] == isls[..i];
    return Ok;
  }

  //===------------------------------------------------------------------------
  // init_speed_levels, phase 2: the speed-level tables

  /** The frequencies of a `scaling_available_frequencies` text: every token but the last (the newline). */
  function Frequencies(tokens: seq<string>): (r: seq<int>)
    requires tokens != []
    ensures |r| == |tokens| - 1
  {
    seq(|tokens| - 1, j requires 0 <= j < |tokens| - 1 => Atoi(tokens[j]))
  }

  /**
   * `sort_and_cast_freqs`: each token through `atoi`, then sorted into ascending order,
   * slowest first, as the speed levels are numbered (see `SortFreqsAsWritten` for the
   * sort as written, which agrees on the kernel's files).
   */
  method SortAndCastFreqs(tokens: seq<string>, num: nat) returns (sorted: seq<int>)
    requires num + 1 == |tokens|
    ensures sorted == Sort(Frequencies(tokens), false)
    ensures Sorted(sorted, false) && multiset(sorted) == multiset(Frequencies(tokens))
  {
    var parsed: seq<int> := [];
    var i := 0;
    while i < num
      invariant i <= num
      invariant parsed == Frequencies(tokens)[..i]
    {
      parsed := parsed + [Atoi(tokens[i])];
      i := i + 1;
    }
    assert parsed == Frequencies(tokens);
    sorted := Sort(parsed, false);
    SortSorted(parsed, false);
  }

  /** The `scaling_cur_freq` file of cpu `c`. */
  function CurFreqPath(c: ULong): string {
    Filename(c, "scaling_cur_freq")
  }

  predicate HasCurFreq(fs: Tree, c: ULong) {
    CurFreqPath(c) in fs.files
  }

  /** The frequency cpu `c` reports, read with `sscanf("%ld")`. */
  function CurReading(fs: Tree, c: ULong): int
    requires HasCurFreq(fs, c)
  {
    Atoi(fs.files[CurFreqPath(c)])
  }

  /** What cpu `c` reports: its reading, or `None` when its file cannot be read. */
  function Report(fs: Tree, c: ULong): Option<int> {
    if HasCurFreq(fs, c) then Some(CurReading(fs, c)) else None
  }

  /** The reports of the cpus numbered `0 .. n-1`, in order. */
  function Reports(fs: Tree, n: ULong): seq<Option<int>> {
    seq(n, c requires 0 <= c < n => Report(fs, c as ULong))
  }

  /** The highest of some reports, starting from 0; `None` as soon as one is missing. */
  function Highest(rs: seq<Option<int>>): Option<int> {
    if rs == [] then Some(0)
    else
      var r := Highest(rs[..|rs| - 1]);
      var x := rs[|rs| - 1];
      if r.None? || x.None? then None
      else if x.value > r.value then x
      else r
  }

  /**
   * The highest frequency reported by the cpus numbered `0 .. n-1`, starting from 0;
   * `None` when one of them cannot be read. As written, an island of `n` cpus reads
   * the cpus `0 .. n-1`, not its own.
   */
  function CurFreq(fs: Tree, n: ULong): Option<int> {
    Highest(Reports(fs, n))
  }

  lemma {:induction false} HighestDefined(rs: seq<Option<int>>)
    ensures Highest(rs).Some? <==> forall i :: 0 <= i < |rs| ==> rs[i].Some?
  {
    if rs != [] {
      HighestDefined(rs[..|rs| - 1]);
    }
  }

  lemma {:induction false} HighestBounds(rs: seq<Option<int>>)
    requires Highest(rs).Some?
    ensures Highest(rs).value >= 0
    ensures forall i :: 0 <= i < |rs| ==> rs[i].Some? && rs[i].value <= Highest(rs).value
  {
    if rs != [] {
      HighestBounds(rs[..|rs| - 1]);
    }
  }

  lemma {:induction false} HighestAttained(rs: seq<Option<int>>)
    requires Highest(rs).Some? && Highest(rs).value > 0
    ensures exists i :: 0 <= i < |rs| && rs[i] == Highest(rs)
  {
    var r := Highest(rs[..|rs| - 1]);
    if rs[|rs| - 1] != Highest(rs) {
      HighestAttained(rs[..|rs| - 1]);
      var i :| 0 <= i < |rs| - 1 && rs[..|rs| - 1][i] == r;
      assert rs[i] == Highest(rs);
    }
  }

  lemma {:induction false} HighestStop(rs: seq<Option<int>>, m: nat)
    requires m <= |rs| && Highest(rs[..m]).None?
    ensures Highest(rs).None?
  {
    if m < |rs| {
      assert rs[..|rs| - 1][..m] == rs[..m];
      HighestStop(rs[..|rs| - 1], m);
    } else {
      assert rs[..m] == rs;
    }
  }

  /** `CurFreq` is defined exactly when every cpu `0 .. n-1` is readable. */
  lemma CurFreqDefined(fs: Tree, n: ULong)
    ensures CurFreq(fs, n).Some? <==> forall c: ULong :: c < n ==> HasCurFreq(fs, c)
  {
    var rs := Reports(fs, n);
    HighestDefined(rs);
    forall c: ULong | c < n
      ensures rs[c].Some? <==> HasCurFreq(fs, c)
    {
      assert rs[c] == Report(fs, c);
    }
  }

  /** When every cpu is readable, `CurFreq` is non-negative and at least every reading. */
  lemma CurFreqBounds(fs: Tree, n: ULong)
    requires CurFreq(fs, n).Some?
    ensures CurFreq(fs, n).value >= 0
    ensures forall c: ULong :: c < n ==> HasCurFreq(fs, c) && CurReading(fs, c) <= CurFreq(fs, n).value
  {
    var rs := Reports(fs, n);
    HighestBounds(rs);
    forall c: ULong | c < n
      ensures HasCurFreq(fs, c) && CurReading(fs, c) <= CurFreq(fs, n).value
    {
      assert rs[c] == Report(fs, c);
    }
  }

  /** A positive `CurFreq` is the reading of one of the cpus. */
  lemma CurFreqAttained(fs: Tree, n: ULong)
    requires CurFreq(fs, n).Some? && CurFreq(fs, n).value > 0
    ensures exists c: ULong :: c < n && HasCurFreq(fs, c) && CurReading(fs, c) == CurFreq(fs, n).value
  {
    var rs := Reports(fs, n);
    HighestAttained(rs);
    var i :| 0 <= i < |rs| && rs[i] == Highest(rs);
    var c := i as ULong;
    assert rs[c] == Report(fs, c);
  }

  /** Once a cpu cannot be read, reading further does not help. */
  lemma CurFreqStop(fs: Tree, m: ULong, n: ULong)
    requires m <= n && CurFreq(fs, m).None?
    ensures CurFreq(fs, n).None?
  {
    assert Reports(fs, n)[..m] == Reports(fs, m);
    HighestStop(Reports(fs, n), m);
  }

  /** The loop over the cpus that fetches the former frequency. */
  method MaxCurFreq(fs: Tree, n: ULong) returns (cur: Option<int>)
    ensures cur == CurFreq(fs, n)
  {
    cur := Some(0);
    var c: ULong := 0;
    while c < n && cur.Some?
      invariant c <= n
      invariant CurFreq(fs, c) == cur
    {
      cur := ReadCurFreq(fs, c, cur.value);
      c := c + 1;
    }
    if cur.None? {
      CurFreqStop(fs, c, n);
    }
  }

  /** One turn of that loop: cpu `c`'s reading raises the maximum so far, or is missing. */
  method ReadCurFreq(fs: Tree, c: ULong, best: int) returns (next: Option<int>)
    requires c < Two64 - 1 && CurFreq(fs, c) == Some(best)
    ensures CurFreq(fs, c + 1) == next
  {
    CurFreqNext(fs, c, best);
    var text := Read(fs, CurFreqPath(c));
    if text.None? {
      return None;
    }
    var freq := Atoi(text.value);
    return if freq > best then Some(freq) else Some(best);
  }

  /** One more cpu: its reading, if it has one, raises the highest so far. */
  lemma CurFreqNext(fs: Tree, c: ULong, best: int)
    requires c < Two64 - 1 && CurFreq(fs, c) == Some(best)
    ensures CurFreq(fs, c + 1)
         == if !HasCurFreq(fs, c) then None
            else if CurReading(fs, c) > best then Some(CurReading(fs, c)) else Some(best)
  {
    var rs := Reports(fs, c + 1);
    assert rs[..c] == Reports(fs, c) && rs[c] == Report(fs, c);
  }

  /** The loop that looks for the level of a frequency: its first index, or `|freqs|`. */
  method FirstIndexOf(freqs: seq<int>, f: int) returns (k: nat)
    ensures k == Find(freqs, f)
  {
    k := 0;
    while k < |freqs|
      invariant k <= |freqs|
      invariant forall j :: 0 <= j < k ==> freqs[j] != f
    {
      if freqs[k] == f {
        return;
      }
      k := k + 1;
    }
  }

  /** The status of one island's step and the island as it is left. */
  datatype Step = Step(error: int, island: Island)

  /** The speed-level table of a `scaling_available_frequencies` text, lowest frequency first. */
  function Table(text: string): (r: seq<int>)
    requires text != []
    ensures |r| == |Split(text, MaxSpeedLevels)| - 1
  {
    Sort(Frequencies(Split(text, MaxSpeedLevels)), false)
  }

  /** The `scaling_available_frequencies` file of a cpu; an island reads the one of its first cpu. */
  function FrequencyPath(cpu: ULong): string {
    Filename(cpu, "scaling_available_frequencies")
  }

  /**
   * One island of the second phase: its table from the frequency file of its first
   * cpu, levels `0 .. num-1`, and the current level, that of the highest frequency
   * reported. The table is kept when the current frequency cannot be read or is not
   * in it.
   */
  function LevelsOf(fs: Tree, isl: Island): (r: Step)
    requires WellFormed(fs) && isl.cpus != [] && |isl.cpus| < Two64
    ensures r.island.cpus == isl.cpus && r.island.agility == isl.agility
    ensures r.error == Ok || r.error == ArchUnsupported || r.error == InitErr
    ensures r.error == Ok ==> LevelsReady(r.island)
  {
    var p := FrequencyPath(isl.cpus[0]);
    if p !in fs.files then Step(ArchUnsupported, isl)
    else
      var freqs := Table(fs.files[p]);
      var num := |freqs|;
      var isl1 := isl.(numSpeedLevels := num, freqs := freqs, minLevel := 0, maxLevel := num - 1);
      var cur := CurFreq(fs, |isl.cpus|);
      if cur.None? then Step(ArchUnsupported, isl1)
      else
        var level := Find(freqs, cur.value);
        if level == num then Step(InitErr, isl1) else Step(Ok, isl1.(current := level))
  }

  method ReadLevels(fs: Tree, isl: Island) returns (r: Step)
    requires WellFormed(fs) && isl.cpus != [] && |isl.cpus| < Two64
    ensures r == LevelsOf(fs, isl)
  {
    var text := Read(fs, FrequencyPath(isl.cpus[0]));
    if text.None? {
      return Step(ArchUnsupported, isl);
    }
    var tokens := Split(text.value, MaxSpeedLevels);
    var num := |tokens| - 1;
    var freqs := SortAndCastFreqs(tokens, num);
    var isl1 := isl.(numSpeedLevels := num, freqs := freqs, minLevel := 0, maxLevel := num - 1);
    var cur := MaxCurFreq(fs, |isl.cpus|);
    if cur.None? {
      return Step(ArchUnsupported, isl1);
    }
    var level := FirstIndexOf(freqs, cur.value);
    if level == num {
      return Step(InitErr, isl1);
    }
    return Step(Ok, isl1.(current := level));
  }

  /** The islands every later phase relies on: found by the discovery, with their cpus. */
  predicate Ready(fs: Tree, isls: seq<Island>) {
    WellFormed(fs) && IslandsFound(isls)
  }

  /** The status of a phase and the islands as it leaves them. */
  datatype Outcome = Outcome(error: int, islands: seq<Island>)

  /** The steps `0 .. k-1` applied in order to `isls`, stopping at the first that fails. */
  function Run(isls: seq<Island>, steps: seq<Step>, k: nat): (r: Outcome)
    requires k <= |isls| == |steps|
    ensures |r.islands| == |isls|
  {
    if k == 0 then Outcome(Ok, isls)
    else
      var o := Run(isls, steps, k - 1);
      if o.error != Ok then o
      else Outcome(steps[k - 1].error, o.islands[k - 1 := steps[k - 1].island])
  }

  /**
   * Steps of the second phase: one per island, keeping its cpus and agility, with
   * one of three statuses and, on success, a usable table.
   */
  predicate StepsFit(isls: seq<Island>, steps: seq<Step>) {
    |steps| == |isls| &&
    forall i :: 0 <= i < |isls| ==>
      steps[i].island.cpus == isls[i].cpus && steps[i].island.agility == isls[i].agility &&
      (steps[i].error == Ok || steps[i].error == ArchUnsupported || steps[i].error == InitErr) &&
      (steps[i].error == Ok ==> LevelsReady(steps[i].island))
  }

  /** The step of each island of the second phase, taken on the island as discovered. */
  function Steps(fs: Tree, isls: seq<Island>): (r: seq<Step>)
    requires Ready(fs, isls)
    ensures StepsFit(isls, r)
  {
    seq(|isls|, i requires 0 <= i < |isls| => LevelsOf(fs, isls[i]))
  }

  /**
   * The second phase over the first `k` islands, stopping at the first that fails;
   * each step reads an island no earlier step has touched.
   */
  function LevelsPhase(fs: Tree, isls: seq<Island>, k: nat): (r: Outcome)
    requires Ready(fs, isls) && k <= |isls|
    ensures |r.islands| == |isls|
    ensures forall i :: 0 <= i < |isls| ==> r.islands[i].cpus == isls[i].cpus && r.islands[i].agility == isls[i].agility
  {
    RunReady(isls, Steps(fs, isls), k);
    Run(isls, Steps(fs, isls), k)
  }

  /**
   * A run keeps each island's cpus and agility and leaves the islands it did not
   * reach untouched, reports one of three statuses, and on success every island it
   * went through has a usable table.
   */
  lemma {:induction false} RunReady(isls: seq<Island>, steps: seq<Step>, k: nat)
    requires IslandsFound(isls) && StepsFit(isls, steps) && k <= |isls|
    ensures var r := Run(isls, steps, k);
      IslandsFound(r.islands) &&
      (forall i :: 0 <= i < |isls| ==> r.islands[i].cpus == isls[i].cpus && r.islands[i].agility == isls[i].agility) &&
      (forall i :: k <= i < |isls| ==> r.islands[i] == isls[i]) &&
      (r.error == Ok || r.error == ArchUnsupported || r.error == InitErr) &&
      (r.error == Ok ==> forall i :: 0 <= i < k ==> LevelsReady(r.islands[i]))
  {
    if k > 0 {
      RunReady(isls, steps, k - 1);
      var o := Run(isls, steps, k - 1);
      if o.error == Ok {
        var r := Run(isls, steps, k);
        assert forall i :: 0 <= i < |isls| && i != k - 1 ==> r.islands[i] == o.islands[i];
      }
    }
  }

  /**
   * The second phase leaves the islands it did not reach untouched, reports one of
   * three statuses, and on success every island it went through has a usable table.
   */
  lemma LevelsPhaseReady(fs: Tree, isls: seq<Island>, k: nat)
    requires Ready(fs, isls) && k <= |isls|
    ensures var r := LevelsPhase(fs, isls, k);
      IslandsFound(r.islands) &&
      (forall i :: k <= i < |isls| ==> r.islands[i] == isls[i]) &&
      (r.error == Ok || r.error == ArchUnsupported || r.error == InitErr) &&
      (r.error == Ok ==> forall i :: 0 <= i < k ==> LevelsReady(r.islands[i]))
  {
    RunReady(isls, Steps(fs, isls), k);
  }

  //===------------------------------------------------------------------------
  // init_speed_levels, phase 3: the throttle files

  /** The `scaling_setspeed` file of cpu `c`. */
  function SetspeedPath(c: ULong): string {
    Filename(c, "scaling_setspeed")
  }

  /**
   * The writes of the lowest level's frequency to the other cpus of an island of
   * `n` cpus. As written, they go to the cpus numbered `1 .. n-1`, not to the
   * island's own; the first write that fails stops the loop. A file that cannot be
   * opened counts as a failed write (see `WriteSucceeds`).
   */
  function Setters(fs: Tree, text: string, n: ULong): (r: (bool, seq<Write>))
    ensures r.0 <==> forall c :: 1 <= c < n ==> WriteSucceeds(fs, SetspeedPath(c))
    ensures r.0 ==> |r.1| == if n == 0 then 0 else n - 1
    ensures r.0 ==> forall j :: 0 <= j < |r.1| ==> r.1[j] == Write(SetspeedPath(j + 1), text)
  {
    if n <= 1 then (true, [])
    else
      var r := Setters(fs, text, n - 1);
      var p := SetspeedPath(n - 1);
      if !r.0 then r
      else if WriteSucceeds(fs, p) then (true, r.1 + [Write(p, text)])
      else (false, r.1)
  }

  /** The status of the third phase, the throttle streams it opened and what it wrote. */
  datatype Opened = Opened(error: int, throttle: seq<string>, writes: seq<Write>)

  /** The throttle file of an island: `scaling_setspeed` of its first cpu. */
  function ThrottlePath(isl: Island): string
    requires isl.cpus != []
  {
    SetspeedPath(isl.cpus[0])
  }

  /** The write of the maximum level's frequency to the throttle file of an island. */
  function MaxWrite(isl: Island): Write
    requires isl.cpus != [] && LevelsReady(isl)
  {
    Write(ThrottlePath(isl), FormatLong(isl.freqs[isl.maxLevel]))
  }

  /**
   * One island of the third phase: open its throttle file, write the frequency of
   * the minimum level to the other cpus, then the frequency of the maximum level
   * to the throttle file.
   */
  function ThrottleOf(fs: Tree, isl: Island): (r: Opened)
    requires isl.cpus != [] && |isl.cpus| < Two64 && LevelsReady(isl)
    ensures r.error == Ok || r.error == InitErr
    ensures r.error == Ok ==> (r.throttle == [ThrottlePath(isl)] && r.writes != [] &&
      r.writes[|r.writes| - 1] == MaxWrite(isl))
  {
    var tp := ThrottlePath(isl);
    if tp !in fs.writable then Opened(InitErr, [], [])
    else
      var st := Setters(fs, FormatLong(isl.freqs[isl.minLevel]), |isl.cpus|);
      if !st.0 || tp !in fs.accepting then Opened(InitErr, [tp], st.1)
      else Opened(Ok, [tp], st.1 + [Write(tp, FormatLong(isl.freqs[isl.maxLevel]))])
  }

  method OpenThrottle(fs: Tree, isl: Island) returns (r: Opened)
    requires isl.cpus != [] && |isl.cpus| < Two64 && LevelsReady(isl)
    ensures r == ThrottleOf(fs, isl)
  {
    var tp := SetspeedPath(isl.cpus[0]);
    if tp !in fs.writable {
      return Opened(InitErr, [], []);
    }
    var text := FormatLong(isl.freqs[isl.minLevel]);
    var writes: seq<Write> := [];
    var n: ULong := |isl.cpus|;
    var c: ULong := 1;
    while c < n
      invariant 1 <= c <= n
      invariant Setters(fs, text, c) == (true, writes)
    {
      var p := SetspeedPath(c);
      if !WriteSucceeds(fs, p) {
        assert Setters(fs, text, c + 1) == (false, writes);
        SettersStop(fs, text, c + 1, n);
        return Opened(InitErr, [tp], writes);
      }
      writes := writes + [Write(p, text)];
      c := c + 1;
    }
    if tp !in fs.accepting {
      return Opened(InitErr, [tp], writes);
    }
    return Opened(Ok, [tp], writes + [Write(tp, FormatLong(isl.freqs[isl.maxLevel]))]);
  }

  /** Once a setter write fails the loop has stopped: later cpus add nothing. */
  lemma {:induction false} SettersStop(fs: Tree, text: string, m: ULong, n: ULong)
    requires m <= n && !Setters(fs, text, m).0
    ensures Setters(fs, text, n) == Setters(fs, text, m)
  {
    if m < n {
      SettersStop(fs, text, m, n - 1);
    }
  }

  /** The openings `0 .. k-1` in order, stopping at the first that fails; streams and writes accumulate. */
  function OpenRun(opens: seq<Opened>, k: nat): (r: Opened)
    requires k <= |opens|
  {
    if k == 0 then Opened(Ok, [], [])
    else
      var o := OpenRun(opens, k - 1);
      if o.error != Ok then o
      else Opened(opens[k - 1].error, o.throttle + opens[k - 1].throttle, o.writes + opens[k - 1].writes)
  }

  /**
   * Openings of the third phase, one per island: each ends in `PWR_OK` or
   * `PWR_INIT_ERR`, and on success opened stream `paths[i]` and last wrote `lasts[i]`.
   */
  predicate OpensFit(opens: seq<Opened>, paths: seq<string>, lasts: seq<Write>) {
    |opens| == |paths| == |lasts| &&
    forall i :: 0 <= i < |opens| ==>
      (opens[i].error == Ok || opens[i].error == InitErr) &&
      (opens[i].error == Ok ==>
        opens[i].throttle == [paths[i]] && opens[i].writes != [] &&
        opens[i].writes[|opens[i].writes| - 1] == lasts[i])
  }

  /** The throttle file of each island. */
  function ThrottlePaths(isls: seq<Island>): (r: seq<string>)
    requires IslandsFound(isls)
    ensures |r| == |isls| && forall i :: 0 <= i < |isls| ==> r[i] == ThrottlePath(isls[i])
  {
    seq(|isls|, i requires 0 <= i < |isls| => ThrottlePath(isls[i]))
  }

  /** The write of the maximum level's frequency of each island. */
  function MaxWrites(isls: seq<Island>): (r: seq<Write>)
    requires IslandsFound(isls) && forall i :: 0 <= i < |isls| ==> LevelsReady(isls[i])
    ensures |r| == |isls| && forall i :: 0 <= i < |isls| ==> r[i] == MaxWrite(isls[i])
  {
    seq(|isls|, i requires 0 <= i < |isls| => MaxWrite(isls[i]))
  }

  /** The opening of each island of the third phase. */
  function Opens(fs: Tree, isls: seq<Island>): (r: seq<Opened>)
    requires IslandsFound(isls) && forall i :: 0 <= i < |isls| ==> LevelsReady(isls[i])
    ensures |r| == |isls|
  {
    seq(|isls|, i requires 0 <= i < |isls| => ThrottleOf(fs, isls[i]))
  }

  /**
   * Each island's opening uses its own throttle file and ends with its own maximum
   * write. Kept apart from `Opens` so that this shape, quantified over every island,
   * is brought in only by the proofs about the opening loop and not at every use of
   * `Opens`.
   */
  lemma OpensFitted(fs: Tree, isls: seq<Island>)
    requires IslandsFound(isls) && forall i :: 0 <= i < |isls| ==> LevelsReady(isls[i])
    ensures OpensFit(Opens(fs, isls), ThrottlePaths(isls), MaxWrites(isls))
  {
  }

  /**
   * A run of openings ends in `PWR_OK` or `PWR_INIT_ERR`; on success it opened the
   * `k` streams in order and made each opening's last write.
   */
  lemma {:induction false} OpenRunReady(opens: seq<Opened>, paths: seq<string>, lasts: seq<Write>, k: nat)
    requires OpensFit(opens, paths, lasts) && k <= |opens|
    ensures var r := OpenRun(opens, k);
      (r.error == Ok || r.error == InitErr) &&
      (r.error == Ok ==> r.throttle == paths[..k]) &&
      (r.error == Ok ==> forall i :: 0 <= i < k ==> lasts[i] in r.writes)
  {
    if k > 0 {
      OpenRunReady(opens, paths, lasts, k - 1);
      var o := OpenRun(opens, k - 1);
      var r := OpenRun(opens, k);
      if o.error == Ok && r.error == Ok {
        var t := opens[k - 1];
        assert paths[..k] == paths[..k - 1] + [paths[k - 1]];
        assert forall w :: w in o.writes ==> w in r.writes;
        assert r.writes[|r.writes| - 1] == t.writes[|t.writes| - 1];
      }
    }
  }

  /** The third phase over the first `k` islands, stopping at the first that fails. */
  function ThrottlePhase(fs: Tree, isls: seq<Island>, k: nat): Opened
    requires IslandsFound(isls) && k <= |isls|
    requires forall i :: 0 <= i < |isls| ==> LevelsReady(isls[i])
  {
    OpenRun(Opens(fs, isls), k)
  }

  /**
   * The third phase ends in `PWR_OK` or `PWR_INIT_ERR`; on success it holds one
   * stream per island, on the island's throttle file, and wrote each island's
   * maximum-level frequency.
   */
  lemma ThrottlePhaseReady(fs: Tree, isls: seq<Island>, k: nat)
    requires IslandsFound(isls) && k <= |isls|
    requires forall i :: 0 <= i < |isls| ==> LevelsReady(isls[i])
    ensures var r := ThrottlePhase(fs, isls, k);
      (r.error == Ok || r.error == InitErr) &&
      (r.error == Ok ==> |r.throttle| == k) &&
      (r.error == Ok ==> forall i :: 0 <= i < k ==> (r.throttle[i] == ThrottlePath(isls[i]) &&
        MaxWrite(isls[i]) in r.writes))
  {
    OpensFitted(fs, isls);
    OpenRunReady(Opens(fs, isls), ThrottlePaths(isls), MaxWrites(isls), k);
  }

  //===------------------------------------------------------------------------
  // init_speed_levels

  /**
   * The state `init_speed_levels` leaves: the governor check, then the tables
   * (stopping at the first island that fails, the islands before it keeping their
   * new tables), then the throttle files. Only success sets the DVFS bit. The
   * current level is the one read in the second phase: the writes of the third
   * phase do not change it.
   */
  function InitSpeed(s: State, fs: Tree): State
    requires WellFormed(fs) && Consistent(s) && Initialized(s, ModuleStruct)
  {
    var g := GovernorPhase(fs, s.islands);
    if g != Ok then s.(error := g)
    else
      var o := LevelsPhase(fs, s.islands, |s.islands|);
      LevelsPhaseReady(fs, s.islands, |s.islands|);
      if o.error != Ok then s.(islands := o.islands, error := o.error)
      else
        var t := ThrottlePhase(fs, o.islands, |o.islands|);
        var s2 := s.(islands := o.islands, throttle := t.throttle, throttleErrors := {}, log := s.log + t.writes);
        if t.error != Ok then s2.(error := t.error)
        else s2.(error := Ok, moduleInit := WithModule(s.moduleInit, ModuleDvfs))
  }

  /** One turn of the loop of the second phase: island `i` gets its table. */
  method LevelsStep(fs: Tree, isls: seq<Island>, i: nat, islands: seq<Island>) returns (e: int, next: seq<Island>)
    requires Ready(fs, isls) && i < |isls|
    requires LevelsPhase(fs, isls, i) == Outcome(Ok, islands)
    ensures LevelsPhase(fs, isls, i + 1) == Outcome(e, next)
  {
    LevelsPhaseReady(fs, isls, i);
    assert islands[i] == isls[i];
    var st := ReadLevels(fs, islands[i]);
    e, next := st.error, islands[i := st.island];
  }

  /** The loop of the second phase over the `num` islands. */
  method SetLevels(fs: Tree, isls: seq<Island>, num: ULong) returns (o: Outcome)
    requires Ready(fs, isls) && num == |isls|
    ensures o == LevelsPhase(fs, isls, num)
  {
    var islands := isls;
    var e := Ok;
    var i := 0;
    while i < |isls| && e == Ok
      invariant i <= |isls|
      invariant LevelsPhase(fs, isls, i) == Outcome(e, islands)
    {
      e, islands := LevelsStep(fs, isls, i, islands);
      i := i + 1;
    }
    if e != Ok {
      LevelsStop(fs, isls, i, |isls|);
    }
    return Outcome(e, islands);
  }

  /** The loop of the third phase over the `num` islands. */
  method OpenThrottles(fs: Tree, isls: seq<Island>, num: ULong) returns (t: Opened)
    requires IslandsFound(isls) && num == |isls|
    requires forall i :: 0 <= i < |isls| ==> LevelsReady(isls[i])
    ensures t == ThrottlePhase(fs, isls, num)
  {
    t := Opened(Ok, [], []);
    var i: nat := 0;
    while i < num && t.error == Ok
      invariant i <= num
      invariant ThrottlePhase(fs, isls, i) == t
    {
      t := ThrottleStep(fs, isls, i, t);
      i := i + 1;
    }
    if t.error != Ok {
      ThrottleStop(fs, isls, i, num);
    }
  }

  /** One turn of the loop of the third phase: island `i`'s throttle stream is opened. */
  method ThrottleStep(fs: Tree, isls: seq<Island>, i: nat, t: Opened) returns (next: Opened)
    requires IslandsFound(isls) && i < |isls|
    requires forall j :: 0 <= j < |isls| ==> LevelsReady(isls[j])
    requires ThrottlePhase(fs, isls, i) == t && t.error == Ok
    ensures ThrottlePhase(fs, isls, i + 1) == next
  {
    var one := OpenThrottle(fs, isls[i]);
    ThrottleNext(fs, isls, i);
    next := Opened(one.error, t.throttle + one.throttle, t.writes + one.writes);
  }

  /** `init_speed_levels(ctx)` */
  method InitSpeedLevels(ctx: Context, fs: Tree)
    requires WellFormed(fs) && Consistent(ctx.Snapshot())
    requires Initialized(ctx.Snapshot(), ModuleStruct) && !Initialized(ctx.Snapshot(), ModuleDvfs)
    modifies ctx
    ensures ctx.Snapshot() == InitSpeed(old(ctx.Snapshot()), fs)
  {
    ghost var s0 := ctx.Snapshot();
    var num := ctx.numPhysIslands;
    var e := CheckGovernors(fs, ctx.islands, num);
    assert ctx.islands[..num] == ctx.islands;
    if e != Ok {
      assert InitSpeed(s0, fs) == s0.(error := e);
      ctx.error := e;
      return;
    }
    var o := SetLevels(fs, ctx.islands, num);
    LevelsPhaseReady(fs, ctx.islands, num);
    ctx.islands := o.islands;
    if o.error != Ok {
      assert InitSpeed(s0, fs) == s0.(islands := o.islands, error := o.error);
      ctx.error := o.error;
      return;
    }
    var t := OpenThrottles(fs, ctx.islands, num);
    InitSpeedOpened(s0, fs, o, t);
    if t.error != Ok {
      ctx.throttle, ctx.throttleErrors, ctx.log, ctx.error := t.throttle, {}, ctx.log + t.writes, t.error;
      return;
    }
    ctx.throttle, ctx.throttleErrors, ctx.log := t.throttle, {}, ctx.log + t.writes;
    ctx.moduleInit, ctx.error := WithModule(ctx.moduleInit, ModuleDvfs), Ok;
  }

  /** How `InitSpeed` ends once the first two phases succeed. */
  lemma InitSpeedOpened(s: State, fs: Tree, o: Outcome, t: Opened)
    requires WellFormed(fs) && Consistent(s) && Initialized(s, ModuleStruct)
    requires GovernorPhase(fs, s.islands) == Ok
    requires o == LevelsPhase(fs, s.islands, |s.islands|) && o.error == Ok
    requires IslandsFound(o.islands) && forall i :: 0 <= i < |o.islands| ==> LevelsReady(o.islands[i])
    requires t == ThrottlePhase(fs, o.islands, |o.islands|)
    ensures var s2 := s.(islands := o.islands, throttle := t.throttle, throttleErrors := {}, log := s.log + t.writes);
      InitSpeed(s, fs) == if t.error != Ok then s2.(error := t.error)
        else s2.(error := Ok, moduleInit := WithModule(s.moduleInit, ModuleDvfs))
  {
  }

  /** Once a step fails, the steps after it are not taken. */
  lemma {:induction false} RunStop(isls: seq<Island>, steps: seq<Step>, m: nat, n: nat)
    requires m <= n <= |isls| == |steps|
    requires Run(isls, steps, m).error != Ok
    ensures Run(isls, steps, n) == Run(isls, steps, m)
  {
    if m < n {
      RunStop(isls, steps, m, n - 1);
    }
  }

  /** Once an island fails the second phase, the islands after it are left alone. */
  lemma LevelsStop(fs: Tree, isls: seq<Island>, m: nat, n: nat)
    requires Ready(fs, isls) && m <= n <= |isls|
    requires LevelsPhase(fs, isls, m).error != Ok
    ensures LevelsPhase(fs, isls, n) == LevelsPhase(fs, isls, m)
  {
    RunStop(isls, Steps(fs, isls), m, n);
  }

  /** One more island of the third phase, after the ones before it opened. */
  lemma ThrottleNext(fs: Tree, isls: seq<Island>, k: nat)
    requires IslandsFound(isls) && k < |isls|
    requires forall i :: 0 <= i < |isls| ==> LevelsReady(isls[i])
    requires ThrottlePhase(fs, isls, k).error == Ok
    ensures var o := ThrottlePhase(fs, isls, k);
      var t := ThrottleOf(fs, isls[k]);
      ThrottlePhase(fs, isls, k + 1) == Opened(t.error, o.throttle + t.throttle, o.writes + t.writes)
  {
    assert Opens(fs, isls)[k] == ThrottleOf(fs, isls[k]);
  }

  /** Once an opening fails, the openings after it are not tried. */
  lemma {:induction false} OpenRunStop(opens: seq<Opened>, m: nat, n: nat)
    requires m <= n <= |opens|
    requires OpenRun(opens, m).error != Ok
    ensures OpenRun(opens, n) == OpenRun(opens, m)
  {
    if m < n {
      OpenRunStop(opens, m, n - 1);
    }
  }

  /** Once an island fails the third phase, the islands after it are not opened. */
  lemma ThrottleStop(fs: Tree, isls: seq<Island>, m: nat, n: nat)
    requires IslandsFound(isls) && m <= n <= |isls|
    requires forall i :: 0 <= i < |isls| ==> LevelsReady(isls[i])
    requires ThrottlePhase(fs, isls, m).error != Ok
    ensures ThrottlePhase(fs, isls, n) == ThrottlePhase(fs, isls, m)
  {
    OpenRunStop(Opens(fs, isls), m, n);
  }

  /** On success, each island holds the table its own step of the second phase built. */
  lemma LevelsPhaseSteps(fs: Tree, isls: seq<Island>, k: nat, i: nat)
    requires Ready(fs, isls) && i < k <= |isls|
    requires LevelsPhase(fs, isls, k).error == Ok
    ensures LevelsOf(fs, isls[i]).error == Ok
    ensures LevelsPhase(fs, isls, k).islands[i] == LevelsOf(fs, isls[i]).island
  {
    var steps := Steps(fs, isls);
    RunKeeps(isls, steps, i + 1, k, i);
    assert steps[i] == LevelsOf(fs, isls[i]);
  }

  /** On success, the steps after island `i` did not fail either, nor touch it. */
  lemma {:induction false} RunKeeps(isls: seq<Island>, steps: seq<Step>, m: nat, k: nat, i: nat)
    requires i < m <= k <= |isls| == |steps|
    requires Run(isls, steps, k).error == Ok
    ensures Run(isls, steps, m).error == Ok
    ensures Run(isls, steps, k).islands[i] == Run(isls, steps, m).islands[i]
  {
    if m < k {
      RunKeeps(isls, steps, m, k - 1, i);
    }
  }


  /**
   * A table built by the second phase: the frequencies of the file of the first cpu,
   * each once per occurrence and lowest first, so level 0 is the lowest frequency
   * and the maximum level the highest; the current level is the first one whose
   * frequency is the highest reported by the cpus `0 .. num_cpu-1`.
   */
  lemma LevelsOfTable(fs: Tree, isl: Island)
    requires WellFormed(fs) && isl.cpus != [] && |isl.cpus| < Two64
    requires LevelsOf(fs, isl).error == Ok
    ensures FrequencyPath(isl.cpus[0]) in fs.files
    ensures var t := LevelsOf(fs, isl).island;
      SortedTableOf(t.freqs, fs.files[FrequencyPath(isl.cpus[0])]) && t.maxLevel == |t.freqs| - 1
  {
    LevelsOfShape(fs, isl);
    TableSorted(fs.files[FrequencyPath(isl.cpus[0])]);
  }

  /**
   * The current level is the first level whose frequency is the one the first cpu
   * reports.
   */
  lemma LevelsOfCurrent(fs: Tree, isl: Island)
    requires WellFormed(fs) && isl.cpus != [] && |isl.cpus| < Two64
    requires LevelsOf(fs, isl).error == Ok
    ensures var t := LevelsOf(fs, isl).island;
      CurFreq(fs, |isl.cpus|) == Some(t.freqs[t.current]) &&
      (forall j :: 0 <= j < t.current ==> t.freqs[j] != t.freqs[t.current])
  {
    LevelsOfShape(fs, isl);
  }

  /** A table that was set up holds the parsed frequencies, and the current level is where the reported one is. */
  lemma LevelsOfShape(fs: Tree, isl: Island)
    requires WellFormed(fs) && isl.cpus != [] && |isl.cpus| < Two64
    requires LevelsOf(fs, isl).error == Ok
    ensures FrequencyPath(isl.cpus[0]) in fs.files && CurFreq(fs, |isl.cpus|).Some?
    ensures var t := LevelsOf(fs, isl).island; var freqs := Table(fs.files[FrequencyPath(isl.cpus[0])]);
      t.freqs == freqs && t.maxLevel == |freqs| - 1 &&
      t.current == Find(freqs, CurFreq(fs, |isl.cpus|).value) < |freqs|
  {
  }

  /**
   * `freqs` holds the frequencies listed in `text`, lowest first, so that its first
   * and last entries bound it.
   */
  predicate SortedTableOf(freqs: seq<int>, text: string)
    requires text != []
  {
    multiset(freqs) == multiset(Frequencies(Split(text, MaxSpeedLevels))) && Sorted(freqs, false) &&
    forall j :: 0 <= j < |freqs| ==> freqs[0] <= freqs[j] <= freqs[|freqs| - 1]
  }

  /** A table holds the frequencies read, lowest first. */
  lemma TableSorted(text: string)
    requires text != []
    ensures SortedTableOf(Table(text), text)
  {
    SortSorted(Frequencies(Split(text, MaxSpeedLevels)), false);
    SortedEnds(Table(text));
  }

  /** What `init_speed_levels` may be called on: STRUCT set, DVFS not yet. */
  predicate CanInitSpeed(s: State, fs: Tree) {
    WellFormed(fs) && Consistent(s) && Initialized(s, ModuleStruct) && !Initialized(s, ModuleDvfs)
  }

  /**
   * `init_speed_levels` reports one of four statuses and sets the DVFS bit exactly on
   * success; it leaves the other module bits, the counts, the energy data and the
   * cpus of every island alone; a failed governor check changes the status only.
   */
  lemma InitSpeedOutcome(s: State, fs: Tree)
    requires CanInitSpeed(s, fs)
    ensures var r := InitSpeed(s, fs);
      (r.error == Ok || r.error == ArchUnsupported || r.error == Unavailable || r.error == InitErr) &&
      (Initialized(r, ModuleDvfs) <==> r.error == Ok) &&
      (forall k :: 0 <= k < NbModules && k != ModuleDvfs ==> (Initialized(r, k) <==> Initialized(s, k))) &&
      r.numPhysCpu == s.numPhysCpu && r.numPhysIslands == s.numPhysIslands &&
      r.running == s.running && r.emeas == s.emeas &&
      |r.islands| == |s.islands| &&
      (forall i :: 0 <= i < |s.islands| ==> r.islands[i].cpus == s.islands[i].cpus) &&
      (r.error == Ok ==> r.throttleErrors == {}) &&
      (GovernorPhase(fs, s.islands) != Ok ==> r == s.(error := GovernorPhase(fs, s.islands)))
  {
    var o := LevelsPhase(fs, s.islands, |s.islands|);
    LevelsPhaseReady(fs, s.islands, |s.islands|);
    if o.error == Ok {
      ThrottlePhaseReady(fs, o.islands, |o.islands|);
    }
    GovernorPhaseRange(fs, s.islands);
    forall k | 0 <= k < NbModules
      ensures HasModule(WithModule(s.moduleInit, ModuleDvfs), k) <==> k == ModuleDvfs || HasModule(s.moduleInit, k)
    {
      WithModuleBits(s.moduleInit, ModuleDvfs, k);
    }
  }

  /** A context whose DVFS bit stays unset is consistent with any islands the discovery could have found. */
  lemma DvfsUnsetConsistent(s: State, isls: seq<Island>, throttle: seq<string>, log: seq<Write>, e: int)
    requires Consistent(s) && Initialized(s, ModuleStruct) && !Initialized(s, ModuleDvfs)
    requires |isls| == |s.islands| && IslandsFound(isls)
    ensures Consistent(s.(islands := isls, throttle := throttle, log := log, error := e))
  {
  }

  /** Setting the DVFS bit is consistent once every island has a table and a throttle stream. */
  lemma DvfsSetConsistent(s: State, isls: seq<Island>, throttle: seq<string>, log: seq<Write>)
    requires Consistent(s) && Initialized(s, ModuleStruct)
    requires |isls| == |s.islands| == |throttle| && IslandsFound(isls)
    requires forall i :: 0 <= i < |isls| ==> LevelsReady(isls[i])
    ensures Consistent(s.(islands := isls, throttle := throttle, log := log, error := Ok,
                          moduleInit := WithModule(s.moduleInit, ModuleDvfs)))
  {
    WithModuleBits(s.moduleInit, ModuleDvfs, ModuleStruct);
    WithModuleBits(s.moduleInit, ModuleDvfs, ModuleDvfs);
    WithModuleBits(s.moduleInit, ModuleDvfs, ModuleEnergy);
  }

  /** `init_speed_levels` keeps the context consistent, whether it succeeds or not. */
  lemma InitSpeedConsistent(s: State, fs: Tree)
    requires CanInitSpeed(s, fs)
    ensures Consistent(InitSpeed(s, fs))
  {
    var g := GovernorPhase(fs, s.islands);
    if g != Ok {
      DvfsUnsetConsistent(s, s.islands, s.throttle, s.log, g);
      return;
    }
    var o := LevelsPhase(fs, s.islands, |s.islands|);
    LevelsPhaseReady(fs, s.islands, |s.islands|);
    if o.error != Ok {
      DvfsUnsetConsistent(s, o.islands, s.throttle, s.log, o.error);
      return;
    }
    ThrottlePhaseReady(fs, o.islands, |o.islands|);
    var t := ThrottlePhase(fs, o.islands, |o.islands|);
    if t.error != Ok {
      DvfsUnsetConsistent(s, o.islands, t.throttle, s.log + t.writes, t.error);
      return;
    }
    DvfsSetConsistent(s, o.islands, t.throttle, s.log + t.writes);
  }

  /**
   * After a successful `init_speed_levels` every island's table is the one its frequency
   * file gives (see `LevelsOfTable`): lowest frequency first, current level as read.
   */
  lemma InitSpeedTables(s: State, fs: Tree, i: nat)
    requires CanInitSpeed(s, fs) && InitSpeed(s, fs).error == Ok
    requires i < |s.islands|
    ensures InitSpeed(s, fs).islands[i] == LevelsOf(fs, s.islands[i]).island
    ensures LevelsOf(fs, s.islands[i]).error == Ok
  {
    var num := |s.islands|;
    assert GovernorPhase(fs, s.islands) == Ok;
    LevelsPhaseReady(fs, s.islands, num);
    LevelsPhaseSteps(fs, s.islands, num, i);
  }

  /**
   * After a successful `init_speed_levels` each island has a throttle stream on
   * `scaling_setspeed` of its first cpu, the frequency of its maximum level (its
   * highest frequency) was written to it after what the context had already written,
   * and yet its current level is still the one read before that write.
   */
  lemma InitSpeedWrites(s: State, fs: Tree, i: nat)
    requires CanInitSpeed(s, fs) && InitSpeed(s, fs).error == Ok
    requires i < |s.islands|
    ensures var r := InitSpeed(s, fs);
      LevelsReady(r.islands[i]) &&
      i < |r.throttle| && r.throttle[i] == ThrottlePath(s.islands[i]) &&
      MaxWrite(r.islands[i]) in r.log[|s.log|..] &&
      r.log[..|s.log|] == s.log &&
      r.islands[i].current == LevelsOf(fs, s.islands[i]).island.current
  {
    var num := |s.islands|;
    InitSpeedTables(s, fs, i);
    InitSpeedConsistent(s, fs);
    LevelsPhaseReady(fs, s.islands, num);
    var o := LevelsPhase(fs, s.islands, num);
    var t := ThrottlePhase(fs, o.islands, num);
    ThrottlePhaseReady(fs, o.islands, num);
    assert InitSpeed(s, fs).log == s.log + t.writes;
  }

  /** `free_speed_data`: the throttle streams are closed; the DVFS bit stays as it was. */
  function FreeSpeed(s: State): (r: State)
    ensures r.error == (if Initialized(s, ModuleDvfs) then Ok else Uninitialized)
    ensures r == s.(error := r.error)
  {
    if !Initialized(s, ModuleDvfs) then s.(error := Uninitialized) else s.(error := Ok)
  }

  method FreeSpeedData(ctx: Context?)
    modifies ctx
    ensures ctx != null ==> ctx.Snapshot() == FreeSpeed(old(ctx.Snapshot()))
  {
    if ctx == null {
      return;
    }
    if !HasModule(ctx.moduleInit, ModuleDvfs) {
      ctx.error := Uninitialized;
      return;
    }
    ctx.error := Ok;
  }
}
