/**
 * `src/structure.c`: discovery of the physical islands (groups of cpus that
 * share a frequency) from the cpufreq sibling lists, and the queries on them.
 */
module Structure {
  import opened Machine
  import opened Text
  import opened Codes
  import opened Sysfs
  import opened Seqs
  import opened Context

  //===------------------------------------------------------------------------
  // The cpu id comparator and the sort through it

  /**
   * `compare_phys_cpu_id` as written: the `unsigned long` difference, wrapped
   * modulo 2^64 and narrowed to `gint`.
   */
  function CompareCpuIdAsWritten(i0: ULong, i1: ULong): (r: Int32)
    ensures (r - (i0 - i1)) % Two32 == 0
  {
    ToInt32(ToULong(i0 - i1))
  }

  /**
   * The comparator is not an order on the ids `atoi` can produce: 0 comes before
   * 2^31 - 1, which comes before the id of the token "-1" (2^64 - 1), which comes
   * before 0 again. Two different ids can also compare equal.
   */
  lemma CompareCpuIdAsWrittenCycles()
    ensures CompareCpuIdAsWritten(0, Two31 - 1) < 0
    ensures CompareCpuIdAsWritten(Two31 - 1, Two64 - 1) < 0
    ensures CompareCpuIdAsWritten(Two64 - 1, 0) < 0
    ensures CompareCpuIdAsWritten(0, Two32) == 0
  {
  }

  /** The comparison its comment describes: negative, zero or positive as `i0` is below, equal to or above `i1`. */
  function CompareCpuId(i0: ULong, i1: ULong): (r: int)
    ensures r < 0 <==> i0 < i1
    ensures r == 0 <==> i0 == i1
    ensures r > 0 <==> i0 > i1
  {
    if i0 < i1 then -1 else if i0 > i1 then 1 else 0
  }

  /** On values it is the ascending order, the one `SortIds` produces. */
  lemma CompareCpuIdOrders(a: ULong, b: ULong)
    ensures CompareCpuId(a, b) <= 0 <==> InOrder(a, b, false)
    ensures CompareCpuId(a, b) == -CompareCpuId(b, a)
  {
  }

  /**
   * The `g_array_sort` of `init_struct` as written: through the `(GCompareFunc)` cast,
   * `compare_phys_cpu_id` receives the addresses of two ids of the array at `base`.
   */
  function SortIdsAsWritten(ids: seq<ULong>, base: ULong): seq<ULong> {
    AddressSort(ids, base, (p, q) => CompareCpuIdAsWritten(ToULong(p), ToULong(q)) as int)
  }

  /** A small negative difference wrapped to `unsigned long` narrows back to itself. */
  lemma NarrowWrapped(d: int)
    requires 0 < d < Two31
    ensures ToInt32(ToULong(-d)) == -d
  {
    assert ToULong(-d) == (Two32 - 1) * Two32 + (Two32 - d);
    assert ToULong(-d) % Two32 == Two32 - d;
  }

  /**
   * The ids of one island lie less than 2^31 bytes apart, so every comparison gets
   * the earlier address minus the later, a negative `gint`, and the sort leaves the
   * ids in the order of the sibling list.
   */
  lemma SortIdsAsWrittenKeeps(ids: seq<ULong>, base: ULong)
    requires |ids| <= MaxCpuPerPhysIsland && base + Stride * |ids| <= Two64
    ensures SortIdsAsWritten(ids, base) == ids
  {
    var cmp := (p, q) => CompareCpuIdAsWritten(ToULong(p), ToULong(q)) as int;
    forall p, q | base <= p < q < base + Stride * |ids|
      ensures cmp(p, q) <= 0
    {
      NarrowWrapped(q - p);
    }
    AddressSortKeeps(ids, base, cmp);
  }

  /**
   * The kernel writes a sibling list in ascending order; on such a list the sort as
   * written gives what `SortIds` gives.
   */
  lemma SortIdsAsWrittenOnKernelList(ids: seq<ULong>, base: ULong)
    requires |ids| <= MaxCpuPerPhysIsland && base + Stride * |ids| <= Two64 && Sorted(ids, false)
    ensures SortIdsAsWritten(ids, base) == SortIds(ids)
  {
    SortIdsAsWrittenKeeps(ids, base);
    SortSorted(ids, false);
    SortedUnique(ids, Sort(ids, false), false);
  }

  /** On a list in any other order the ids as written stay unsorted: 1, 0 stays 1, 0. */
  lemma SortIdsAsWrittenUnsorted(base: ULong)
    requires base + Stride * 2 <= Two64
    ensures SortIdsAsWritten([1, 0], base) == [1, 0]
    ensures SortIds([1, 0]) == [0, 1]
  {
    SortIdsAsWrittenKeeps([1, 0], base);
    var t := SortIds([1, 0]);
    SortSorted([1, 0], false);
    assert multiset(t) == multiset{0, 1};
    assert t[0] in multiset(t) && t[1] in multiset(t);
    assert InOrder(t[0], t[1], false);
  }

  //===------------------------------------------------------------------------
  // Parsing one sibling list

  /** The ids of a list of tokens: `atoi`, then conversion to `unsigned long`. */
  function CpuIds(tokens: seq<string>): seq<ULong> {
    seq(|tokens|, i requires 0 <= i < |tokens| => ToULong(Atoi(tokens[i])))
  }

  /** `g_array_sort` of the ids, in ascending order (see `CompareCpuId`). */
  function SortIds(ids: seq<ULong>): (r: seq<ULong>)
    ensures r == Sort(ids, false)
  {
    var s := Sort(ids, false);
    assert forall i :: 0 <= i < |s| ==> s[i] in multiset(ids);
    s
  }

  /** The cpus of one island: the tokens of a sibling list, parsed and sorted. */
  function CpuList(text: string): (r: seq<ULong>)
    ensures Sorted(r, false)
    ensures multiset(r) == multiset(CpuIds(Split(text, MaxCpuPerPhysIsland)))
    ensures text != [] ==> r != []
    ensures |r| <= MaxCpuPerPhysIsland
  {
    var ids := CpuIds(Split(text, MaxCpuPerPhysIsland));
    SortSorted(ids, false);
    SortIds(ids)
  }

  /** A cpu is in the parsed list exactly when one of the tokens reads as its id. */
  lemma CpuListMembers(text: string, x: ULong)
    ensures x in CpuList(text) <==> x in CpuIds(Split(text, MaxCpuPerPhysIsland))
  {
    var ids := CpuIds(Split(text, MaxCpuPerPhysIsland));
    assert x in CpuList(text) <==> x in multiset(CpuList(text));
    assert x in ids <==> x in multiset(ids);
  }

  /** `ParseIds` reads every token of a split sibling list as a cpu id. */
  method ParseIds(tokens: seq<string>) returns (ids: seq<ULong>)
    ensures |ids| == |tokens|
    ensures forall i :: 0 <= i < |tokens| ==> ids[i] == ToULong(Atoi(tokens[i]))
  {
    ids := [];
    var i := 0;
    while i < |tokens|
      invariant 0 <= i <= |tokens| && |ids| == i
      invariant forall j :: 0 <= j < i ==> ids[j] == ToULong(Atoi(tokens[j]))
    {
      ids := ids + [ToULong(Atoi(tokens[i]))];
      i := i + 1;
    }
  }

  /** The text the kernel prints for a list of cpus: the ids separated by spaces, then a newline. */
  function Render(ids: seq<ULong>): string {
    Join(seq(|ids|, i requires 0 <= i < |ids| => FormatLong(ids[i]))) + "\n"
  }

  lemma {:induction false} JoinLast(ts: seq<string>, suffix: string)
    requires ts != []
    ensures Join(ts) + suffix == Join(ts[..|ts| - 1] + [ts[|ts| - 1] + suffix])
  {
    if |ts| > 1 {
      JoinLast(ts[1..], suffix);
      var u := ts[..|ts| - 1] + [ts[|ts| - 1] + suffix];
      assert u[1..] == ts[1..][..|ts| - 2] + [ts[|ts| - 1] + suffix];
    }
  }

  /** The pieces a printed sibling list splits into: the ids, the last one with the newline. */
  function RenderedPieces(ids: seq<ULong>): (us: seq<string>)
    requires ids != []
    ensures |us| == |ids|
  {
    var ts := seq(|ids|, i requires 0 <= i < |ids| => FormatLong(ids[i]));
    ts[..|ids| - 1] + [ts[|ids| - 1] + "\n"]
  }

  /** Splitting a printed sibling list gives back one piece per id. */
  lemma SplitRendered(ids: seq<ULong>)
    requires 1 <= |ids| <= MaxCpuPerPhysIsland
    ensures Split(Render(ids), MaxCpuPerPhysIsland) == RenderedPieces(ids)
  {
    var n := |ids|;
    var ts := seq(n, i requires 0 <= i < n => FormatLong(ids[i]));
    var us := RenderedPieces(ids);
    JoinLast(ts, "\n");
    assert Render(ids) == Join(us);
    forall i | 0 <= i < n
      ensures ' ' !in us[i]
    {
      assert forall j :: 0 <= j < |us[i]| ==> us[i][j] != ' ';
    }
    FieldsJoin(us, MaxCpuPerPhysIsland);
  }

  /** Each piece of a printed sibling list reads back as its id. */
  lemma ParsePieces(ids: seq<ULong>)
    requires ids != []
    requires forall i :: 0 <= i < |ids| ==> ids[i] < Two31
    ensures CpuIds(RenderedPieces(ids)) == ids
  {
    var n := |ids|;
    var us := RenderedPieces(ids);
    var parsed := CpuIds(us);
    forall i | 0 <= i < n
      ensures parsed[i] == ids[i]
    {
      if i < n - 1 {
        assert us[i] == FormatLong(ids[i]) + [];
        AtoiOfFormatLong(ids[i], []);
      } else {
        assert us[i] == FormatLong(ids[i]) + "\n";
        AtoiOfFormatLong(ids[i], "\n");
      }
    }
  }

  /**
   * A sibling list printed by the kernel, ascending and with ids below 2^31 (the
   * range of `atoi`), is parsed back to exactly its cpus.
   */
  lemma ParseRendered(ids: seq<ULong>)
    requires 1 <= |ids| <= MaxCpuPerPhysIsland
    requires Sorted(ids, false)
    requires forall i :: 0 <= i < |ids| ==> ids[i] < Two31
    ensures CpuList(Render(ids)) == ids
  {
    SplitRendered(ids);
    ParsePieces(ids);
    SortSorted(ids, false);
    SortedUnique(Sort(ids, false), ids, false);
  }

  //===------------------------------------------------------------------------
  // The discovery of the islands

  /** The `freqdomain_cpus` file of a cpu. */
  function FreqDomainPath(cpu: ULong): string {
    Filename(cpu, "freqdomain_cpus")
  }

  /** The `affected_cpus` file of a cpu. */
  function AffectedPath(cpu: ULong): string {
    Filename(cpu, "affected_cpus")
  }

  /** The sibling list of a cpu: `freqdomain_cpus` when it can be read, `affected_cpus` otherwise. */
  function SiblingText(fs: Tree, cpu: ULong): (r: Option<string>)
    ensures r.Some? <==> FreqDomainPath(cpu) in fs.files || AffectedPath(cpu) in fs.files
    ensures FreqDomainPath(cpu) in fs.files ==> r == Some(fs.files[FreqDomainPath(cpu)])
  {
    var t := Read(fs, FreqDomainPath(cpu));
    if t.Some? then t else Read(fs, AffectedPath(cpu))
  }

  /** The first cpu below `n` that has no sibling list, or `n`. */
  function FirstUnreadable(fs: Tree, n: ULong): (u: ULong)
    ensures u <= n
    ensures forall c :: 0 <= c < u ==> SiblingText(fs, c).Some?
    ensures u < n ==> SiblingText(fs, u).None?
  {
    if n == 0 then 0
    else
      var u := FirstUnreadable(fs, n - 1);
      if u < n - 1 || SiblingText(fs, n - 1).None? then u else n
  }

  /** `FirstUnreadable` is the one cpu below which all lists are readable and which is not. */
  lemma FirstUnreadableAt(fs: Tree, n: ULong, cpu: ULong)
    requires cpu <= n
    requires forall c :: 0 <= c < cpu ==> SiblingText(fs, c).Some?
    requires cpu < n ==> SiblingText(fs, cpu).None?
    ensures FirstUnreadable(fs, n) == cpu
  {
  }

  /** The sorted sibling list of each of the cpus `0 .. k-1`. */
  function Lists(fs: Tree, k: ULong): (r: seq<seq<ULong>>)
    requires forall c :: 0 <= c < k ==> SiblingText(fs, c).Some?
    ensures |r| == k
  {
    seq(k, c requires 0 <= c < k => CpuList(SiblingText(fs, c).value))
  }

  /** The `cpuinfo_transition_latency` file of a cpu. */
  function LatencyPath(cpu: ULong): string {
    Filename(cpu, "cpuinfo_transition_latency")
  }

  /** The island has a cpu, and the first one has a `cpuinfo_transition_latency` file. */
  predicate HasLatency(fs: Tree, cpus: seq<ULong>) {
    cpus != [] && LatencyPath(cpus[0]) in fs.files
  }

  /** The transition latency of an island, read from its first cpu with `sscanf("%ld")`. */
  function Latency(fs: Tree, cpus: seq<ULong>): int
    requires HasLatency(fs, cpus)
  {
    Atoi(fs.files[LatencyPath(cpus[0])])
  }

  /** For each island found, whether its latency can be read. */
  function LatencyKnown(fs: Tree, found: seq<seq<ULong>>): seq<bool> {
    seq(|found|, i requires 0 <= i < |found| => HasLatency(fs, found[i]))
  }

  /** The first island whose latency cannot be read, or `|found|`. */
  function FirstWithoutLatency(fs: Tree, found: seq<seq<ULong>>): (a: nat)
    ensures a <= |found|
    ensures forall i {:trigger HasLatency(fs, found[i])} :: 0 <= i < a ==> HasLatency(fs, found[i])
    ensures a < |found| ==> !HasLatency(fs, found[a])
  {
    var a := FirstFalse(LatencyKnown(fs, found));
    assert forall i :: 0 <= i < |found| ==> LatencyKnown(fs, found)[i] == HasLatency(fs, found[i]);
    a
  }

  /** Every list read from a well-formed tree names at least one cpu. */
  lemma ListsNonEmpty(fs: Tree, k: ULong)
    requires WellFormed(fs)
    requires forall c :: 0 <= c < k ==> SiblingText(fs, c).Some?
    ensures forall i :: 0 <= i < k ==> Lists(fs, k)[i] != []
  {
    forall i | 0 <= i < k
      ensures Lists(fs, k)[i] != []
    {
      var t := SiblingText(fs, i).value;
      assert t in fs.files.Values;
    }
  }

  /** The islands in discovery order: every distinct sibling list, first occurrence first. */
  function Found(fs: Tree, n: ULong): (r: seq<seq<ULong>>)
    requires WellFormed(fs)
    ensures |r| <= n
    ensures forall i :: 0 <= i < |r| ==> r[i] != []
  {
    var u := FirstUnreadable(fs, n);
    ListsNonEmpty(fs, u);
    Dedup(Lists(fs, u))
  }

  /** The islands as `init_struct_module` stores them once every latency was read. */
  function WithLatencies(fs: Tree, found: seq<seq<ULong>>): (r: seq<Island>)
    requires forall i :: 0 <= i < |found| ==> found[i] != [] && HasLatency(fs, found[i])
    ensures |r| == |found|
  {
    seq(|found|, i requires 0 <= i < |found| => NewIsland(found[i]).(agility := Latency(fs, found[i])))
  }

  /**
   * The state `init_struct_module` leaves when `sysconf` reports `online` cpus.
   * When a sibling list is missing, the island count so far is kept and the island
   * array is not set; when a latency is missing, the island array is freed (here:
   * emptied) and `PWR_ARCH_UNSUPPORTED` reported, as the clean-up evidently intends
   * (as written, the clean-up does not return: see `CleanUpAsWrittenCrashes`).
   * Only success sets the STRUCT bit.
   */
  function InitStruct(s: State, fs: Tree, online: int): State
    requires WellFormed(fs)
  {
    var n := ToULong(online);
    var found := Found(fs, n);
    var s1 := s.(numPhysCpu := n, numPhysIslands := |found|);
    if FirstUnreadable(fs, n) < n then s1.(error := ArchUnsupported)
    else if FirstWithoutLatency(fs, found) < |found| then s1.(error := ArchUnsupported, islands := [])
    else s1.(islands := WithLatencies(fs, found), error := Ok,
             moduleInit := WithModule(s.moduleInit, ModuleStruct))
  }

  /**
   * The second loop of the clean-up after a missing latency, as written: `count`
   * times, the first island is taken off the pointer array with
   * `g_ptr_array_remove_index(gpa, 0)` and its cpus are freed. The islands freed, in
   * order, or `None` once a turn finds the array empty: GLib then returns NULL, and
   * the loop dereferences it.
   */
  function CleanUpAsWritten(gpa: seq<seq<ULong>>, count: nat): Option<seq<seq<ULong>>> {
    if count == 0 then Some([])
    else if gpa == [] then None
    else
      match CleanUpAsWritten(gpa[1..], count - 1)
      case None => None
      case Some(rest) => Some([gpa[0]] + rest)
  }

  /** The loop returns exactly when it asks for no more islands than the array holds, and then frees the first `count`. */
  lemma {:induction false} CleanUpAsWrittenDefined(gpa: seq<seq<ULong>>, count: nat)
    ensures CleanUpAsWritten(gpa, count).Some? <==> count <= |gpa|
    ensures count <= |gpa| ==> CleanUpAsWritten(gpa, count) == Some(gpa[..count])
  {
    if count > 0 && gpa != [] {
      CleanUpAsWrittenDefined(gpa[1..], count - 1);
      if count <= |gpa| {
        assert [gpa[0]] + gpa[1..][..count - 1] == gpa[..count];
      }
    }
  }

  /**
   * When the latency of island `i` is missing, islands `0 .. i` have already been
   * taken off the pointer array, so `num - i - 1` are left; the loop runs from `i` to
   * `num`, one turn too many, and its last turn dereferences NULL.
   */
  lemma CleanUpAsWrittenCrashes(found: seq<seq<ULong>>, i: nat)
    requires i < |found|
    ensures CleanUpAsWritten(found[i + 1..], |found| - i) == None
  {
    CleanUpAsWrittenDefined(found[i + 1..], |found| - i);
  }

  /** The clean-up the code evidently intends: each of the islands left is taken off and freed once. */
  lemma CleanUpIntended(found: seq<seq<ULong>>, i: nat)
    requires i < |found|
    ensures CleanUpAsWritten(found[i + 1..], |found| - i - 1) == Some(found[i + 1..])
  {
    CleanUpAsWrittenDefined(found[i + 1..], |found| - i - 1);
    assert found[i + 1..][..|found| - i - 1] == found[i + 1..];
  }

  /** The scan over the islands found so far: the index of the one equal to `list`, or `|found|`. */
  method FindEqual(found: seq<seq<ULong>>, list: seq<ULong>) returns (k: nat)
    ensures k == Find(found, list)
  {
    k := 0;
    while k < |found|
      invariant k <= |found|
      invariant forall j :: 0 <= j < k ==> found[j] != list
    {
      var eq := DeepEq(list, found[k]);
      if eq {
        break;
      }
      k := k + 1;
    }
  }

  /** One step of the discovery: adding the next cpu's list adds it once, at the end. */
  lemma FoundStep(fs: Tree, cpu: ULong, found: seq<seq<ULong>>, list: seq<ULong>, k: nat)
    requires cpu < Two64 - 1
    requires forall c :: 0 <= c <= cpu ==> SiblingText(fs, c).Some?
    requires found == Dedup(Lists(fs, cpu)) && list == CpuList(SiblingText(fs, cpu).value)
    requires k == Find(found, list)
    ensures Dedup(Lists(fs, cpu + 1)) == if k < |found| then found else found + [list]
  {
    var xs := Lists(fs, cpu + 1);
    var ys := Lists(fs, cpu);
    assert xs[..cpu] == ys by {
      forall j | 0 <= j < cpu
        ensures xs[j] == ys[j]
      {
      }
    }
    DedupStep(xs, ys, CpuList(SiblingText(fs, cpu).value));
  }



  /** One cpu of the discovery loop: its sibling list, read, split, parsed and sorted. */
  method ReadSiblings(fs: Tree, cpu: ULong) returns (list: Option<seq<ULong>>)
    ensures list.None? <==> SiblingText(fs, cpu).None?
    ensures list.Some? ==> list.value == CpuList(SiblingText(fs, cpu).value)
  {
    var text := Read(fs, FreqDomainPath(cpu));
    if text.None? {
      text := Read(fs, AffectedPath(cpu));
      if text.None? {
        return None;
      }
    }
    var tokens := Split(text.value, MaxCpuPerPhysIsland);
    var ids := ParseIds(tokens);
    assert ids == CpuIds(tokens);
    var sorted := SortIds(ids);
    return Some(sorted);
  }

  /**
   * The loop over the online cpus: the islands found, in discovery order, and
   * whether every cpu had a sibling list (the loop stops at the first that has none).
   */
  method Discover(fs: Tree, n: ULong) returns (found: seq<seq<ULong>>, complete: bool)
    ensures complete <==> FirstUnreadable(fs, n) == n
    ensures found == Dedup(Lists(fs, FirstUnreadable(fs, n)))
  {
    found := [];
    var cpu: ULong := 0;
    while cpu < n
      invariant cpu <= n
      invariant forall c :: 0 <= c < cpu ==> SiblingText(fs, c).Some?
      invariant found == Dedup(Lists(fs, cpu))
    {
      var read, next := DiscoverCpu(fs, cpu, found);
      if !read {
        FirstUnreadableAt(fs, n, cpu);
        return found, false;
      }
      found := next;
      cpu := cpu + 1;
    }
    FirstUnreadableAt(fs, n, n);
    return found, true;
  }

  /** One turn of that loop: cpu `cpu`'s list joins the islands unless an equal one is there. */
  method DiscoverCpu(fs: Tree, cpu: ULong, found: seq<seq<ULong>>) returns (read: bool, next: seq<seq<ULong>>)
    requires cpu < Two64 - 1
    requires forall c :: 0 <= c < cpu ==> SiblingText(fs, c).Some?
    requires found == Dedup(Lists(fs, cpu))
    ensures read <==> SiblingText(fs, cpu).Some?
    ensures read ==> forall c :: 0 <= c <= cpu ==> SiblingText(fs, c).Some?
    ensures read ==> next == Dedup(Lists(fs, cpu + 1))
  {
    var list := ReadSiblings(fs, cpu);
    if list.None? {
      return false, found;
    }
    var k := FindEqual(found, list.value);
    FoundStep(fs, cpu, found, list.value, k);
    next := if k == |found| then found + [list.value] else found;
    read := true;
  }

  /**
   * The agility loop: the islands with their latencies, or `false` at the first
   * island whose latency file cannot be read.
   */
  method ReadLatencies(fs: Tree, found: seq<seq<ULong>>) returns (islands: seq<Island>, complete: bool)
    requires forall i :: 0 <= i < |found| ==> found[i] != []
    ensures complete <==> FirstWithoutLatency(fs, found) == |found|
    ensures complete ==> islands == WithLatencies(fs, found)
  {
    islands := [];
    var i := 0;
    while i < |found|
      invariant i <= |found|
      invariant forall j :: 0 <= j < i ==> HasLatency(fs, found[j])
      invariant islands == WithLatencies(fs, found[..i])
    {
      var cpuId := found[i][0];
      var latency := Read(fs, LatencyPath(cpuId));
      if latency.None? {
        assert !HasLatency(fs, found[i]);
        return islands, false;
      }
      islands := islands + [NewIsland(found[i]).(agility := Atoi(latency.value))];
      i := i + 1;
    }
    assert found[..i] == found;
    return islands, true;
  }

  /** `init_struct_module(ctx)`, with `online` the value `sysconf(_SC_NPROCESSORS_ONLN)` returns. */
  method InitStructModule(ctx: Context, fs: Tree, online: int)
    requires WellFormed(fs)
    requires !Initialized(ctx.Snapshot(), ModuleStruct)
    modifies ctx
    ensures ctx.Snapshot() == InitStruct(old(ctx.Snapshot()), fs, online)
  {
    var n := ToULong(online);
    ctx.numPhysCpu := n;
    ctx.numPhysIslands := 0;
    var found, complete := Discover(fs, n);
    assert found == Found(fs, n);
    ctx.numPhysIslands := |found|;
    if !complete {
      ctx.error := ArchUnsupported;
      return;
    }
    var islands, latencies := ReadLatencies(fs, found);
    if !latencies {
      ctx.error := ArchUnsupported;
      ctx.islands := [];
      return;
    }
    ctx.islands := islands;
    ctx.error := Ok;
    ctx.moduleInit := WithModule(ctx.moduleInit, ModuleStruct);
  }

  /** All sibling lists and all latencies could be read. */
  predicate Discoverable(fs: Tree, n: ULong)
    requires WellFormed(fs)
  {
    FirstUnreadable(fs, n) == n && FirstWithoutLatency(fs, Found(fs, n)) == |Found(fs, n)|
  }

  /**
   * The discovery succeeds exactly when every file it needs can be read; it reports
   * `PWR_OK` or `PWR_ARCH_UNSUPPORTED` (for a missing latency, the status the clean-up
   * intends: `CleanUpIntended`; as written it does not return), sets the STRUCT bit exactly on success and
   * leaves every other module bit alone.
   */
  lemma InitStructOutcome(s: State, fs: Tree, online: int)
    requires WellFormed(fs) && !Initialized(s, ModuleStruct)
    ensures var r := InitStruct(s, fs, online);
      (r.error == Ok <==> Discoverable(fs, ToULong(online))) &&
      (r.error == Ok || r.error == ArchUnsupported) &&
      (Initialized(r, ModuleStruct) <==> r.error == Ok) &&
      r.numPhysCpu == ToULong(online) &&
      forall k :: 0 <= k < NbModules && k != ModuleStruct ==> (Initialized(r, k) <==> Initialized(s, k))
  {
    forall k | 0 <= k < NbModules
      ensures HasModule(WithModule(s.moduleInit, ModuleStruct), k) <==> k == ModuleStruct || HasModule(s.moduleInit, k)
    {
      WithModuleBits(s.moduleInit, ModuleStruct, k);
    }
  }

  /** When every cpu has a sibling list, every cpu's sibling list is one of the islands found. */
  lemma FoundCovers(fs: Tree, n: ULong)
    requires WellFormed(fs) && FirstUnreadable(fs, n) == n
    ensures forall c :: 0 <= c < n ==> CpuList(SiblingText(fs, c).value) in Found(fs, n)
  {
    var xs := Lists(fs, n);
    forall c | 0 <= c < n
      ensures CpuList(SiblingText(fs, c).value) in Found(fs, n)
    {
      assert xs[c] in Found(fs, n);
    }
  }

  /** Each island found is the sibling list of some cpu, and no two islands are the same. */
  lemma FoundOrigins(fs: Tree, n: ULong)
    requires WellFormed(fs) && FirstUnreadable(fs, n) == n
    ensures Distinct(Found(fs, n))
    ensures forall i :: 0 <= i < |Found(fs, n)| ==>
      exists c :: 0 <= c < n && Found(fs, n)[i] == CpuList(SiblingText(fs, c).value)
  {
    var xs := Lists(fs, n);
    var d := Found(fs, n);
    forall i | 0 <= i < |d|
      ensures exists c :: 0 <= c < n && d[i] == CpuList(SiblingText(fs, c).value)
    {
      var c := Find(xs, d[i]);
      assert xs[c] == d[i];
    }
  }

  /** After a successful discovery the islands are the ones found, each with its latency. */
  lemma InitStructStores(s: State, fs: Tree, online: int)
    requires WellFormed(fs) && Discoverable(fs, ToULong(online))
    ensures var r := InitStruct(s, fs, online); var d := Found(fs, ToULong(online));
      |r.islands| == r.numPhysIslands == |d| &&
      forall i :: 0 <= i < |d| ==> r.islands[i].cpus == d[i] && r.islands[i].agility == Latency(fs, d[i])
  {
  }

  /**
   * After a successful discovery the islands are pairwise different and each holds
   * a non-empty, ascending list of cpus.
   */
  lemma InitStructIslands(s: State, fs: Tree, online: int)
    requires WellFormed(fs) && Discoverable(fs, ToULong(online))
    ensures var r := InitStruct(s, fs, online);
      |r.islands| == r.numPhysIslands &&
      (forall i, j :: 0 <= i < j < |r.islands| ==> r.islands[i].cpus != r.islands[j].cpus) &&
      (forall i :: 0 <= i < |r.islands| ==> Sorted(r.islands[i].cpus, false)) &&
      IslandsFound(r.islands)
  {
    FoundOrigins(fs, ToULong(online));
    InitStructStores(s, fs, online);
  }

  /** `l` is the sibling list of some cpu below `n`. */
  predicate SiblingListBelow(fs: Tree, n: ULong, l: seq<ULong>)
    requires forall c :: 0 <= c < n ==> SiblingText(fs, c).Some?
  {
    exists c :: 0 <= c < n && l == CpuList(SiblingText(fs, c).value)
  }

  /** `l` is the cpu list of one of the islands. */
  predicate HasIsland(isls: seq<Island>, l: seq<ULong>) {
    exists i :: 0 <= i < |isls| && isls[i].cpus == l
  }

  /**
   * Each island is the sibling list of some cpu below `n`, and the sibling list of
   * every cpu below `n` is one of the islands.
   */
  predicate Covers(fs: Tree, n: ULong, isls: seq<Island>)
    requires forall c :: 0 <= c < n ==> SiblingText(fs, c).Some?
  {
    (forall i :: 0 <= i < |isls| ==> SiblingListBelow(fs, n, isls[i].cpus)) &&
    (forall c :: 0 <= c < n ==> HasIsland(isls, CpuList(SiblingText(fs, c).value)))
  }

  /** Islands holding the lists found, in order, are exactly the cpus' sibling lists. */
  lemma CoversOf(fs: Tree, n: ULong, isls: seq<Island>)
    requires WellFormed(fs) && FirstUnreadable(fs, n) == n
    requires |isls| == |Found(fs, n)| && forall i :: 0 <= i < |isls| ==> isls[i].cpus == Found(fs, n)[i]
    ensures Covers(fs, n, isls)
  {
    var xs := Lists(fs, n);
    ListsNonEmpty(fs, n);
    assert Found(fs, n) == Dedup(xs);
    IslandsOfDedup(xs, isls);
    CoversOfLists(fs, n, xs, isls);
  }

  /** Islands holding `Dedup(xs)`, in order, and the lists of `xs` are the same lists. */
  lemma IslandsOfDedup(xs: seq<seq<ULong>>, isls: seq<Island>)
    requires |isls| == |Dedup(xs)| && forall i :: 0 <= i < |isls| ==> isls[i].cpus == Dedup(xs)[i]
    ensures forall i :: 0 <= i < |isls| ==> isls[i].cpus in xs
    ensures forall c :: 0 <= c < |xs| ==> HasIsland(isls, xs[c])
  {
    var d := Dedup(xs);
    forall c | 0 <= c < |xs|
      ensures HasIsland(isls, xs[c])
    {
      var i := Find(d, xs[c]);
      assert isls[i].cpus == d[i];
    }
  }

  lemma CoversOfLists(fs: Tree, n: ULong, xs: seq<seq<ULong>>, isls: seq<Island>)
    requires forall c :: 0 <= c < n ==> SiblingText(fs, c).Some?
    requires |xs| == n && forall c :: 0 <= c < n ==> xs[c] == CpuList(SiblingText(fs, c).value)
    requires forall i :: 0 <= i < |isls| ==> isls[i].cpus in xs
    requires forall c :: 0 <= c < |xs| ==> HasIsland(isls, xs[c])
    ensures Covers(fs, n, isls)
  {
    forall i | 0 <= i < |isls|
      ensures SiblingListBelow(fs, n, isls[i].cpus)
    {
      var c := Find(xs, isls[i].cpus);
      assert xs[c] == CpuList(SiblingText(fs, c).value);
    }
    forall c | 0 <= c < n
      ensures HasIsland(isls, CpuList(SiblingText(fs, c).value))
    {
      assert xs[c] == CpuList(SiblingText(fs, c).value);
    }
  }

  /**
   * After a successful discovery each island is the sibling list of some online cpu,
   * and the sibling list of every online cpu is one of the islands.
   */
  lemma InitStructCovers(s: State, fs: Tree, online: int)
    requires WellFormed(fs) && Discoverable(fs, ToULong(online))
    ensures Covers(fs, ToULong(online), InitStruct(s, fs, online).islands)
  {
    InitStructStores(s, fs, online);
    CoversOf(fs, ToULong(online), InitStruct(s, fs, online).islands);
  }

  /**
   * The islands are in discovery order: the island listed first is the sibling list
   * of a lower-numbered cpu.
   */
  lemma InitStructOrder(s: State, fs: Tree, online: int, i: nat, j: nat)
    requires WellFormed(fs) && Discoverable(fs, ToULong(online))
    requires i < j < |InitStruct(s, fs, online).islands|
    ensures var r := InitStruct(s, fs, online); var xs := Lists(fs, ToULong(online));
      Find(xs, r.islands[i].cpus) < Find(xs, r.islands[j].cpus)
  {
    var n := ToULong(online);
    DedupOrder(Lists(fs, n), i, j);
  }

  /** The discovery, started from a consistent context, leaves it consistent. */
  lemma InitStructConsistent(s: State, fs: Tree, online: int)
    requires WellFormed(fs) && !Initialized(s, ModuleStruct) && Consistent(s)
    ensures Consistent(InitStruct(s, fs, online))
  {
    InitStructOutcome(s, fs, online);
    var r := InitStruct(s, fs, online);
    if r.error == Ok {
      InitStructIslands(s, fs, online);
    }
  }

  //===------------------------------------------------------------------------
  // Queries

  /** The first island whose cpus contain `cpu`, or `|isls|`. */
  function IslandIndex(isls: seq<Island>, cpu: ULong): (k: nat)
    ensures k <= |isls|
    ensures k < |isls| ==> cpu in isls[k].cpus
    ensures forall j :: 0 <= j < k ==> cpu !in isls[j].cpus
  {
    if isls == [] then 0
    else if cpu in isls[0].cpus then 0
    else 1 + IslandIndex(isls[1..], cpu)
  }

  /** The nested scan of `pwr_island_of_cpu` over the first `num` islands. */
  method FindIsland(isls: seq<Island>, num: ULong, cpu: ULong) returns (k: ULong)
    requires num <= |isls|
    ensures k == IslandIndex(isls[..num], cpu)
  {
    k := 0;
    while k < num
      invariant k <= num
      invariant forall j :: 0 <= j < k ==> cpu !in isls[j].cpus
    {
      var cpus := isls[k].cpus;
      var c := 0;
      while c < |cpus|
        invariant c <= |cpus|
        invariant cpu !in cpus[..c]
      {
        if cpus[c] == cpu {
          assert cpu in isls[..num][k].cpus;
          return;
        }
        assert cpus[..c + 1] == cpus[..c] + [cpus[c]];
        c := c + 1;
      }
      assert cpus[..c] == cpus;
      k := k + 1;
    }
  }

  /**
   * The status and the result of `pwr_island_of_cpu`: `PWR_REQUEST_DENIED` for a cpu
   * beyond the online count, otherwise the first island holding it, or `PWR_ERR` and
   * the island count when none does.
   */
  function IslandOf(s: State, cpu: ULong): (r: (int, ULong))
    requires cpu < s.numPhysCpu ==> s.numPhysIslands <= |s.islands|
    ensures cpu >= s.numPhysCpu ==> r == (RequestDenied, s.numPhysIslands)
    ensures cpu < s.numPhysCpu ==> (r.0 == Ok || r.0 == Err)
    ensures r.0 == Ok ==> (r.1 < s.numPhysIslands && cpu in s.islands[r.1].cpus &&
      forall j :: 0 <= j < r.1 ==> cpu !in s.islands[j].cpus)
    ensures r.0 == Err ==> (r.1 == s.numPhysIslands &&
      forall j :: 0 <= j < s.numPhysIslands ==> cpu !in s.islands[j].cpus)
  {
    if cpu >= s.numPhysCpu then (RequestDenied, s.numPhysIslands)
    else
      var isls := s.islands[..s.numPhysIslands];
      var k := IslandIndex(isls, cpu);
      assert forall j :: 0 <= j < |isls| ==> isls[j] == s.islands[j];
      if k < |isls| then (Ok, k) else (Err, s.numPhysIslands)
  }

  /** `pwr_island_of_cpu(ctx, cpu)`: only the status changes. */
  method IslandOfCpu(ctx: Context, cpu: ULong) returns (r: ULong)
    requires cpu < ctx.numPhysCpu ==> ctx.numPhysIslands <= |ctx.islands|
    modifies ctx
    ensures (ctx.error, r) == IslandOf(old(ctx.Snapshot()), cpu)
    ensures ctx.Snapshot() == old(ctx.Snapshot()).(error := ctx.error)
  {
    if cpu >= ctx.numPhysCpu {
      ctx.error := RequestDenied;
      return ctx.numPhysIslands;
    }
    var k := FindIsland(ctx.islands, ctx.numPhysIslands, cpu);
    if k < ctx.numPhysIslands {
      ctx.error := Ok;
      return k;
    }
    ctx.error := Err;
    return ctx.numPhysIslands;
  }

  /** A cpu that some counted island holds is found by `pwr_island_of_cpu`. */
  lemma IslandOfHeld(s: State, cpu: ULong, i: nat)
    requires s.numPhysIslands <= |s.islands|
    requires cpu < s.numPhysCpu && i < s.numPhysIslands && cpu in s.islands[i].cpus
    ensures IslandOf(s, cpu).0 == Ok && IslandOf(s, cpu).1 <= i
  {
    var isls := s.islands[..s.numPhysIslands];
    assert cpu in isls[i].cpus;
  }

  /**
   * After a successful discovery, a cpu that appears in its own sibling list is
   * found by `pwr_island_of_cpu`, in an island that is its sibling list.
   */
  lemma IslandOfListedCpu(s: State, fs: Tree, online: int, cpu: ULong)
    requires WellFormed(fs) && Discoverable(fs, ToULong(online))
    requires cpu < ToULong(online)
    requires cpu in CpuList(SiblingText(fs, cpu).value)
    ensures var r := InitStruct(s, fs, online);
      r.numPhysIslands <= |r.islands| && IslandOf(r, cpu).0 == Ok &&
      cpu in r.islands[IslandOf(r, cpu).1].cpus
  {
    var r := InitStruct(s, fs, online);
    var d := Found(fs, ToULong(online));
    var l := CpuList(SiblingText(fs, cpu).value);
    FoundCovers(fs, ToULong(online));
    InitStructStores(s, fs, online);
    var i := Find(d, l);
    assert r.islands[i].cpus == l;
    IslandOfHeld(r, cpu, i);
  }

  /** The status and the result of `pwr_num_phys_cpus` and `pwr_num_phys_islands`. */
  function Count(s: State, value: ULong): (r: (int, ULong))
    ensures r.0 == Ok <==> Initialized(s, ModuleStruct)
    ensures r.0 != Ok ==> r == (Uninitialized, 0)
    ensures r.0 == Ok ==> r.1 == value
  {
    if Initialized(s, ModuleStruct) then (Ok, value) else (Uninitialized, 0)
  }

  /** `pwr_num_phys_cpus(ctx)` */
  method NumPhysCpus(ctx: Context) returns (r: ULong)
    modifies ctx
    ensures (ctx.error, r) == Count(old(ctx.Snapshot()), old(ctx.numPhysCpu))
    ensures ctx.Snapshot() == old(ctx.Snapshot()).(error := ctx.error)
  {
    if !HasModule(ctx.moduleInit, ModuleStruct) {
      ctx.error := Uninitialized;
      return 0;
    }
    ctx.error := Ok;
    return ctx.numPhysCpu;
  }

  /** `pwr_num_phys_islands(ctx)` */
  method NumPhysIslands(ctx: Context) returns (r: ULong)
    modifies ctx
    ensures (ctx.error, r) == Count(old(ctx.Snapshot()), old(ctx.numPhysIslands))
    ensures ctx.Snapshot() == old(ctx.Snapshot()).(error := ctx.error)
  {
    if !HasModule(ctx.moduleInit, ModuleStruct) {
      ctx.error := Uninitialized;
      return 0;
    }
    ctx.error := Ok;
    return ctx.numPhysIslands;
  }

  /** After a successful discovery the two counts report what was found. */
  lemma CountsAfterInit(s: State, fs: Tree, online: int)
    requires WellFormed(fs) && !Initialized(s, ModuleStruct) && Discoverable(fs, ToULong(online))
    ensures var r := InitStruct(s, fs, online);
      Count(r, r.numPhysCpu) == (Ok, ToULong(online)) &&
      Count(r, r.numPhysIslands) == (Ok, |Found(fs, ToULong(online))|)
  {
    InitStructOutcome(s, fs, online);
  }

  /**
   * `free_structure_data(ctx)`: `PWR_UNINITIALIZED` when STRUCT is not set, `PWR_OK`
   * otherwise. The island memory is released (not modelled) and the bit stays set.
   */
  function FreeStructure(s: State): (r: State)
    ensures r == s.(error := r.error)
    ensures r.error == Ok <==> Initialized(s, ModuleStruct)
    ensures r.error == Ok || r.error == Uninitialized
  {
    if Initialized(s, ModuleStruct) then s.(error := Ok) else s.(error := Uninitialized)
  }

  method FreeStructureData(ctx: Context?)
    modifies ctx
    ensures ctx != null ==> ctx.Snapshot() == FreeStructure(old(ctx.Snapshot()))
  {
    if ctx == null {
      return;
    }
    if !HasModule(ctx.moduleInit, ModuleStruct) {
      ctx.error := Uninitialized;
      return;
    }
    ctx.error := Ok;
  }
}
