/**
 * `src/energy.c` built with PAPI: the RAPL energy probes of the context and the
 * start/stop state machine of a measurement. PAPI itself is an oracle: the
 * components it reports, the events it knows (with their units) and the counter
 * values `PAPI_stop` hands back.
 */
module Energy {
  import opened Text
  import opened Codes
  import opened Sysfs
  import opened Context

  /** `PAPI_component_info_t`: the name of a component and its number of native events. */
  datatype Component = Component(name: string, numNativeEvents: int)

  /**
   * What PAPI answers: whether it is initialized already, whether `PAPI_library_init`
   * returns the expected version, the component table (`None` where
   * `PAPI_get_component_info` returns NULL), whether an event set can be created, and
   * the events `PAPI_query_named_event` knows, each with its unit.
   */
  datatype Papi = Papi(
    initialized: bool,
    versionOk: bool,
    components: seq<Option<Component>>,
    eventSetOk: bool,
    events: map<string, string>)

  //===------------------------------------------------------------------------
  // The search for the RAPL component

  /** `strstr(s, sub) != NULL` */
  function Contains(s: string, sub: string): (r: bool)
    ensures sub <= s ==> r
    ensures r ==> |sub| <= |s|
    ensures r <==> exists i :: 0 <= i <= |s| && sub <= s[i..]
  {
    if sub <= s then assert s[0..] == s; true
    else if s == [] then false
    else
      var r := Contains(s[1..], sub);
      assert forall i :: 1 <= i <= |s| ==> s[i..] == s[1..][i - 1..];
      assert r ==> exists i :: 0 <= i <= |s[1..]| && sub <= s[1..][i..];
      r
  }

  /** The component is named like RAPL's. */
  predicate IsRapl(c: Option<Component>) {
    c.Some? && Contains(c.value.name, "rapl")
  }

  /**
   * Where the search over the components stops: the first component that is NULL or
   * is RAPL's, or the number of components.
   */
  function FirstStop(comps: seq<Option<Component>>): (k: nat)
    ensures k <= |comps|
    ensures forall j :: 0 <= j < k ==> comps[j].Some? && !IsRapl(comps[j])
    ensures k < |comps| ==> comps[k].None? || IsRapl(comps[k])
  {
    if comps == [] || comps[0].None? || IsRapl(comps[0]) then 0
    else 1 + FirstStop(comps[1..])
  }

  /**
   * The status of the search: `PWR_INIT_ERR` for a NULL component, `PWR_UNAVAILABLE`
   * for a RAPL component without native events or no RAPL component at all.
   */
  function ComponentStatus(comps: seq<Option<Component>>): (e: int)
    ensures e == Ok || e == InitErr || e == Unavailable
    ensures e == Ok <==> exists k :: (0 <= k < |comps| && IsRapl(comps[k]) &&
      comps[k].value.numNativeEvents != 0 &&
      forall j :: 0 <= j < k ==> comps[j].Some? && !IsRapl(comps[j]))
  {
    var k := FirstStop(comps);
    if k == |comps| then Unavailable
    else if comps[k].None? then InitErr
    else if comps[k].value.numNativeEvents == 0 then Unavailable
    else Ok
  }

  /** The loop over the components, stopping at the first NULL or RAPL one. */
  method FindRapl(comps: seq<Option<Component>>) returns (cid: nat)
    ensures cid == FirstStop(comps)
  {
    cid := 0;
    while cid < |comps|
      invariant cid <= |comps|
      invariant FirstStop(comps) == cid + FirstStop(comps[cid..])
    {
      var info := comps[cid];
      if info.None? || Contains(info.value.name, "rapl") {
        return;
      }
      assert comps[cid..][1..] == comps[cid + 1..];
      cid := cid + 1;
    }
  }

  //===------------------------------------------------------------------------
  // The probes

  const PackagePrefix: string := "PACKAGE_ENERGY:PACKAGE"
  const DramPrefix: string := "DRAM_ENERGY:PACKAGE"

  /** `snprintf(buf, 1024, "<prefix>%d", i)` */
  function EventName(prefix: string, i: nat): string {
    prefix + FormatLong(i)
  }

  /** The number of leading indices below `n` whose event PAPI knows. */
  function ProbeCount(events: map<string, string>, prefix: string, n: nat): (k: nat)
    ensures k <= n
    ensures forall i :: 0 <= i < k ==> EventName(prefix, i) in events
    ensures k < n ==> EventName(prefix, k) !in events
  {
    if n == 0 then 0
    else
      var k := ProbeCount(events, prefix, n - 1);
      if k == n - 1 && EventName(prefix, n - 1) in events then n else k
  }

  /** Once an index is missing, looking further adds nothing. */
  lemma {:induction false} ProbeCountStop(events: map<string, string>, prefix: string, m: nat, n: nat)
    requires m <= n && ProbeCount(events, prefix, m) < m
    ensures ProbeCount(events, prefix, n) == ProbeCount(events, prefix, m)
  {
    if m < n {
      ProbeCountStop(events, prefix, m, n - 1);
    }
  }

  /** The counting loop: the probes `prefix<i>` for `i = 0, 1, ...` up to the first missing one. */
  method CountProbes(papi: Papi, prefix: string) returns (k: nat)
    ensures k == ProbeCount(papi.events, prefix, MaxPhysCpu)
  {
    k := 0;
    var i := 0;
    while i < MaxPhysCpu
      invariant i <= MaxPhysCpu && k == i
      invariant ProbeCount(papi.events, prefix, i) == i
    {
      if EventName(prefix, i) !in papi.events {
        ProbeCountStop(papi.events, prefix, i + 1, MaxPhysCpu);
        return;
      }
      k := k + 1;
      i := i + 1;
    }
  }

  /** The names of the first `k` probes of a kind. */
  function ProbeNames(prefix: string, k: nat): (r: seq<string>)
    ensures |r| == k && forall i :: 0 <= i < k ==> r[i] == EventName(prefix, i)
  {
    seq(k, i requires 0 <= i < k => EventName(prefix, i))
  }

  /** The units PAPI gives for a list of known events. */
  function Units(events: map<string, string>, names: seq<string>): (r: seq<string>)
    requires forall i :: 0 <= i < |names| ==> names[i] in events
    ensures |r| == |names| && forall i :: 0 <= i < |names| ==> r[i] == events[names[i]]
  {
    seq(|names|, i requires 0 <= i < |names| => events[names[i]])
  }

  lemma ProbeNamesNext(prefix: string, k: nat)
    ensures ProbeNames(prefix, k + 1) == ProbeNames(prefix, k) + [EventName(prefix, k)]
  {
  }

  lemma UnitsNext(events: map<string, string>, names: seq<string>, name: string)
    requires forall i :: 0 <= i < |names| ==> names[i] in events
    requires name in events
    ensures Units(events, names + [name]) == Units(events, names) + [events[name]]
  {
  }

  lemma UnitsAppend(events: map<string, string>, a: seq<string>, b: seq<string>)
    requires forall i :: 0 <= i < |a| ==> a[i] in events
    requires forall i :: 0 <= i < |b| ==> b[i] in events
    ensures Units(events, a + b) == Units(events, a) + Units(events, b)
  {
  }

  /** The filling loop: the name and the unit of every probe of a kind, in index order. */
  method FillProbes(papi: Papi, prefix: string) returns (names: seq<string>, units: seq<string>)
    ensures names == ProbeNames(prefix, ProbeCount(papi.events, prefix, MaxPhysCpu))
    ensures units == Units(papi.events, names)
  {
    names, units := [], [];
    var i := 0;
    while i < MaxPhysCpu
      invariant i <= MaxPhysCpu
      invariant ProbeCount(papi.events, prefix, i) == i
      invariant names == ProbeNames(prefix, i)
      invariant units == Units(papi.events, names)
    {
      var buf := EventName(prefix, i);
      if buf !in papi.events {
        ProbeCountStop(papi.events, prefix, i + 1, MaxPhysCpu);
        return;
      }
      ProbeNamesNext(prefix, i);
      UnitsNext(papi.events, names, buf);
      names := names + [buf];
      units := units + [papi.events[buf]];
      i := i + 1;
    }
  }

  /** The probes of the context: every package probe, then every DRAM probe. */
  function Probes(papi: Papi): (r: seq<string>)
    ensures forall i :: 0 <= i < |r| ==> r[i] in papi.events
  {
    ProbeNames(PackagePrefix, ProbeCount(papi.events, PackagePrefix, MaxPhysCpu)) +
    ProbeNames(DramPrefix, ProbeCount(papi.events, DramPrefix, MaxPhysCpu))
  }

  /** `n` zeros: the counter values of a measurement not yet taken. */
  function Zeros(n: nat): (r: seq<int>)
    ensures |r| == n && forall i :: 0 <= i < n ==> r[i] == 0
  {
    seq(n, _ => 0)
  }

  /** The measurement record `init_energy` allocates: one zeroed counter, name and unit per probe. */
  function ProbeData(papi: Papi): (m: Emeas)
    ensures m.names == Probes(papi)
    ensures |m.values| == |m.names| == |m.units|
  {
    var names := Probes(papi);
    Emeas(Zeros(|names|), names, Units(papi.events, names))
  }

  /** The two counting loops and the two filling loops of `init_energy`. */
  method ReadProbes(papi: Papi) returns (m: Emeas)
    ensures m == ProbeData(papi)
  {
    var numPackage := CountProbes(papi, PackagePrefix);
    var numDram := CountProbes(papi, DramPrefix);
    var packageNames, packageUnits := FillProbes(papi, PackagePrefix);
    var dramNames, dramUnits := FillProbes(papi, DramPrefix);
    UnitsAppend(papi.events, packageNames, dramNames);
    m := Emeas(Zeros(numPackage + numDram), packageNames + dramNames, packageUnits + dramUnits);
  }

  //===------------------------------------------------------------------------
  // init_energy

  /**
   * PAPI is initialized or initializes with the expected version, a RAPL component
   * with native events comes before any NULL component, and an event set can be created.
   */
  predicate Usable(papi: Papi) {
    (papi.initialized || papi.versionOk) && ComponentStatus(papi.components) == Ok && papi.eventSetOk
  }

  /**
   * The state `init_energy` leaves. On success the context holds the probe record,
   * no measurement runs and ENERGY is set; a failure changes the status only.
   */
  function InitEnergy(s: State, papi: Papi): State {
    if !papi.initialized && !papi.versionOk then s.(error := ArchUnsupported)
    else
      var e := ComponentStatus(papi.components);
      if e != Ok then s.(error := e)
      else if !papi.eventSetOk then s.(error := InitErr)
      else s.(emeas := ProbeData(papi), running := false, error := Ok,
              moduleInit := WithModule(s.moduleInit, ModuleEnergy))
  }

  /** `init_energy(ctx)` */
  method InitEnergyModule(ctx: Context, papi: Papi)
    requires Initialized(ctx.Snapshot(), ModuleStruct) && !Initialized(ctx.Snapshot(), ModuleEnergy)
    modifies ctx
    ensures ctx.Snapshot() == InitEnergy(old(ctx.Snapshot()), papi)
  {
    if !papi.initialized && !papi.versionOk {
      ctx.error := ArchUnsupported;
      return;
    }
    var cid := FindRapl(papi.components);
    if cid < |papi.components| && papi.components[cid].None? {
      ctx.error := InitErr;
      return;
    }
    if cid < |papi.components| && papi.components[cid].value.numNativeEvents == 0 {
      ctx.error := Unavailable;
      return;
    }
    if cid == |papi.components| {
      ctx.error := Unavailable;
      return;
    }
    if !papi.eventSetOk {
      ctx.error := InitErr;
      return;
    }
    ctx.emeas := ReadProbes(papi);
    ctx.emeasRunning := false;
    ctx.error := Ok;
    ctx.moduleInit := WithModule(ctx.moduleInit, ModuleEnergy);
  }

  /** `init_energy` sets the ENERGY bit on success and leaves every other module bit alone. */
  lemma InitEnergyBits(s: State, papi: Papi)
    ensures var r := InitEnergy(s, papi);
      (Initialized(r, ModuleEnergy) <==> r.error == Ok || Initialized(s, ModuleEnergy)) &&
      (forall k :: 0 <= k < NbModules && k != ModuleEnergy ==> (Initialized(r, k) <==> Initialized(s, k)))
  {
    var r := InitEnergy(s, papi);
    if r.error == Ok {
      assert r.moduleInit == WithModule(s.moduleInit, ModuleEnergy);
      forall k | 0 <= k < NbModules
        ensures HasModule(r.moduleInit, k) <==> k == ModuleEnergy || HasModule(s.moduleInit, k)
      {
        WithModuleBits(s.moduleInit, ModuleEnergy, k);
      }
    } else {
      assert r.moduleInit == s.moduleInit;
    }
  }

  /**
   * `init_energy` reports one of four statuses, succeeds exactly when PAPI is usable,
   * a RAPL component with events comes before any NULL one and an event set can be
   * created; it leaves the islands, the throttle streams and the log alone, and a
   * failure changes the status only.
   */
  lemma InitEnergyOutcome(s: State, papi: Papi)
    ensures var r := InitEnergy(s, papi);
      (r.error == Ok || r.error == ArchUnsupported || r.error == InitErr || r.error == Unavailable) &&
      (r.error == Ok <==> Usable(papi)) &&
      r.islands == s.islands && r.throttle == s.throttle && r.log == s.log &&
      r.numPhysIslands == s.numPhysIslands && r.numPhysCpu == s.numPhysCpu &&
      (r.error != Ok ==> r == s.(error := r.error))
  {
  }

  /**
   * After a successful `init_energy`: `nbValues` is the number of package probes
   * plus the number of DRAM probes, each the longest run `0, 1, ...` PAPI knows; the
   * names list the package probes first, then the DRAM ones, in index order; each
   * unit is that of its probe; no measurement runs.
   */
  lemma InitEnergyProbes(s: State, papi: Papi)
    requires InitEnergy(s, papi).error == Ok
    ensures var r := InitEnergy(s, papi);
      var p := ProbeCount(papi.events, PackagePrefix, MaxPhysCpu);
      var d := ProbeCount(papi.events, DramPrefix, MaxPhysCpu);
      |r.emeas.values| == |r.emeas.names| == |r.emeas.units| == p + d &&
      (forall i :: 0 <= i < p ==> r.emeas.names[i] == EventName(PackagePrefix, i)) &&
      (forall i :: 0 <= i < d ==> r.emeas.names[p + i] == EventName(DramPrefix, i)) &&
      (forall i :: 0 <= i < p + d ==> r.emeas.units[i] == papi.events[r.emeas.names[i]]) &&
      !r.running
  {
  }

  /** `init_energy` on a context that had no ENERGY keeps it consistent. */
  lemma InitEnergyConsistent(s: State, papi: Papi)
    requires Consistent(s) && Initialized(s, ModuleStruct)
    ensures Consistent(InitEnergy(s, papi))
  {
    InitEnergyOutcome(s, papi);
    InitEnergyBits(s, papi);
  }

  /** Two probe names are equal only for the same kind and the same index. */
  lemma ProbeNameInjective(p: string, i: nat, q: string, j: nat)
    requires p == PackagePrefix || p == DramPrefix
    requires q == PackagePrefix || q == DramPrefix
    requires EventName(p, i) == EventName(q, j)
    ensures p == q && i == j
  {
    assert EventName(p, i)[0] == p[0];
    assert EventName(q, j)[0] == q[0];
    assert p == q;
    assert FormatLong(i) == EventName(p, i)[|p|..];
    assert FormatLong(j) == EventName(q, j)[|q|..];
    FormatLongInjective(i, j);
  }

  /** No probe is listed twice. */
  lemma ProbesDistinct(papi: Papi)
    ensures forall i, j :: 0 <= i < j < |Probes(papi)| ==> Probes(papi)[i] != Probes(papi)[j]
  {
    var p := ProbeCount(papi.events, PackagePrefix, MaxPhysCpu);
    var r := Probes(papi);
    forall i, j | 0 <= i < j < |r|
      ensures r[i] != r[j]
    {
      var (a, x) := if i < p then (PackagePrefix, i) else (DramPrefix, i - p);
      var (b, y) := if j < p then (PackagePrefix, j) else (DramPrefix, j - p);
      assert r[i] == EventName(a, x) && r[j] == EventName(b, y);
      if r[i] == r[j] {
        ProbeNameInjective(a, x, b, y);
      }
    }
  }

  //===------------------------------------------------------------------------
  // Measurements

  /**
   * `pwr_stop_energy_count(ctx)` on a context: the new state and the result.
   * `readings` are the values `PAPI_stop` stores, one per probe.
   */
  function Stop(s: State, readings: seq<int>): (r: (State, Emeas))
    requires Initialized(s, ModuleEnergy) && s.running ==> |readings| == |s.emeas.names|
  {
    if !Initialized(s, ModuleEnergy) then (s, ZeroEmeas)
    else if !s.running then (s.(error := Unavailable), ZeroEmeas)
    else
      var s1 := s.(emeas := s.emeas.(values := readings), running := false, error := Ok);
      (s1, s1.emeas)
  }

  /**
   * `pwr_start_energy_count(ctx)`: a running measurement is stopped first (with
   * `readings`), then the counters are reset and a new measurement runs.
   */
  function Start(s: State, readings: seq<int>): (r: State)
    requires Initialized(s, ModuleEnergy) && s.running ==> |readings| == |s.emeas.names|
  {
    if !Initialized(s, ModuleEnergy) then s.(error := Uninitialized)
    else
      var s1 := s.(error := Ok);
      var s2 := if s1.running then Stop(s1, readings).0 else s1;
      s2.(running := true)
  }

  method StartEnergyCount(ctx: Context, readings: seq<int>)
    requires Initialized(ctx.Snapshot(), ModuleEnergy) && ctx.emeasRunning ==> |readings| == |ctx.emeas.names|
    modifies ctx
    ensures ctx.Snapshot() == Start(old(ctx.Snapshot()), readings)
  {
    if !HasModule(ctx.moduleInit, ModuleEnergy) {
      ctx.error := Uninitialized;
      return;
    }
    ctx.error := Ok;
    if ctx.emeasRunning {
      var _ := StopEnergyCount(ctx, readings);
    }
    ctx.emeasRunning := true;
  }

  method StopEnergyCount(ctx: Context?, readings: seq<int>) returns (m: Emeas)
    requires ctx != null && Initialized(ctx.Snapshot(), ModuleEnergy) && ctx.emeasRunning ==>
      |readings| == |ctx.emeas.names|
    modifies ctx
    ensures ctx == null ==> m == ZeroEmeas
    ensures ctx != null ==> (ctx.Snapshot(), m) == Stop(old(ctx.Snapshot()), readings)
  {
    if ctx == null || !HasModule(ctx.moduleInit, ModuleEnergy) {
      return ZeroEmeas;
    }
    if !ctx.emeasRunning {
      ctx.error := Unavailable;
      return ZeroEmeas;
    }
    ctx.emeas := ctx.emeas.(values := readings);
    ctx.emeasRunning := false;
    ctx.error := Ok;
    return ctx.emeas;
  }

  /**
   * The status machine of a measurement: start without ENERGY only reports
   * `PWR_UNINITIALIZED`; otherwise a measurement runs afterwards, the status is
   * `PWR_OK`, and the probes are those of the context.
   */
  lemma StartOutcome(s: State, readings: seq<int>)
    requires Initialized(s, ModuleEnergy) && s.running ==> |readings| == |s.emeas.names|
    ensures var r := Start(s, readings);
      (!Initialized(s, ModuleEnergy) ==> r == s.(error := Uninitialized)) &&
      (Initialized(s, ModuleEnergy) ==>
        r.running && r.error == Ok && r.emeas.names == s.emeas.names && r.emeas.units == s.emeas.units &&
        r.emeas.values == (if s.running then readings else s.emeas.values) &&
        r == s.(running := true, error := Ok, emeas := r.emeas))
  {
  }

  /**
   * Stop without ENERGY returns the zero result and leaves the status alone; stop
   * when nothing runs sets `PWR_UNAVAILABLE` and returns the zero result; stop of
   * a running measurement returns the context's own result, with the readings and the
   * same probes, and nothing runs afterwards.
   */
  lemma StopOutcome(s: State, readings: seq<int>)
    requires Initialized(s, ModuleEnergy) && s.running ==> |readings| == |s.emeas.names|
    ensures var (r, m) := Stop(s, readings);
      (!Initialized(s, ModuleEnergy) ==> r == s && m == ZeroEmeas) &&
      (Initialized(s, ModuleEnergy) && !s.running ==> r == s.(error := Unavailable) && m == ZeroEmeas) &&
      (Initialized(s, ModuleEnergy) && s.running ==>
        !r.running && r.error == Ok && m == r.emeas && m.values == readings &&
        m.names == s.emeas.names && m.units == s.emeas.units)
  {
  }

  /** Starting and then stopping returns the readings of the probes, and leaves nothing running. */
  lemma StartThenStop(s: State, first: seq<int>, readings: seq<int>)
    requires Initialized(s, ModuleEnergy) && Consistent(s)
    requires s.running ==> |first| == |s.emeas.names|
    requires |readings| == |s.emeas.names|
    ensures var (r, m) := Stop(Start(s, first), readings);
      m == Emeas(readings, s.emeas.names, s.emeas.units) && !r.running && r.error == Ok &&
      Consistent(r)
  {
  }

  /** A second stop finds nothing running. */
  lemma StopTwice(s: State, readings: seq<int>, again: seq<int>)
    requires Initialized(s, ModuleEnergy) && s.running && |readings| == |s.emeas.names|
    ensures var r := Stop(s, readings).0;
      Stop(r, again) == (r.(error := Unavailable), ZeroEmeas)
  {
  }

  /** A stop keeps the context consistent when PAPI reads one value per probe. */
  lemma StopConsistent(s: State, readings: seq<int>)
    requires Consistent(s) && |readings| == |s.emeas.names|
    ensures Consistent(Stop(s, readings).0)
  {
    var r := Stop(s, readings).0;
    if Initialized(s, ModuleEnergy) {
      assert |s.emeas.values| == |s.emeas.names|;
    }
    ConsistentFrame(s, r);
  }

  /** So does a start. */
  lemma StartConsistent(s: State, readings: seq<int>)
    requires Consistent(s) && |readings| == |s.emeas.names|
    ensures Consistent(Start(s, readings))
  {
    var r := Start(s, readings);
    if Initialized(s, ModuleEnergy) {
      assert |s.emeas.values| == |s.emeas.names|;
    }
    ConsistentFrame(s, r);
  }

  /** `free_energy_data`: a running measurement is stopped first; the ENERGY bit stays. */
  function FreeEnergy(s: State, readings: seq<int>): (r: State)
    requires Initialized(s, ModuleEnergy) && s.running ==> |readings| == |s.emeas.names|
    ensures !Initialized(s, ModuleEnergy) ==> r == s.(error := Uninitialized)
    ensures Initialized(s, ModuleEnergy) ==> (r.error == Ok && !r.running &&
      r == Stop(s, readings).0.(error := Ok))
  {
    if !Initialized(s, ModuleEnergy) then s.(error := Uninitialized)
    else
      var s1 := if s.running then Stop(s, readings).0 else s;
      s1.(error := Ok)
  }

  method FreeEnergyData(ctx: Context?, readings: seq<int>)
    requires ctx != null && Initialized(ctx.Snapshot(), ModuleEnergy) && ctx.emeasRunning ==>
      |readings| == |ctx.emeas.names|
    modifies ctx
    ensures ctx != null ==> ctx.Snapshot() == FreeEnergy(old(ctx.Snapshot()), readings)
  {
    if ctx == null {
      return;
    }
    if !HasModule(ctx.moduleInit, ModuleEnergy) {
      ctx.error := Uninitialized;
      return;
    }
    if ctx.emeasRunning {
      var _ := StopEnergyCount(ctx, readings);
    }
    ctx.error := Ok;
  }
}

/**
 * `src/energy.c` built without PAPI: every energy operation reports
 * `PWR_ARCH_UNSUPPORTED`, and a stop returns the zero result.
 */
module EnergyFallback {
  import opened Codes
  import opened Context

  function Unsupported(s: State): (r: State)
    ensures r.error == ArchUnsupported && r == s.(error := ArchUnsupported)
  {
    s.(error := ArchUnsupported)
  }

  method StartEnergyCount(ctx: Context)
    modifies ctx
    ensures ctx.Snapshot() == Unsupported(old(ctx.Snapshot()))
  {
    ctx.error := ArchUnsupported;
  }

  method StopEnergyCount(ctx: Context) returns (m: Emeas)
    modifies ctx
    ensures ctx.Snapshot() == Unsupported(old(ctx.Snapshot())) && m == ZeroEmeas
  {
    ctx.error := ArchUnsupported;
    return ZeroEmeas;
  }

  method InitEnergyModule(ctx: Context)
    modifies ctx
    ensures ctx.Snapshot() == Unsupported(old(ctx.Snapshot()))
  {
    ctx.error := ArchUnsupported;
  }

  method FreeEnergyData(ctx: Context?)
    modifies ctx
    ensures ctx != null ==> ctx.Snapshot() == Unsupported(old(ctx.Snapshot()))
  {
    if ctx != null {
      ctx.error := ArchUnsupported;
    }
  }

  /** Without PAPI the ENERGY module is never set and nothing but the status changes. */
  lemma UnsupportedKeepsModules(s: State)
    ensures forall k :: 0 <= k < NbModules ==> (Initialized(Unsupported(s), k) <==> Initialized(s, k))
    ensures Consistent(s) ==> Consistent(Unsupported(s))
  {
  }
}
