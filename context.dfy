/**
 * The library context `pwr_ctx_t` and the physical island record `phys_island_t`
 * (`include/internals.h`), with the pure queries of `src/power-api.c`:
 * `pwr_is_initialized`, `pwr_error` and `pwr_strerror`.
 */
module Context {
  import opened Machine
  import opened Codes
  import opened Sysfs

  /**
   * `phys_island_t` without its voltage fields: the sorted cpu ids (their count is
   * `num_cpu`), the speed-level table and the transition latency.
   */
  datatype Island = Island(
    cpus: seq<ULong>,
    numSpeedLevels: int,
    current: int,
    minLevel: int,
    maxLevel: int,
    freqs: seq<int>,
    agility: int)

  /** A freshly allocated island knows its cpus only; the other fields are not yet set. */
  function NewIsland(cpus: seq<ULong>): Island {
    Island(cpus, 0, 0, 0, 0, [], 0)
  }

  /** `pwr_emeas_t` without the floating-point duration: one value, name and unit per probe. */
  datatype Emeas = Emeas(values: seq<int>, names: seq<string>, units: seq<string>)

  /** `emeas_zero`, the constant empty result. */
  const ZeroEmeas: Emeas := Emeas([], [], [])

  /**
   * A snapshot of the context. `throttle` holds the paths of the open throttle
   * streams (`island_throttle_files`); `throttleErrors` holds the islands whose
   * throttle stream has its error indicator set; `log` is every value the library
   * has written to a sysfs file through this context, in order.
   */
  datatype State = State(
    moduleInit: bv32,
    error: int,
    numPhysCpu: ULong,
    numPhysIslands: ULong,
    islands: seq<Island>,
    throttle: seq<string>,
    throttleErrors: set<ULong>,
    running: bool,
    emeas: Emeas,
    log: seq<Write>)

  /** `1U << module` */
  function Bit(m: nat): bv32
    requires m < 32
  {
    (1 as bv32) << m
  }

  /** Bit `m` of a `module_init` bitfield. */
  predicate HasModule(bits: bv32, m: nat)
    requires m < NbModules
  {
    bits & Bit(m) != 0
  }

  /** `bits | (1U << m)` */
  function WithModule(bits: bv32, m: nat): (r: bv32)
    requires m < NbModules
  {
    bits | Bit(m)
  }

  /** Setting one module's bit sets that bit and leaves every other module's bit as it was. */
  lemma WithModuleBits(bits: bv32, m: nat, k: nat)
    requires m < NbModules && k < NbModules
    ensures HasModule(WithModule(bits, m), k) <==> k == m || HasModule(bits, k)
  {
    if k != m {
      assert Bit(m) & Bit(k) == 0 by {
        assert k < 4 && m < 4;
      }
    }
  }

  /** A fresh context has no module bit set. */
  lemma NoModuleInZero(k: nat)
    requires k < NbModules
    ensures !HasModule(0, k)
  {
  }

  predicate Initialized(s: State, m: nat)
    requires m < NbModules
  {
    HasModule(s.moduleInit, m)
  }

  /**
   * What the library maintains for every context it hands out:
   * the discovered islands are stored with their cpus, a DVFS or ENERGY module
   * is only ever set on top of STRUCT, and once DVFS is set every island has a
   * usable speed-level table and a throttle stream.
   */
  predicate Consistent(s: State) {
    (Initialized(s, ModuleStruct) ==>
      |s.islands| == s.numPhysIslands && IslandsFound(s.islands)) &&
    (Initialized(s, ModuleDvfs) ==>
      Initialized(s, ModuleStruct) && |s.throttle| == s.numPhysIslands &&
      forall i :: 0 <= i < |s.islands| ==> LevelsReady(s.islands[i])) &&
    (Initialized(s, ModuleEnergy) ==>
      Initialized(s, ModuleStruct) &&
      |s.emeas.values| == |s.emeas.names| == |s.emeas.units|)
  }

  /**
   * Consistency only depends on the module bits, the counts, the islands, the throttle
   * streams and the shape of the energy record.
   */
  lemma ConsistentFrame(s: State, r: State)
    requires Consistent(s)
    requires r.moduleInit == s.moduleInit && r.numPhysIslands == s.numPhysIslands
    requires r.islands == s.islands && r.throttle == s.throttle
    requires |r.emeas.values| == |s.emeas.values| && |r.emeas.names| == |s.emeas.names|
    requires |r.emeas.units| == |s.emeas.units|
    ensures Consistent(r)
  {
  }

  /** Every island has at least one cpu and no more than `PWR_MAX_CPU_PER_PHYS_ISLAND`. */
  predicate IslandsFound(isls: seq<Island>) {
    forall i :: 0 <= i < |isls| ==> isls[i].cpus != [] && |isls[i].cpus| <= MaxCpuPerPhysIsland
  }

  /**
   * A speed-level table as `init_speed_levels` leaves it: levels `0 .. num-1`, one
   * frequency each, fewer than `PWR_MAX_SPEED_LEVELS`, and a current level inside.
   */
  predicate LevelsReady(isl: Island) {
    isl.minLevel == 0 && isl.maxLevel == |isl.freqs| - 1 &&
    isl.numSpeedLevels == |isl.freqs| && |isl.freqs| < MaxSpeedLevels &&
    0 <= isl.current < |isl.freqs|
  }

  /** The mutable context the library allocates in `pwr_initialize`. */
  class Context {
    var moduleInit: bv32
    var error: int
    var numPhysCpu: ULong
    var numPhysIslands: ULong
    var islands: seq<Island>
    var throttle: seq<string>
    var throttleErrors: set<ULong>
    var emeasRunning: bool
    var emeas: Emeas
    var log: seq<Write>

    function Snapshot(): State
      reads this
    {
      State(moduleInit, error, numPhysCpu, numPhysIslands, islands, throttle, throttleErrors, emeasRunning, emeas, log)
    }

    /**
     * `malloc` plus the first two assignments of `pwr_initialize`: no module is
     * initialized and the error is `PWR_OK`. The fields C leaves unset start empty.
     */
    constructor ()
      ensures Snapshot() == Fresh()
    {
      moduleInit := 0;
      error := Ok;
      numPhysCpu := 0;
      numPhysIslands := 0;
      islands := [];
      throttle := [];
      throttleErrors := {};
      emeasRunning := false;
      emeas := ZeroEmeas;
      log := [];
    }
  }

  function Fresh(): State {
    State(0, Ok, 0, 0, [], [], {}, false, ZeroEmeas, [])
  }

  /** A fresh context is consistent and has no module initialized. */
  lemma FreshConsistent()
    ensures Consistent(Fresh())
    ensures forall k :: 0 <= k < NbModules ==> !Initialized(Fresh(), k)
  {
    forall k | 0 <= k < NbModules ensures !Initialized(Fresh(), k) {
      NoModuleInZero(k);
    }
  }

  /** `pwr_is_initialized(ctx, module)` */
  function IsInitialized(ctx: Context?, m: nat): (r: bool)
    reads ctx
    ensures r <==> ctx != null && m < NbModules && Initialized(ctx.Snapshot(), m)
  {
    if ctx == null || m >= NbModules then false else HasModule(ctx.moduleInit, m)
  }

  /** `pwr_error(ctx)` */
  function Error(ctx: Context?): (r: int)
    reads ctx
    ensures ctx == null ==> r == Uninitialized
    ensures ctx != null ==> r == ctx.error
  {
    if ctx == null then Uninitialized else ctx.error
  }

  /** `pwr_strerror(ctx)` */
  function StrError(ctx: Context?): (r: string)
    reads ctx
    ensures ctx == null ==> r == "Invalid context"
    ensures ctx != null ==> r == Message(ctx.error)
    ensures ctx != null && ctx.error in Listed ==> r != "Unknown error" && r != "Invalid context"
    ensures ctx != null && ctx.error !in Listed ==> r == "Unknown error"
  {
    if ctx == null then "Invalid context"
    else
      var m := Message(ctx.error);
      assert ctx.error in Listed ==> m != "Unknown error" && m != "Invalid context" by {
        if ctx.error in Listed {
          SignatureOfMessage(ctx.error);
        }
      }
      m
  }

  /** Two contexts whose listed statuses differ get different messages from `pwr_strerror`. */
  lemma StrErrorDistinct(a: Context, b: Context)
    requires a.error in Listed && b.error in Listed && a.error != b.error
    ensures StrError(a) != StrError(b)
  {
    MessagesDistinct(a.error, b.error);
  }
}
