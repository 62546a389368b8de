/**
 * `pwr_initialize` and `pwr_finalize` of `src/power-api.c`: the order in which the
 * modules are brought up and released.
 */
module Lifecycle {
  import opened Codes
  import opened Sysfs
  import opened Context
  import Structure
  import Dvfs
  import Energy
  import EnergyFallback

  /** Which `src/energy.c` the library was built with: with PAPI (and its answers) or without. */
  datatype EnergyBuild = PapiBuild(papi: Energy.Papi) | NoPapi

  function InitEnergy(s: State, build: EnergyBuild): State {
    match build
    case PapiBuild(papi) => Energy.InitEnergy(s, papi)
    case NoPapi => EnergyFallback.Unsupported(s)
  }

  /**
   * The context `pwr_initialize` returns: STRUCT first; only when it left `PWR_OK`,
   * DVFS and then ENERGY, the latter whatever DVFS reported. `online` is what
   * `sysconf(_SC_NPROCESSORS_ONLN)` returns.
   */
  function Initialize(fs: Tree, online: int, build: EnergyBuild): State
    requires WellFormed(fs)
  {
    var s1 := Structure.InitStruct(Fresh(), fs, online);
    if s1.error != Ok then s1
    else
      Structure.InitStructOutcome(Fresh(), fs, online);
      Structure.InitStructConsistent(Fresh(), fs, online);
      NoModuleInZero(ModuleDvfs);
      InitEnergy(Dvfs.InitSpeed(s1, fs), build)
  }

  method InitializeContext(fs: Tree, online: int, build: EnergyBuild) returns (ctx: Context)
    requires WellFormed(fs)
    ensures fresh(ctx)
    ensures ctx.Snapshot() == Initialize(fs, online, build)
  {
    ctx := new Context();
    FreshConsistent();
    Structure.InitStructModule(ctx, fs, online);
    if ctx.error == Ok {
      Structure.InitStructOutcome(Fresh(), fs, online);
      Structure.InitStructConsistent(Fresh(), fs, online);
      var s1 := ctx.Snapshot();
      Dvfs.InitSpeedLevels(ctx, fs);
      Dvfs.InitSpeedOutcome(s1, fs);
      NoModuleInZero(ModuleEnergy);
      match build
      case PapiBuild(papi) =>
        Energy.InitEnergyModule(ctx, papi);
      case NoPapi =>
        EnergyFallback.InitEnergyModule(ctx);
    }
  }

  /**
   * When STRUCT fails nothing else is attempted and no module is set; otherwise STRUCT
   * stays set and the status returned is the one of the last step, ENERGY's, whatever
   * DVFS reported: a DVFS failure is not visible in it. HIGH_LEVEL is never set.
   */
  lemma InitializeOutcome(fs: Tree, online: int, build: EnergyBuild)
    requires WellFormed(fs)
    ensures var s1 := Structure.InitStruct(Fresh(), fs, online);
      var r := Initialize(fs, online, build);
      (s1.error != Ok ==> r == s1 && forall k :: 0 <= k < NbModules ==> !Initialized(r, k)) &&
      (s1.error == Ok ==> Initialized(r, ModuleStruct)) &&
      (s1.error == Ok && build.NoPapi? ==> r.error == ArchUnsupported) &&
      (s1.error == Ok && build.PapiBuild? ==> (r.error == Ok <==> Energy.Usable(build.papi))) &&
      !Initialized(r, ModuleHighLevel)
  {
    FreshConsistent();
    Structure.InitStructOutcome(Fresh(), fs, online);
    var s1 := Structure.InitStruct(Fresh(), fs, online);
    if s1.error == Ok {
      Structure.InitStructConsistent(Fresh(), fs, online);
      NoModuleInZero(ModuleDvfs);
      NoModuleInZero(ModuleHighLevel);
      var s2 := Dvfs.InitSpeed(s1, fs);
      SpeedKeepsModules(s1, fs);
      EnergyKeepsModules(s2, build);
      EnergyStatus(s2, build);
    }
  }

  /** DVFS leaves the STRUCT and HIGH_LEVEL bits as they were. */
  lemma SpeedKeepsModules(s: State, fs: Tree)
    requires Dvfs.CanInitSpeed(s, fs)
    ensures var r := Dvfs.InitSpeed(s, fs);
      Initialized(r, ModuleStruct) && (Initialized(r, ModuleHighLevel) <==> Initialized(s, ModuleHighLevel))
  {
    Dvfs.InitSpeedOutcome(s, fs);
  }

  /** ENERGY leaves the STRUCT and HIGH_LEVEL bits as they were. */
  lemma EnergyKeepsModules(s: State, build: EnergyBuild)
    ensures var r := InitEnergy(s, build);
      (Initialized(r, ModuleStruct) <==> Initialized(s, ModuleStruct)) &&
      (Initialized(r, ModuleHighLevel) <==> Initialized(s, ModuleHighLevel))
  {
    match build
    case PapiBuild(papi) =>
      Energy.InitEnergyBits(s, papi);
    case NoPapi =>
      EnergyFallback.UnsupportedKeepsModules(s);
  }

  /** ENERGY reports `PWR_OK` exactly when PAPI is usable, and `PWR_ARCH_UNSUPPORTED` in a build without it. */
  lemma EnergyStatus(s: State, build: EnergyBuild)
    ensures var r := InitEnergy(s, build);
      (build.NoPapi? ==> r.error == ArchUnsupported) &&
      (build.PapiBuild? ==> (r.error == Ok <==> Energy.Usable(build.papi)))
  {
    if build.PapiBuild? {
      Energy.InitEnergyOutcome(s, build.papi);
    }
  }


  /**
   * The context `pwr_initialize` returns is consistent: in particular DVFS and ENERGY
   * are never set without STRUCT, and with DVFS every island has a speed-level table
   * and a throttle stream.
   */
  lemma InitializeConsistent(fs: Tree, online: int, build: EnergyBuild)
    requires WellFormed(fs)
    ensures Consistent(Initialize(fs, online, build))
  {
    FreshConsistent();
    Structure.InitStructOutcome(Fresh(), fs, online);
    Structure.InitStructConsistent(Fresh(), fs, online);
    var s1 := Structure.InitStruct(Fresh(), fs, online);
    if s1.error == Ok {
      NoModuleInZero(ModuleDvfs);
      Dvfs.InitSpeedOutcome(s1, fs);
      Dvfs.InitSpeedConsistent(s1, fs);
      var s2 := Dvfs.InitSpeed(s1, fs);
      match build
      case PapiBuild(papi) =>
        Energy.InitEnergyConsistent(s2, papi);
      case NoPapi =>
        EnergyFallback.UnsupportedKeepsModules(s2);
    }
  }

  /**
   * `pwr_finalize(ctx)` before the context is freed: ENERGY, then DVFS, then STRUCT
   * are released, each only when its bit is set. `readings` are the counter values
   * a measurement still running is stopped with.
   */
  function Finalize(s: State, build: EnergyBuild, readings: seq<int>): State
    requires Initialized(s, ModuleEnergy) && s.running ==> |readings| == |s.emeas.names|
  {
    var s1 := if !Initialized(s, ModuleEnergy) then s
      else match build
        case PapiBuild(_) => Energy.FreeEnergy(s, readings)
        case NoPapi => EnergyFallback.Unsupported(s);
    var s2 := if Initialized(s1, ModuleDvfs) then Dvfs.FreeSpeed(s1) else s1;
    if Initialized(s2, ModuleStruct) then Structure.FreeStructure(s2) else s2
  }

  method FinalizeContext(ctx: Context, build: EnergyBuild, readings: seq<int>)
    requires Initialized(ctx.Snapshot(), ModuleEnergy) && ctx.emeasRunning ==> |readings| == |ctx.emeas.names|
    modifies ctx
    ensures ctx.Snapshot() == Finalize(old(ctx.Snapshot()), build, readings)
  {
    if IsInitialized(ctx, ModuleEnergy) {
      match build
      case PapiBuild(_) =>
        Energy.FreeEnergyData(ctx, readings);
      case NoPapi =>
        EnergyFallback.FreeEnergyData(ctx);
    }
    if IsInitialized(ctx, ModuleDvfs) {
      Dvfs.FreeSpeedData(ctx);
    }
    if IsInitialized(ctx, ModuleStruct) {
      Structure.FreeStructureData(ctx);
    }
  }

  /**
   * Releasing keeps every module bit, stops a running measurement in the PAPI build,
   * and ends with `PWR_OK` once STRUCT was set; a context where none of the three
   * modules is set is left exactly as it was.
   */
  lemma FinalizeOutcome(s: State, build: EnergyBuild, readings: seq<int>)
    requires Initialized(s, ModuleEnergy) && s.running ==> |readings| == |s.emeas.names|
    ensures var r := Finalize(s, build, readings);
      r.moduleInit == s.moduleInit &&
      (Initialized(s, ModuleStruct) ==> r.error == Ok) &&
      (!Initialized(s, ModuleStruct) && !Initialized(s, ModuleDvfs) && !Initialized(s, ModuleEnergy) ==> r == s) &&
      (Initialized(s, ModuleEnergy) && build.PapiBuild? ==> !r.running)
  {
  }
}
