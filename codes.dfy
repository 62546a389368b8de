/**
 * The status codes, module identifiers and size limits of the library
 * (`include/power-api.h`, and `include/power_api.h` for the first generation),
 * and the table of status messages of `pwr_strerror`.
 */
module Codes {

  const ArchUnsupported: int := -3
  const Unimplemented: int := -2
  const Uninitialized: int := -1
  const Ok: int := 0
  const Err: int := 1
  const Unavailable: int := 2
  const RequestDenied: int := 4
  const InitErr: int := 5
  const FinalErr: int := 6
  const AlreadyInitialized: int := 7
  const IoErr: int := 8
  const UnsupportedSpeedLevel: int := 9
  const UnsupportedVoltage: int := 10
  const AlreadyMinMax: int := 11
  const OverEBudget: int := 12
  const OverPBudget: int := 13
  const OverTBudget: int := 14
  const InvalidIsland: int := 15
  const DvfsErr: int := 16
  /** Only in the first generation's header. */
  const OverflowErr: int := 17

  /** The codes `pwr_strerror` has a message for. */
  const Listed: set<int> := {ArchUnsupported, Unimplemented, Uninitialized, Ok, Err,
    Unavailable, RequestDenied, InitErr, FinalErr, AlreadyInitialized, IoErr,
    UnsupportedSpeedLevel, UnsupportedVoltage, AlreadyMinMax, OverEBudget, OverPBudget,
    OverTBudget, InvalidIsland, DvfsErr}

  /** Module identifiers: bit positions in the context's `module_init` field. */
  const ModuleStruct: nat := 0
  const ModuleDvfs: nat := 1
  const ModuleEnergy: nat := 2
  const ModuleHighLevel: nat := 3
  const NbModules: nat := 4

  const MaxPhysCpu: nat := 1024 * 1024
  const MaxPhysIslands: nat := MaxPhysCpu
  const MaxCpuPerPhysIsland: nat := MaxPhysCpu
  const MaxSpeedLevels: nat := 1024 * 1024

  /** First generation: `PWR_MAX_ISLANDS`, hence `PWR_MAX_CPU` and `PWR_MAX_CPU_PER_ISLAND`. */
  const LegacyMaxCpuPerIsland: nat := 1024 * 1024 * 1024
  const LegacyMaxSpeedLevels: nat := 1024 * 1024

  /** The message `pwr_strerror` gives for the status code of a (non-NULL) context. */
  function Message(code: int): string
  {
    if code == ArchUnsupported then "Unsupported architecture"
    else if code == Unimplemented then "Feature not implemented"
    else if code == Uninitialized then "Non-initialized context"
    else if code == Ok then "Success"
    else if code == Err then "General error"
    else if code == Unavailable then "The requested feature is not available"
    else if code == RequestDenied then "The last request was denied"
    else if code == InitErr then "Initialization error"
    else if code == FinalErr then "Finalization error"
    else if code == AlreadyInitialized then "Already initialized"
    else if code == IoErr then "I/O error"
    else if code == UnsupportedSpeedLevel then "Unsupported speed level"
    else if code == UnsupportedVoltage then "Unsupported voltage"
    else if code == AlreadyMinMax then "Already at min/max speed"
    else if code == OverEBudget then "Over energy budget"
    else if code == OverPBudget then "Over power budget"
    else if code == OverTBudget then "Over thermal budget"
    else if code == InvalidIsland then "Invalid island identifier"
    else if code == DvfsErr then "Generic DVFS error"
    else "Unknown error"
  }

  /** The length and the first letter of each listed message: together they tell the messages apart. */
  function Signature(code: int): (int, char)
  {
    if code == ArchUnsupported then (24, 'U')
    else if code == Unimplemented then (23, 'F')
    else if code == Uninitialized then (23, 'N')
    else if code == Ok then (7, 'S')
    else if code == Err then (13, 'G')
    else if code == Unavailable then (38, 'T')
    else if code == RequestDenied then (27, 'T')
    else if code == InitErr then (20, 'I')
    else if code == FinalErr then (18, 'F')
    else if code == AlreadyInitialized then (19, 'A')
    else if code == IoErr then (9, 'I')
    else if code == UnsupportedSpeedLevel then (23, 'U')
    else if code == UnsupportedVoltage then (19, 'U')
    else if code == AlreadyMinMax then (24, 'A')
    else if code == OverEBudget then (18, 'O')
    else if code == OverPBudget then (17, 'O')
    else if code == OverTBudget then (19, 'O')
    else if code == InvalidIsland then (25, 'I')
    else if code == DvfsErr then (18, 'G')
    else (0, ' ')
  }

  lemma SignatureOfMessage(a: int)
    requires a in Listed
    ensures |Message(a)| == Signature(a).0 && Message(a)[0] == Signature(a).1
  {
    if a == ArchUnsupported {
      assert Message(a) == "Unsupported architecture";
    } else if a == Unimplemented {
      assert Message(a) == "Feature not implemented";
    } else if a == Uninitialized {
      assert Message(a) == "Non-initialized context";
    } else if a == Ok {
      assert Message(a) == "Success";
    } else if a == Err {
      assert Message(a) == "General error";
    } else if a == Unavailable {
      assert Message(a) == "The requested feature is not available";
    } else if a == RequestDenied {
      assert Message(a) == "The last request was denied";
    } else if a == InitErr {
      assert Message(a) == "Initialization error";
    } else if a == FinalErr {
      assert Message(a) == "Finalization error";
    } else if a == AlreadyInitialized {
      assert Message(a) == "Already initialized";
    } else if a == IoErr {
      assert Message(a) == "I/O error";
    } else if a == UnsupportedSpeedLevel {
      assert Message(a) == "Unsupported speed level";
    } else if a == UnsupportedVoltage {
      assert Message(a) == "Unsupported voltage";
    } else if a == AlreadyMinMax {
      assert Message(a) == "Already at min/max speed";
    } else if a == OverEBudget {
      assert Message(a) == "Over energy budget";
    } else if a == OverPBudget {
      assert Message(a) == "Over power budget";
    } else if a == OverTBudget {
      assert Message(a) == "Over thermal budget";
    } else if a == InvalidIsland {
      assert Message(a) == "Invalid island identifier";
    } else if a == DvfsErr {
      assert Message(a) == "Generic DVFS error";
    }
  }

  /** Distinct listed codes have distinct messages, none of them "Unknown error". */
  lemma MessagesDistinct(a: int, b: int)
    requires a in Listed && b in Listed && a != b
    ensures Message(a) != Message(b)
    ensures Message(a) != "Unknown error"
  {
    SignatureOfMessage(a);
    SignatureOfMessage(b);
    SignatureDecodes(a);
    SignatureDecodes(b);
    assert Signature(a) != (13, 'U');
  }

  /** The listed code a signature belongs to, or `ArchUnsupported - 1`, which is not listed, for any other. */
  function CodeOfSignature(sig: (int, char)): int {
    if sig == (24, 'U') then ArchUnsupported
    else if sig == (23, 'F') then Unimplemented
    else if sig == (23, 'N') then Uninitialized
    else if sig == (7, 'S') then Ok
    else if sig == (13, 'G') then Err
    else if sig == (38, 'T') then Unavailable
    else if sig == (27, 'T') then RequestDenied
    else if sig == (20, 'I') then InitErr
    else if sig == (18, 'F') then FinalErr
    else if sig == (19, 'A') then AlreadyInitialized
    else if sig == (9, 'I') then IoErr
    else if sig == (23, 'U') then UnsupportedSpeedLevel
    else if sig == (19, 'U') then UnsupportedVoltage
    else if sig == (24, 'A') then AlreadyMinMax
    else if sig == (18, 'O') then OverEBudget
    else if sig == (17, 'O') then OverPBudget
    else if sig == (19, 'O') then OverTBudget
    else if sig == (25, 'I') then InvalidIsland
    else if sig == (18, 'G') then DvfsErr
    else ArchUnsupported - 1
  }

  /** Each listed code is recovered from its signature, so no two listed codes share one. */
  lemma SignatureDecodes(a: int)
    requires a in Listed
    ensures CodeOfSignature(Signature(a)) == a
  {
  }

  /** Every code outside the table reads "Unknown error". */
  lemma MessageUnknown(a: int)
    requires a !in Listed
    ensures Message(a) == "Unknown error"
  {
  }
}
