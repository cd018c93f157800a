/** Store-wide lifecycle operations: the one-way input termination flag, the
    once-per-load main queue object, the preparation for a new configuration
    load, and the `resetconfigvariables` directive. */
module Lifecycle {

  import opened Types
  import opened Store

  /** `GetGlobalInputTermState`: the termination flag, the one slot
      `SetGlobalInputTermination` writes. */
  function GetGlobalInputTermState(g: Globals): (r: int)
    ensures Read(g, TerminationSlot) == IntV(r)
  {
    g.terminateInputs
  }

  /** `SetGlobalInputTermination`: the flag becomes 1 and nothing else
      changes. */
  function SetGlobalInputTermination(g: Globals): (r: Globals)
    ensures GetGlobalInputTermState(r) == 1
    ensures AgreeOutside(r, g, {TerminationSlot})
  {
    Write(g, TerminationSlot, IntV(1))
  }

  /** Requesting termination a second time changes nothing. */
  lemma TerminationIdempotent(g: Globals)
    ensures SetGlobalInputTermination(SetGlobalInputTermination(g)) == SetGlobalInputTermination(g)
  {
  }

  /** `glblProcessMainQCnf`: the first main queue object of a load is kept;
      a later one is reported and ignored. */
  function ProcessMainQCnf(g: Globals, o: CnfObj): (r: Globals)
    ensures g.mainQ.None? ==> r.mainQ == Some(o)
    ensures g.mainQ.Some? ==> r == g
    ensures AgreeOutside(r, g, {MainQSlot})
  {
    if g.mainQ.None? then Write(g, MainQSlot, ObjV(Some(o))) else g
  }

  /** Of any number of main queue objects, the first one is the one kept. */
  lemma MainQFirstWins(g: Globals, o1: CnfObj, o2: CnfObj)
    requires g.mainQ.None?
    ensures ProcessMainQCnf(ProcessMainQCnf(g, o1), o2).mainQ == Some(o1)
  {
  }

  /** `glblDestructMainqCnfObj`: the main queue object is released. */
  function DestructMainqCnfObj(g: Globals): (r: Globals)
    ensures r.mainQ.None?
    ensures AgreeOutside(r, g, {MainQSlot})
  {
    Write(g, MainQSlot, ObjV(None))
  }

  /** Releasing the main queue object undoes storing one: the slot is free
      for the next object, and a store-then-release round ends where a
      plain release does. */
  lemma DestructAcceptsNewMainQ(g: Globals, o1: CnfObj, o2: CnfObj)
    ensures ProcessMainQCnf(DestructMainqCnfObj(g), o2).mainQ == Some(o2)
    ensures DestructMainqCnfObj(ProcessMainQCnf(g, o1)) == DestructMainqCnfObj(g)
  {
  }

  /** `glblPrepCnf`: the main queue object and the bound values of the
      previous load are dropped. */
  function PrepCnf(g: Globals): (r: Globals)
    requires Valid(g)
    ensures Valid(r)
    ensures r.mainQ.None? && r.bound.None?
    ensures AgreeOutside(r, g, {MainQSlot, BoundSlot})
  {
    Write(Write(g, MainQSlot, ObjV(None)), BoundSlot, BoundV(None))
  }

  /** After a preparation the next main queue object is accepted again. */
  lemma PrepAcceptsNewMainQ(g: Globals, o: CnfObj)
    requires Valid(g)
    ensures ProcessMainQCnf(PrepCnf(g), o).mainQ == Some(o)
  {
  }

  /** The slots `resetConfigVariables` assigns. */
  const ResetSlots: set<Slot> := {
    StrSlot(DfltNetstrmDrvr), StrSlot(DfltNetstrmDrvrCAF),
    StrSlot(DfltNetstrmDrvrKeyFile), StrSlot(DfltNetstrmDrvrCertFile),
    StrSlot(HostNameOverride), StrSlot(WorkDir),
    IntSlot(DropMalPTRMsgs), IntSlot(OptimizeUniProc), IntSlot(PreserveFQDN), IntSlot(MaxLine),
    EscapeCharSlot,
    IntSlot(DropTrailingLF), IntSlot(EscapeCCOnRcv), IntSlot(SpaceLFOnRcv),
    IntSlot(Escape8BitChars), IntSlot(EscapeTab), IntSlot(EscapeCCCStyle)
  }

  /** The message size limit a reset installs. */
  const ResetMaxLine: int := 8192

  /** `resetConfigVariables`: the four netstream driver strings, the
      hostname override and the work directory become unset, the listed
      switches get their documented defaults, and every other setting --
      DNS policy, hostname parts, local IP, termination flag, ... -- is
      left as it was. */
  function ResetConfigVariables(g: Globals): (r: Globals)
    requires Valid(g)
    ensures Valid(r)
    ensures r.dfltNetstrmDrvr.None? && r.dfltNetstrmDrvrCAF.None?
    ensures r.dfltNetstrmDrvrKeyFile.None? && r.dfltNetstrmDrvrCertFile.None?
    ensures r.hostNameOverride.None? && r.workDir.None?
    ensures r.dropMalPTRMsgs == 0 && r.optimizeUniProc == 1 && r.preserveFQDN == 0
    ensures r.maxLine == ResetMaxLine && r.escapeChar == '#'
    ensures r.dropTrailingLF == 1 && r.escapeCCOnRcv == 1 && r.spaceLFOnRcv == 0
    ensures r.escape8BitChars == 0 && r.escapeTab == 1 && r.escapeCCCStyle == 0
    ensures AgreeOutside(r, g, ResetSlots)
  {
    g.(
      dfltNetstrmDrvr := None,
      dfltNetstrmDrvrCAF := None,
      dfltNetstrmDrvrKeyFile := None,
      dfltNetstrmDrvrCertFile := None,
      hostNameOverride := None,
      workDir := None,
      dropMalPTRMsgs := 0,
      optimizeUniProc := 1,
      preserveFQDN := 0,
      maxLine := ResetMaxLine,
      escapeChar := '#',
      dropTrailingLF := 1,
      escapeCCOnRcv := 1,
      spaceLFOnRcv := 0,
      escape8BitChars := 0,
      escapeTab := 1,
      escapeCCCStyle := 0
    )
  }

  /** A reset restores the start-up value of every slot it assigns, with one
      exception: the message size limit starts at 8096 but resets to 8192. */
  lemma ResetRestoresInitialExceptMaxLine(g: Globals, reportSuspension: int)
    requires Valid(g)
    ensures forall s :: s in ResetSlots && s != IntSlot(MaxLine) ==>
      Read(ResetConfigVariables(g), s) == Read(Initial(reportSuspension), s)
    ensures Initial(reportSuspension).maxLine == 8096
    ensures ResetConfigVariables(g).maxLine == 8192
  {
    var r := ResetConfigVariables(g);
    var i := Initial(reportSuspension);
    forall s | s in ResetSlots && s != IntSlot(MaxLine)
      ensures Read(r, s) == Read(i, s)
    {
      match s
      case IntSlot(n) =>
      case StrSlot(t) =>
      case _ =>
    }
  }

  /** Resetting twice is the same as resetting once. */
  lemma ResetIdempotent(g: Globals)
    requires Valid(g)
    ensures ResetConfigVariables(ResetConfigVariables(g)) == ResetConfigVariables(g)
  {
  }
}
