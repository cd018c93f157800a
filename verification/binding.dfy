/** The structured configuration binding: the global block's bound values,
    the one parameter applied while the block is parsed, and the
    finalisation step that applies every used parameter to its setting. */
module Binding {

  import opened Types
  import opened ParamTable
  import opened Store
  import opened WorkDir

  /** What finalisation does with a used parameter. */
  datatype Action =
    | Assign(slot: Slot)   // store the coerced value into the slot
    | ApplyWorkDir         // go through the validating work directory setter
    | OpenDebugLog         // open the debug log file (outside this model)
    | ProgramError         // no branch for the name: diagnosed, nothing stored

  /** The name comparisons of `glblDoneLoadCnf`, in their order. Every
      branch that stores a value stores it into a setting that has an
      accessor, or into the hostname override; never into the bound values,
      the cells or the termination flag. */
  function DoneLoadAction(name: string): (r: Action)
    ensures r.Assign? ==> HasSetter(r.slot) || r.slot == StrSlot(HostNameOverride)
  {
    if name == "workdirectory" then ApplyWorkDir
    else if name == "localhostname" then Assign(StrSlot(HostNameOverride))
    else if name == "defaultnetstreamdriverkeyfile" then Assign(StrSlot(DfltNetstrmDrvrKeyFile))
    else if name == "defaultnetstreamdrivercafile" then Assign(StrSlot(DfltNetstrmDrvrCAF))
    else if name == "defaultnetstreamdriver" then Assign(StrSlot(DfltNetstrmDrvr))
    else if name == "preservefqdn" then Assign(IntSlot(PreserveFQDN))
    else if name == "dropmsgswithmaliciousdnsptrrecords" then Assign(IntSlot(DropMalPTRMsgs))
    else if name == "action.reportsuspension" then Assign(IntSlot(ActionReportSuspension))
    else if name == "maxmessagesize" then Assign(IntSlot(MaxLine))
    else if name == "debug.onshutdown" then Assign(IntSlot(DebugOnShutdown))
    else if name == "parser.controlcharacterescapeprefix" then Assign(EscapeCharSlot)
    else if name == "parser.droptrailinglfonreception" then Assign(IntSlot(DropTrailingLF))
    else if name == "parser.escapecontrolcharactersonreceive" then Assign(IntSlot(EscapeCCOnRcv))
    else if name == "parser.spacelfonreceive" then Assign(IntSlot(SpaceLFOnRcv))
    else if name == "parser.escape8bitcharactersonreceive" then Assign(IntSlot(Escape8BitChars))
    else if name == "parser.escapecontrolcharactertab" then Assign(IntSlot(EscapeTab))
    else if name == "parser.escapecontrolcharacterscstyle" then Assign(IntSlot(EscapeCCCStyle))
    else if name == "debug.logfile" then OpenDebugLog
    else ProgramError
  }

  /** The action each descriptor gets, position by position. */
  const Actions: seq<Action> := [
    ApplyWorkDir,
    Assign(IntSlot(DropMalPTRMsgs)),
    Assign(StrSlot(HostNameOverride)),
    Assign(IntSlot(PreserveFQDN)),
    Assign(IntSlot(DebugOnShutdown)),
    OpenDebugLog,
    Assign(StrSlot(DfltNetstrmDrvrCAF)),
    Assign(StrSlot(DfltNetstrmDrvrKeyFile)),
    Assign(StrSlot(DfltNetstrmDrvr)),
    Assign(IntSlot(MaxLine)),
    Assign(IntSlot(ActionReportSuspension)),
    Assign(EscapeCharSlot),
    Assign(IntSlot(DropTrailingLF)),
    Assign(IntSlot(EscapeCCOnRcv)),
    Assign(IntSlot(SpaceLFOnRcv)),
    Assign(IntSlot(Escape8BitChars)),
    Assign(IntSlot(EscapeTab)),
    Assign(IntSlot(EscapeCCCStyle)),
    ProgramError
  ]

  /** The comparison chain sends every descriptor to the action listed for
      it; in particular `processinternalmessages` has no branch and reaches
      the program-error case. */
  lemma ActionsMatchChain()
    ensures |Actions| == |Descriptors|
    ensures forall i :: 0 <= i < |Descriptors| ==> DoneLoadAction(Descriptors[i].name) == Actions[i]
    ensures DoneLoadAction("processinternalmessages") == ProgramError
  {
    forall i | 0 <= i < |Descriptors|
      ensures DoneLoadAction(Descriptors[i].name) == Actions[i]
    {
      if i < 10 {
        ChainMatchesBelow(i);
      } else {
        ChainMatchesFrom(i);
      }
    }
  }

  /** A name that is not in the descriptor table reaches the program-error
      branch: the comparison chain knows no other names. */
  lemma UnknownNameIsProgramError(name: string)
    requires forall i :: 0 <= i < |Descriptors| ==> Descriptors[i].name != name
    ensures DoneLoadAction(name) == ProgramError
  {
    assert Descriptors[0].name != name && Descriptors[1].name != name && Descriptors[2].name != name;
    assert Descriptors[3].name != name && Descriptors[4].name != name && Descriptors[5].name != name;
    assert Descriptors[6].name != name && Descriptors[7].name != name && Descriptors[8].name != name;
    assert Descriptors[9].name != name && Descriptors[10].name != name && Descriptors[11].name != name;
    assert Descriptors[12].name != name && Descriptors[13].name != name && Descriptors[14].name != name;
    assert Descriptors[15].name != name && Descriptors[16].name != name && Descriptors[17].name != name;
  }

  /** Two halves of `ActionsMatchChain`, split only to keep each
      comparison of string literals small for the solver. */
  lemma ChainMatchesBelow(i: nat)
    requires i < 10
    ensures DoneLoadAction(Descriptors[i].name) == Actions[i]
  {
  }

  lemma ChainMatchesFrom(i: nat)
    requires 10 <= i < |Descriptors|
    ensures DoneLoadAction(Descriptors[i].name) == Actions[i]
  {
  }

  /** The slot an action writes, if any. */
  function TargetOf(a: Action): Option<Slot> {
    match a
    case Assign(s) => Some(s)
    case ApplyWorkDir => Some(StrSlot(WorkDir))
    case OpenDebugLog => None
    case ProgramError => None
  }

  /** No two descriptors write the same slot. */
  lemma TargetsDistinct(i: nat, j: nat)
    requires i < |Actions| && j < |Actions| && i != j
    requires TargetOf(Actions[i]).Some?
    ensures TargetOf(Actions[i]) != TargetOf(Actions[j])
  {
  }

  /** Every slot some finalisation branch can write. */
  const BindableSlots: set<Slot> := {
    StrSlot(WorkDir), IntSlot(DropMalPTRMsgs), StrSlot(HostNameOverride), IntSlot(PreserveFQDN),
    IntSlot(DebugOnShutdown), StrSlot(DfltNetstrmDrvrCAF), StrSlot(DfltNetstrmDrvrKeyFile),
    StrSlot(DfltNetstrmDrvr), IntSlot(MaxLine), IntSlot(ActionReportSuspension), EscapeCharSlot,
    IntSlot(DropTrailingLF), IntSlot(EscapeCCOnRcv), IntSlot(SpaceLFOnRcv),
    IntSlot(Escape8BitChars), IntSlot(EscapeTab), IntSlot(EscapeCCCStyle)
  }

  /** Every target of a descriptor's action is bindable. */
  lemma BindableSlotsAreTargets()
    ensures forall j :: 0 <= j < |Actions| && TargetOf(Actions[j]).Some? ==> TargetOf(Actions[j]).value in BindableSlots
  {
  }

  /** Every bindable slot is the target of some descriptor's action. */
  lemma BindableSlotsAllTargeted()
    ensures forall s :: s in BindableSlots ==> exists j :: 0 <= j < |Actions| && TargetOf(Actions[j]) == Some(s)
  {
    forall s | s in BindableSlots
      ensures exists j :: 0 <= j < |Actions| && TargetOf(Actions[j]) == Some(s)
    {
      var j :| 0 <= j < |Actions| && TargetOf(Actions[j]) == Some(s) by {
        if s == StrSlot(WorkDir) { assert TargetOf(Actions[0]) == Some(s); }
        else if s == IntSlot(DropMalPTRMsgs) { assert TargetOf(Actions[1]) == Some(s); }
        else if s == StrSlot(HostNameOverride) { assert TargetOf(Actions[2]) == Some(s); }
        else if s == IntSlot(PreserveFQDN) { assert TargetOf(Actions[3]) == Some(s); }
        else if s == IntSlot(DebugOnShutdown) { assert TargetOf(Actions[4]) == Some(s); }
        else if s == StrSlot(DfltNetstrmDrvrCAF) { assert TargetOf(Actions[6]) == Some(s); }
        else if s == StrSlot(DfltNetstrmDrvrKeyFile) { assert TargetOf(Actions[7]) == Some(s); }
        else if s == StrSlot(DfltNetstrmDrvr) { assert TargetOf(Actions[8]) == Some(s); }
        else if s == IntSlot(MaxLine) { assert TargetOf(Actions[9]) == Some(s); }
        else if s == IntSlot(ActionReportSuspension) { assert TargetOf(Actions[10]) == Some(s); }
        else if s == EscapeCharSlot { assert TargetOf(Actions[11]) == Some(s); }
        else if s == IntSlot(DropTrailingLF) { assert TargetOf(Actions[12]) == Some(s); }
        else if s == IntSlot(EscapeCCOnRcv) { assert TargetOf(Actions[13]) == Some(s); }
        else if s == IntSlot(SpaceLFOnRcv) { assert TargetOf(Actions[14]) == Some(s); }
        else if s == IntSlot(Escape8BitChars) { assert TargetOf(Actions[15]) == Some(s); }
        else if s == IntSlot(EscapeTab) { assert TargetOf(Actions[16]) == Some(s); }
        else { assert TargetOf(Actions[17]) == Some(s); }
      }
    }
  }

  /** The whole loop writes only bindable slots, and so keeps the store's
      invariant. */
  lemma ApplyFromBindable(g: Globals, vals: seq<Option<Value>>, fs: FileSystem, i: nat)
    requires Valid(g) && WellTypedVals(vals) && i <= |vals|
    ensures Valid(ApplyFrom(g, vals, fs, i))
    ensures AgreeOutside(ApplyFrom(g, vals, fs, i), g, BindableSlots)
  {
    var r := ApplyFrom(g, vals, fs, i);
    WrittenFromBindable(vals, i);
    AgreeWeaken(r, g, WrittenFrom(vals, i), BindableSlots);
    ValidFrame(g, r, BindableSlots);
  }

  lemma WrittenFromBindable(vals: seq<Option<Value>>, i: nat)
    requires |vals| == |Actions|
    ensures WrittenFrom(vals, i) <= BindableSlots
  {
    BindableSlotsAreTargets();
  }

  /** Finalisation never writes the immediate parameter's setting or the
      bound values. */
  lemma UntargetedSlots()
    ensures forall j :: 0 <= j < |Actions| ==>
      TargetOf(Actions[j]) != Some(IntSlot(ProcessInternalMessages)) && TargetOf(Actions[j]) != Some(BoundSlot)
  {
  }

  /** How a bound value is stored: strings as they are, binary switches as
      0 or 1, numbers through the `(int)` cast, characters as the first byte
      of their string. */
  function Coerce(v: Value): (r: SlotVal)
    ensures v.Str? ==> r == StrV(Some(v.text))
    ensures v.Bin? ==> r.IntV? && (r.n == 1 <==> v.on) && (r.n == 0 <==> !v.on)
    ensures (v.Num? || v.Size?) ==> r.IntV? && IsInt32(r.n) && (IsInt32(v.n) ==> r.n == v.n)
    ensures (v.Num? || v.Size?) ==> r.IntV? && (r.n - v.n) % Int32Modulus == 0
    ensures v.Char? ==> r.CharV? && r.c as int < 0x100 && (|v.text| == 0 ==> r.c == 0 as char)
    ensures v.Char? ==> r.CharV? && r.c as int == FirstByte(v.text)
  {
    match v
    case Str(t) => StrV(Some(t))
    case Bin(b) => IntV(if b then 1 else 0)
    case Num(n) => IntV(ToInt32(n))
    case Size(n) => IntV(ToInt32(n))
    case Char(t) => CharV(FirstChar(t))
  }

  /** A size past 32 bits keeps its low 32 bits, and an ASCII escape prefix is
      stored as itself. */
  lemma CoerceExamples()
    ensures Coerce(Size(0x1_0000_0005)) == IntV(5)
    ensures Coerce(Num(0xFFFF_FFFF)) == IntV(-1)
    ensures Coerce(Char("#")) == CharV('#')
  {
  }

  /** The value is of the kind the action stores. */
  predicate Accepts(a: Action, v: Value) {
    match a
    case Assign(s) => Fits(s, Coerce(v))
    case ApplyWorkDir => v.Str?
    case OpenDebugLog => true
    case ProgramError => true
  }

  /** Every value the parser can produce for a descriptor suits its action. */
  lemma DescriptorValuesAccepted(i: nat, v: Value)
    requires i < |Descriptors| && HasType(v, Descriptors[i].ptype)
    ensures Accepts(Actions[i], v)
  {
  }

  /** The work directory after the validating setter ran on `t`. */
  function WorkDirAfter(t: string, fs: FileSystem, prior: Option<string>): Option<string> {
    if |t| > 0 && fs(TrimTrailingSlashes(t)) == Directory then Some(TrimTrailingSlashes(t)) else prior
  }

  /** One branch of `glblDoneLoadCnf`: the parameter's value goes to its own
      setting and no other; the work directory keeps its prior value when
      validation fails; the debug log and program-error branches change no
      setting of the store. */
  function ApplyParam(g: Globals, a: Action, v: Value, fs: FileSystem): (r: Globals)
    requires Accepts(a, v)
    ensures a.Assign? ==> Read(r, a.slot) == Coerce(v)
    ensures a.ApplyWorkDir? ==> r.workDir == WorkDirAfter(v.text, fs, g.workDir)
    ensures TargetOf(a).None? ==> r == g
    ensures AgreeOutside(r, g, if TargetOf(a).Some? then {TargetOf(a).value} else {})
  {
    match a
    case Assign(s) => Write(g, s, Coerce(v))
    case ApplyWorkDir => SetWorkDir(g, v.text, fs).g
    case OpenDebugLog => g
    case ProgramError => g
  }

  /** The value slot `s` holds after action `a` ran with value `v` on a
      store where `s` held `prior`. */
  function Effect(a: Action, v: Value, fs: FileSystem, prior: SlotVal): SlotVal
    requires Accepts(a, v)
  {
    match a
    case Assign(_) => Coerce(v)
    case ApplyWorkDir => if prior.StrV? then StrV(WorkDirAfter(v.text, fs, prior.s)) else prior
    case OpenDebugLog => prior
    case ProgramError => prior
  }

  /** The loop of `glblDoneLoadCnf` from position `i` on: each used
      parameter is applied in table order. */
  function ApplyFrom(g: Globals, vals: seq<Option<Value>>, fs: FileSystem, i: nat): (r: Globals)
    requires WellTypedVals(vals) && i <= |vals|
    ensures AgreeOutside(r, g, WrittenFrom(vals, i))
    decreases |vals| - i
  {
    if i == |vals| then g
    else
      var g1 := if vals[i].Some? then ApplyStep(g, vals, fs, i) else g;
      var r := ApplyFrom(g1, vals, fs, i + 1);
      WrittenFromStep(vals, i);
      AgreeTransitive(r, g1, g, WrittenFrom(vals, i + 1), StepWrites(vals, i));
      r
  }

  /** The slot the used parameter at position `i` writes, if any. */
  function StepWrites(vals: seq<Option<Value>>, i: nat): set<Slot>
    requires |vals| == |Actions| && i < |vals|
  {
    if vals[i].Some? && TargetOf(Actions[i]).Some? then {TargetOf(Actions[i]).value} else {}
  }

  lemma WrittenFromStep(vals: seq<Option<Value>>, i: nat)
    requires |vals| == |Actions| && i < |vals|
    ensures WrittenFrom(vals, i) == WrittenFrom(vals, i + 1) + StepWrites(vals, i)
  {
  }

  /** Applying the used parameter at position `i`. */
  function ApplyStep(g: Globals, vals: seq<Option<Value>>, fs: FileSystem, i: nat): (r: Globals)
    requires WellTypedVals(vals) && i < |vals| && vals[i].Some?
    ensures AgreeOutside(r, g, StepWrites(vals, i))
  {
    ActionsMatchChain();
    DescriptorValuesAccepted(i, vals[i].value);
    ApplyParam(g, DoneLoadAction(Descriptors[i].name), vals[i].value, fs)
  }

  /** The slots written by the used parameters at positions `i` and later. */
  function WrittenFrom(vals: seq<Option<Value>>, i: nat): set<Slot>
    requires |vals| == |Actions|
  {
    set j | i <= j < |vals| && vals[j].Some? && TargetOf(Actions[j]).Some? :: TargetOf(Actions[j]).value
  }

  /** The used parameter at position `i` or later that writes slot `s`. */
  function WriterFrom(vals: seq<Option<Value>>, s: Slot, i: nat): (r: Option<nat>)
    requires |vals| == |Actions| && i <= |vals|
    ensures r.Some? ==> i <= r.value < |vals| && vals[r.value].Some? && TargetOf(Actions[r.value]) == Some(s)
    ensures r.None? ==> forall j :: i <= j < |vals| && vals[j].Some? ==> TargetOf(Actions[j]) != Some(s)
    decreases |vals| - i
  {
    if i == |vals| then None
    else if vals[i].Some? && TargetOf(Actions[i]) == Some(s) then Some(i)
    else WriterFrom(vals, s, i + 1)
  }

  /** What the loop leaves in each slot: the effect of the one used
      parameter that writes it, or the prior value if none does. */
  lemma {:induction false} ApplyFromReads(g: Globals, vals: seq<Option<Value>>, fs: FileSystem, i: nat, s: Slot)
    requires WellTypedVals(vals) && i <= |vals|
    ensures var w := WriterFrom(vals, s, i);
            w.Some? ==> Accepts(Actions[w.value], vals[w.value].value)
    ensures var r := ApplyFrom(g, vals, fs, i);
            var w := WriterFrom(vals, s, i);
            Read(r, s) == if w.None? then Read(g, s)
                          else Effect(Actions[w.value], vals[w.value].value, fs, Read(g, s))
    decreases |vals| - i
  {
    ActionsMatchChain();
    var w := WriterFrom(vals, s, i);
    if w.Some? {
      DescriptorValuesAccepted(w.value, vals[w.value].value);
    }
    if i < |vals| {
      var g1 := if vals[i].Some? then ApplyStep(g, vals, fs, i) else g;
      ApplyFromReads(g1, vals, fs, i + 1, s);
      var w1 := WriterFrom(vals, s, i + 1);
      if vals[i].Some? && TargetOf(Actions[i]) == Some(s) {
        if w1.Some? {
          TargetsDistinct(i, w1.value);
        }
        DescriptorValuesAccepted(i, vals[i].value);
        var a := Actions[i];
        if a.ApplyWorkDir? {
          assert Read(g1, s) == StrV(g1.workDir);
        }
      } else if vals[i].Some? {
        DescriptorValuesAccepted(i, vals[i].value);
        assert Read(g1, s) == Read(g, s);
      }
    }
  }

  /** `glblDoneLoadCnf`: nothing happens while no values are bound;
      otherwise every used parameter is applied. The store's invariant is
      kept. */
  function DoneLoadCnf(g: Globals, fs: FileSystem): (r: Globals)
    requires Valid(g)
    ensures Valid(r)
    ensures g.bound.None? ==> r == g
    ensures AgreeOutside(r, g, BindableSlots)
  {
    if g.bound.None? then g
    else
      ApplyFromBindable(g, g.bound.value, fs, 0);
      ApplyFrom(g, g.bound.value, fs, 0)
  }

  /** Finalisation leaves alone every setting no used parameter names, and
      in particular `processinternalmessages` (already applied while parsing)
      and the bound values themselves. */
  lemma DoneLoadCnfFrame(g: Globals, fs: FileSystem)
    requires Valid(g) && g.bound.Some?
    ensures var r := DoneLoadCnf(g, fs);
            && AgreeOutside(r, g, WrittenFrom(g.bound.value, 0))
            && r.processInternalMessages == g.processInternalMessages
            && r.bound == g.bound
  {
    ActionsMatchChain();
    UntargetedSlots();
    var vals := g.bound.value;
    var r := DoneLoadCnf(g, fs);
    assert IntSlot(ProcessInternalMessages) !in WrittenFrom(vals, 0);
    assert BoundSlot !in WrittenFrom(vals, 0);
    assert Read(r, IntSlot(ProcessInternalMessages)) == Read(g, IntSlot(ProcessInternalMessages));
    assert Read(r, BoundSlot) == Read(g, BoundSlot);
  }

  /** Finalisation leaves runtime state alone: the resolved hostname parts,
      the bindings, the cells, the local IP and the termination flag. */
  lemma DoneLoadCnfKeepsRuntimeState(g: Globals, fs: FileSystem)
    requires Valid(g)
    ensures var r := DoneLoadCnf(g, fs);
            && r.hostName == g.hostName && r.fqdn == g.fqdn && r.bound == g.bound
            && r.heap == g.heap && r.localIP == g.localIP && r.terminateInputs == g.terminateInputs
  {
    OutsideBindable(g, DoneLoadCnf(g, fs));
  }

  lemma OutsideBindable(g: Globals, r: Globals)
    requires AgreeOutside(r, g, BindableSlots)
    ensures && r.hostName == g.hostName && r.fqdn == g.fqdn && r.bound == g.bound
            && r.heap == g.heap && r.localIP == g.localIP && r.terminateInputs == g.terminateInputs
  {
    assert Read(r, StrSlot(HostName)) == Read(g, StrSlot(HostName));
    assert Read(r, StrSlot(FQDN)) == Read(g, StrSlot(FQDN));
    assert Read(r, BoundSlot) == Read(g, BoundSlot);
    assert Read(r, HeapSlot) == Read(g, HeapSlot);
    assert Read(r, LocalIPSlot) == Read(g, LocalIPSlot);
    assert Read(r, TerminationSlot) == Read(g, TerminationSlot);
  }

  /** A used parameter whose branch stores its value sets exactly that
      value into its setting, whatever the other parameters are. */
  lemma DoneLoadCnfAssigns(g: Globals, fs: FileSystem, i: nat)
    requires Valid(g) && g.bound.Some?
    requires i < |g.bound.value| && g.bound.value[i].Some? && Actions[i].Assign?
    ensures Read(DoneLoadCnf(g, fs), Actions[i].slot) == Coerce(g.bound.value[i].value)
  {
    ActionsMatchChain();
    var vals := g.bound.value;
    var s := Actions[i].slot;
    ApplyFromReads(g, vals, fs, 0, s);
    var w := WriterFrom(vals, s, 0);
    if w.value != i {
      TargetsDistinct(i, w.value);
    }
  }

  /** An unused parameter's setting keeps the value it had before
      finalisation: no other parameter writes it. */
  lemma DoneLoadCnfKeepsUnused(g: Globals, fs: FileSystem, i: nat)
    requires Valid(g) && g.bound.Some?
    requires i < |g.bound.value| && g.bound.value[i].None? && TargetOf(Actions[i]).Some?
    ensures Read(DoneLoadCnf(g, fs), TargetOf(Actions[i]).value) == Read(g, TargetOf(Actions[i]).value)
  {
    ActionsMatchChain();
    var vals := g.bound.value;
    var s := TargetOf(Actions[i]).value;
    ApplyFromReads(g, vals, fs, 0, s);
    var w := WriterFrom(vals, s, 0);
    if w.Some? {
      TargetsDistinct(i, w.value);
      assert false;
    }
  }

  /** A used `workdirectory` goes through the validating setter: the
      normalised name when it is an existing directory, else the old work
      directory. */
  lemma DoneLoadCnfWorkDir(g: Globals, fs: FileSystem)
    requires Valid(g) && g.bound.Some? && g.bound.value[0].Some?
    ensures g.bound.value[0].value.Str?
    ensures DoneLoadCnf(g, fs).workDir == WorkDirAfter(g.bound.value[0].value.text, fs, g.workDir)
  {
    ActionsMatchChain();
    var vals := g.bound.value;
    ApplyFromReads(g, vals, fs, 0, StrSlot(WorkDir));
  }

  /** With nothing bound, finalisation is a no-op. */
  lemma DoneLoadCnfWithoutValues(g: Globals, fs: FileSystem)
    requires Valid(g) && g.bound.None?
    ensures DoneLoadCnf(g, fs) == g
  {
  }

  /** The loop of `glblProcessCnf` from position `i` on: only
      `processinternalmessages` is applied, as 0 or 1. */
  function ApplyImmediate(g: Globals, vals: seq<Option<Value>>, i: nat): (r: Globals)
    requires WellTypedVals(vals) && i <= |vals|
    ensures i <= ProcessInternalMessagesIndex && vals[ProcessInternalMessagesIndex].Some? ==>
      r.processInternalMessages == (if vals[ProcessInternalMessagesIndex].value.on then 1 else 0)
    ensures !(i <= ProcessInternalMessagesIndex && vals[ProcessInternalMessagesIndex].Some?) ==>
      r.processInternalMessages == g.processInternalMessages
    ensures AgreeOutside(r, g, {IntSlot(ProcessInternalMessages)})
    decreases |vals| - i
  {
    DescriptorFacts();
    if i == |vals| then g
    else
      var g1 := if vals[i].Some? && Descriptors[i].name == "processinternalmessages"
                then Write(g, IntSlot(ProcessInternalMessages), Coerce(vals[i].value))
                else g;
      ApplyImmediate(g1, vals, i + 1)
  }

  /** `glblProcessCnf`: the parser's bound values for the block (merged with
      those of earlier blocks by the parser) are kept for finalisation, and
      `processinternalmessages` takes effect at once. */
  function ProcessCnf(g: Globals, parsed: seq<Option<Value>>): (r: Globals)
    requires Valid(g) && WellTypedVals(parsed)
    ensures Valid(r)
    ensures r.bound == Some(parsed)
    ensures parsed[ProcessInternalMessagesIndex].Some? ==>
      r.processInternalMessages == (if parsed[ProcessInternalMessagesIndex].value.on then 1 else 0)
    ensures parsed[ProcessInternalMessagesIndex].None? ==>
      r.processInternalMessages == g.processInternalMessages
    ensures AgreeOutside(r, g, {BoundSlot, IntSlot(ProcessInternalMessages)})
  {
    var g1 := Write(g, BoundSlot, BoundV(Some(parsed)));
    var r := ApplyImmediate(g1, parsed, 0);
    assert Read(r, BoundSlot) == Read(g1, BoundSlot);
    ValidFrame(g1, r, {IntSlot(ProcessInternalMessages)});
    r
  }
}
