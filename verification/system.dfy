/** The store as a whole: every operation the rest of the daemon performs on
    it, run in any order, and the guarantees that hold across such runs --
    the invariant, the one-way termination flag, and the pinned local IP. */
module System {

  import opened Types
  import opened Cells
  import opened ParamTable
  import opened Store
  import opened WorkDir
  import opened HostName
  import opened LocalIP
  import opened Lifecycle
  import opened Binding
  import opened Legacy

  /** One operation on the store. */
  datatype Op =
    | SetSetting(slot: Slot, x: SlotVal)                    // a generated or exported setter
    | SetWorkDirectory(dir: string, fs: FileSystem)          // `setWorkDir`
    | SetLocalHostIPFromInterface(iface: string, ifs: Interfaces)
    | ReadLocalHostIP                                        // `GetLocalHostIP`
    | RegenerateHostNameProperty                             // `GenerateLocalHostNameProperty`
    | RequestInputTermination                                // `SetGlobalInputTermination`
    | ResetConfiguration                                     // `resetConfigVariables`
    | PrepareLoad                                            // `glblPrepCnf`
    | ProcessGlobalBlock(parsed: seq<Option<Value>>)         // `glblProcessCnf`
    | ProcessMainQueue(o: CnfObj)                            // `glblProcessMainQCnf`
    | DestructMainQueue                                      // `glblDestructMainqCnfObj`
    | FinishLoad(fs: FileSystem)                             // `glblDoneLoadCnf`
    | RunLegacy(k: nat, v: Value, fs: FileSystem, ifs: Interfaces)  // a legacy directive

  /** The operation's precondition on the store and its arguments: the
      setter exists and takes a value of that kind, the regenerated name is
      set, the parsed block and the legacy directive's value are typed as
      their descriptors say. */
  predicate Enabled(g: Globals, op: Op) {
    match op
    case SetSetting(s, x) => HasSetter(s) && Fits(s, x)
    case RegenerateHostNameProperty => GetLocalHostName(g).Some?
    case ProcessGlobalBlock(parsed) => WellTypedVals(parsed)
    case RunLegacy(k, v, _, _) =>
      k < |LegacyTable| && (LegacyTable[k].ptype != HdlrCustom ==> HasType(v, LegacyTable[k].ptype))
    case _ => true
  }

  /** Agreement outside a set that leaves the cells, the local IP and the
      termination flag out keeps all three. */
  lemma KeepsUntouched(g: Globals, r: Globals, except: set<Slot>)
    requires AgreeOutside(r, g, except)
    requires HeapSlot !in except && LocalIPSlot !in except && TerminationSlot !in except
    ensures r.heap == g.heap && r.localIP == g.localIP && r.terminateInputs == g.terminateInputs
  {
  }

  /** What no operation can undo: the cells only grow, a set local IP keeps
      its cell, and the termination flag is written only by the termination
      request, always to 1. */
  ghost predicate Keeps(g: Globals, r: Globals, requested: bool) {
    && Grows(g.heap, r.heap)
    && (g.localIP.Some? ==> r.localIP == g.localIP)
    && r.terminateInputs == if requested then 1 else g.terminateInputs
  }

  /** The store after one operation, or `None` when it is not enabled. */
  function Apply(g: Globals, op: Op): (r: Option<Globals>)
    requires Valid(g)
    ensures r.Some? <==> Enabled(g, op)
    ensures r.Some? ==> Valid(r.value) && Keeps(g, r.value, op.RequestInputTermination?)
  {
    if !Enabled(g, op) then None
    else if op.SetSetting? || op.SetWorkDirectory? || op.SetLocalHostIPFromInterface?
         || op.ReadLocalHostIP? || op.RegenerateHostNameProperty? || op.RequestInputTermination?
    then Some(ApplyRuntime(g, op))
    else if op.RunLegacy? then
      TableValuesAccepted(op.k, op.v);
      var r := ApplyLegacy(g, LegacyTable[op.k], op.v, op.fs, op.ifs).g;
      LegacyKeeps(g, LegacyTable[op.k], op.v, op.fs, op.ifs);
      Some(r)
    else if op.PrepareLoad? || op.FinishLoad? then Some(ApplyLoadBoundary(g, op))
    else if op.ProcessGlobalBlock? || op.ResetConfiguration? then Some(ApplyDirective(g, op))
    else Some(ApplyMainQueue(g, op))
  }

  /** The operations the running daemon performs on the store. */
  function ApplyRuntime(g: Globals, op: Op): (r: Globals)
    requires Valid(g) && Enabled(g, op)
    requires op.SetSetting? || op.SetWorkDirectory? || op.SetLocalHostIPFromInterface?
             || op.ReadLocalHostIP? || op.RegenerateHostNameProperty? || op.RequestInputTermination?
    ensures Valid(r) && Keeps(g, r, op.RequestInputTermination?)
  {
    match op
    case SetSetting(s, x) =>
      var r := Write(g, s, x);
      ValidFrame(g, r, {s});
      KeepsUntouched(g, r, {s});
      r
    case SetWorkDirectory(dir, fs) =>
      var r := SetWorkDir(g, dir, fs).g;
      KeepsUntouched(g, r, {StrSlot(WorkDir)});
      r
    case SetLocalHostIPFromInterface(iface, ifs) =>
      var r := SetLocalHostIPIF(g, iface, ifs).g;
      assert Read(r, TerminationSlot) == Read(g, TerminationSlot);
      r
    case ReadLocalHostIP =>
      var r := GetLocalHostIP(g).0;
      assert Read(r, TerminationSlot) == Read(g, TerminationSlot);
      r
    case RegenerateHostNameProperty =>
      var r := GenerateLocalHostNameProperty(g);
      assert Read(r, LocalIPSlot) == Read(g, LocalIPSlot);
      assert Read(r, TerminationSlot) == Read(g, TerminationSlot);
      r
    case RequestInputTermination =>
      var r := SetGlobalInputTermination(g);
      ValidFrame(g, r, {TerminationSlot});
      assert Read(r, HeapSlot) == Read(g, HeapSlot);
      assert Read(r, LocalIPSlot) == Read(g, LocalIPSlot);
      r
  }

  /** The start and the end of a configuration load. */
  function ApplyLoadBoundary(g: Globals, op: Op): (r: Globals)
    requires Valid(g) && (op.PrepareLoad? || op.FinishLoad?)
    ensures Valid(r) && Keeps(g, r, false)
  {
    match op
    case PrepareLoad =>
      var r := PrepCnf(g);
      KeepsUntouched(g, r, {MainQSlot, BoundSlot});
      r
    case FinishLoad(fs) =>
      DoneLoadCnfKeepsRuntimeState(g, fs);
      DoneLoadCnf(g, fs)
  }

  /** A global block of the structured configuration, and the reset
      directive. */
  function ApplyDirective(g: Globals, op: Op): (r: Globals)
    requires Valid(g) && Enabled(g, op) && (op.ProcessGlobalBlock? || op.ResetConfiguration?)
    ensures Valid(r) && Keeps(g, r, false)
  {
    match op
    case ProcessGlobalBlock(parsed) =>
      var r := ProcessCnf(g, parsed);
      KeepsUntouched(g, r, {BoundSlot, IntSlot(ProcessInternalMessages)});
      r
    case ResetConfiguration =>
      var r := ResetConfigVariables(g);
      KeepsUntouched(g, r, ResetSlots);
      r
  }

  /** The main queue object of a load. */
  function ApplyMainQueue(g: Globals, op: Op): (r: Globals)
    requires Valid(g) && (op.ProcessMainQueue? || op.DestructMainQueue?)
    ensures Valid(r) && Keeps(g, r, false)
  {
    var r := if op.ProcessMainQueue? then ProcessMainQCnf(g, op.o) else DestructMainqCnfObj(g);
    ValidFrame(g, r, {MainQSlot});
    KeepsUntouched(g, r, {MainQSlot});
    r
  }

  /** The store after a sequence of operations, or `None` if one of them is
      not enabled where it runs. */
  function Run(g: Globals, ops: seq<Op>): (r: Option<Globals>)
    requires Valid(g)
    ensures r.Some? ==> Valid(r.value)
    decreases |ops|
  {
    if |ops| == 0 then Some(g)
    else match Apply(g, ops[0])
      case None => None
      case Some(g1) => Run(g1, ops[1..])
  }

  /** The legacy handlers keep the same three facts. */
  lemma LegacyKeeps(g: Globals, d: LegacyDirective, v: Value, fs: FileSystem, ifs: Interfaces)
    requires Valid(g) && LegacyAccepts(d, v)
    requires d.handler.StoreInto? ==> HasSetter(d.handler.slot) || d.handler.slot == StrSlot(HostNameOverride)
    ensures Keeps(g, ApplyLegacy(g, d, v, fs, ifs).g, false)
  {
    var r := ApplyLegacy(g, d, v, fs, ifs).g;
    match d.handler
    case StoreInto(s) => KeepsUntouched(g, r, {s});
    case WorkDirHandler => KeepsUntouched(g, r, {StrSlot(WorkDir)});
    case LocalHostIPIFHandler =>
      assert Read(r, TerminationSlot) == Read(g, TerminationSlot);
    case ResetHandler => KeepsUntouched(g, r, ResetSlots);
    case DebugFileHandler =>
    case DebugLevelHandler =>
  }

  /** The same facts over any run: cells only grow, a set local IP stays
      set to the same cell, and a requested termination stays requested. */
  lemma {:induction false} RunKeeps(g: Globals, ops: seq<Op>)
    requires Valid(g)
    ensures Run(g, ops).Some? ==>
      var r := Run(g, ops).value;
      && Grows(g.heap, r.heap)
      && (g.localIP.Some? ==> r.localIP == g.localIP)
      && (g.terminateInputs == 1 ==> r.terminateInputs == 1)
    decreases |ops|
  {
    if |ops| > 0 && Run(g, ops).Some? {
      var g1 := Apply(g, ops[0]).value;
      RunKeeps(g1, ops[1..]);
      GrowsTransitive(g.heap, g1.heap, Run(g1, ops[1..]).value.heap);
    }
  }

  /** Once requested, input termination is reported by every later state. */
  lemma TerminationSticky(g: Globals, ops: seq<Op>)
    requires Valid(g) && GetGlobalInputTermState(g) == 1
    ensures Run(g, ops).Some? ==> GetGlobalInputTermState(Run(g, ops).value) == 1
  {
    RunKeeps(g, ops);
  }

  /** Once the local IP is set -- by an interface or by the first read --
      every later state reports the same cell with the same address, and
      every later attempt to set it from an interface is refused. */
  lemma LocalIPPinned(g: Globals, ops: seq<Op>, iface: string, ifs: Interfaces)
    requires Valid(g) && g.localIP.Some?
    ensures Run(g, ops).Some? ==>
      var r := Run(g, ops).value;
      && GetLocalHostIP(r) == (r, g.localIP.value)
      && r.heap.text[g.localIP.value] == g.heap.text[g.localIP.value]
      && SetLocalHostIPIF(r, iface, ifs) == Step(r, Err)
  {
    RunKeeps(g, ops);
  }

  /** A run that starts by reading the local IP pins it to 127.0.0.1 when
      nothing had set it. */
  lemma FirstReadPinsLoopback(g: Globals, ops: seq<Op>)
    requires Valid(g) && g.localIP.None?
    ensures Run(g, [ReadLocalHostIP] + ops).Some? ==>
      var r := Run(g, [ReadLocalHostIP] + ops).value;
      r.localIP.Some? && r.heap.text[r.localIP.value] == LoopbackIP
  {
    var g1 := Apply(g, ReadLocalHostIP).value;
    assert ([ReadLocalHostIP] + ops)[1..] == ops;
    RunKeeps(g1, ops);
  }
}
