/** The scalar global store: every process-wide setting of the runtime held in
    one immutable record, with a uniform slot view used to state what an
    operation writes and that it leaves every other setting alone. */
module Store {

  import opened Types
  import opened Cells
  import opened ParamTable

  /** The integer (and boolean-as-int) settings. */
  datatype IntSetting =
    | ParseHostnameAndTag | OptimizeUniProc | PreserveFQDN | MaxLine | DefPFFamily
    | DropMalPTRMsgs | DisallowWarning | DisableDNS
    | DropTrailingLF | EscapeCCOnRcv | SpaceLFOnRcv | Escape8BitChars | EscapeTab | EscapeCCCStyle
    | DebugOnShutdown | ProcessInternalMessages | ActionReportSuspension

  /** The string settings; each may be unset (NULL). */
  datatype StrSetting =
    | WorkDir | HostName | HostNameOverride | FQDN | Domain
    | DfltNetstrmDrvr | DfltNetstrmDrvrCAF | DfltNetstrmDrvrKeyFile | DfltNetstrmDrvrCertFile
    | SourceIPofLocalClient

  datatype Globals = Globals(
    // integer settings
    parseHostnameAndTag: int,
    optimizeUniProc: int,
    preserveFQDN: int,
    maxLine: int,
    defPFFamily: int,
    dropMalPTRMsgs: int,
    disallowWarning: int,
    disableDNS: int,
    dropTrailingLF: int,
    escapeCCOnRcv: int,
    spaceLFOnRcv: int,
    escape8BitChars: int,
    escapeTab: int,
    escapeCCCStyle: int,
    debugOnShutdown: int,
    processInternalMessages: int,
    actionReportSuspension: int,
    // the control-character escape prefix
    escapeChar: char,
    // string settings
    workDir: Option<string>,
    hostName: Option<string>,
    hostNameOverride: Option<string>,
    fqdn: Option<string>,
    domain: Option<string>,
    dfltNetstrmDrvr: Option<string>,
    dfltNetstrmDrvrCAF: Option<string>,
    dfltNetstrmDrvrKeyFile: Option<string>,
    dfltNetstrmDrvrCertFile: Option<string>,
    sourceIPofLocalClient: Option<string>,
    // string lists
    stripDomains: Option<seq<string>>,
    localHosts: Option<seq<string>>,
    // the main_queue() object of the configuration being loaded
    mainQ: Option<CnfObj>,
    // input termination flag, 0 or 1
    terminateInputs: int,
    // bound values of the structured global block
    bound: Option<seq<Option<Value>>>,
    // property cells and the slots referring to them
    heap: Heap,
    localIP: Option<CellId>,
    hostNameProp: Option<CellId>,
    hostNameToDelete: Option<CellId>
  )

  /** The result of an operation that reports a return code. */
  datatype Step = Step(g: Globals, ret: RsRet)

  /** Every independently readable piece of the store. */
  datatype Slot =
    | IntSlot(i: IntSetting)
    | StrSlot(s: StrSetting)
    | EscapeCharSlot | StripDomainsSlot | LocalHostsSlot | MainQSlot | TerminationSlot
    | BoundSlot | HeapSlot | LocalIPSlot | HostNamePropSlot | HostNameToDeleteSlot

  datatype SlotVal =
    | IntV(n: int)
    | StrV(s: Option<string>)
    | CharV(c: char)
    | ListV(l: Option<seq<string>>)
    | ObjV(o: Option<CnfObj>)
    | BoundV(b: Option<seq<Option<Value>>>)
    | HeapV(h: Heap)
    | CellV(cell: Option<CellId>)

  function IntOf(g: Globals, i: IntSetting): int {
    match i
    case ParseHostnameAndTag => g.parseHostnameAndTag
    case OptimizeUniProc => g.optimizeUniProc
    case PreserveFQDN => g.preserveFQDN
    case MaxLine => g.maxLine
    case DefPFFamily => g.defPFFamily
    case DropMalPTRMsgs => g.dropMalPTRMsgs
    case DisallowWarning => g.disallowWarning
    case DisableDNS => g.disableDNS
    case DropTrailingLF => g.dropTrailingLF
    case EscapeCCOnRcv => g.escapeCCOnRcv
    case SpaceLFOnRcv => g.spaceLFOnRcv
    case Escape8BitChars => g.escape8BitChars
    case EscapeTab => g.escapeTab
    case EscapeCCCStyle => g.escapeCCCStyle
    case DebugOnShutdown => g.debugOnShutdown
    case ProcessInternalMessages => g.processInternalMessages
    case ActionReportSuspension => g.actionReportSuspension
  }

  function StrOf(g: Globals, t: StrSetting): Option<string> {
    match t
    case WorkDir => g.workDir
    case HostName => g.hostName
    case HostNameOverride => g.hostNameOverride
    case FQDN => g.fqdn
    case Domain => g.domain
    case DfltNetstrmDrvr => g.dfltNetstrmDrvr
    case DfltNetstrmDrvrCAF => g.dfltNetstrmDrvrCAF
    case DfltNetstrmDrvrKeyFile => g.dfltNetstrmDrvrKeyFile
    case DfltNetstrmDrvrCertFile => g.dfltNetstrmDrvrCertFile
    case SourceIPofLocalClient => g.sourceIPofLocalClient
  }

  function Read(g: Globals, s: Slot): SlotVal {
    match s
    case IntSlot(i) => IntV(IntOf(g, i))
    case StrSlot(t) => StrV(StrOf(g, t))
    case EscapeCharSlot => CharV(g.escapeChar)
    case StripDomainsSlot => ListV(g.stripDomains)
    case LocalHostsSlot => ListV(g.localHosts)
    case MainQSlot => ObjV(g.mainQ)
    case TerminationSlot => IntV(g.terminateInputs)
    case BoundSlot => BoundV(g.bound)
    case HeapSlot => HeapV(g.heap)
    case LocalIPSlot => CellV(g.localIP)
    case HostNamePropSlot => CellV(g.hostNameProp)
    case HostNameToDeleteSlot => CellV(g.hostNameToDelete)
  }

  /** `a` and `b` hold the same value in every slot outside `except`. */
  ghost predicate AgreeOutside(a: Globals, b: Globals, except: set<Slot>) {
    forall s :: s !in except ==> Read(a, s) == Read(b, s)
  }

  /** A value of the right kind for the slot. */
  predicate Fits(s: Slot, x: SlotVal) {
    match s
    case IntSlot(_) => x.IntV?
    case StrSlot(_) => x.StrV?
    case EscapeCharSlot => x.CharV?
    case StripDomainsSlot => x.ListV?
    case LocalHostsSlot => x.ListV?
    case MainQSlot => x.ObjV?
    case TerminationSlot => x.IntV?
    case BoundSlot => x.BoundV?
    case HeapSlot => x.HeapV?
    case LocalIPSlot => x.CellV?
    case HostNamePropSlot => x.CellV?
    case HostNameToDeleteSlot => x.CellV?
  }

  function WithInt(g: Globals, i: IntSetting, n: int): (r: Globals)
    ensures IntOf(r, i) == n
    ensures AgreeOutside(r, g, {IntSlot(i)})
  {
    match i
    case ParseHostnameAndTag => g.(parseHostnameAndTag := n)
    case OptimizeUniProc => g.(optimizeUniProc := n)
    case PreserveFQDN => g.(preserveFQDN := n)
    case MaxLine => g.(maxLine := n)
    case DefPFFamily => g.(defPFFamily := n)
    case DropMalPTRMsgs => g.(dropMalPTRMsgs := n)
    case DisallowWarning => g.(disallowWarning := n)
    case DisableDNS => g.(disableDNS := n)
    case DropTrailingLF => g.(dropTrailingLF := n)
    case EscapeCCOnRcv => g.(escapeCCOnRcv := n)
    case SpaceLFOnRcv => g.(spaceLFOnRcv := n)
    case Escape8BitChars => g.(escape8BitChars := n)
    case EscapeTab => g.(escapeTab := n)
    case EscapeCCCStyle => g.(escapeCCCStyle := n)
    case DebugOnShutdown => g.(debugOnShutdown := n)
    case ProcessInternalMessages => g.(processInternalMessages := n)
    case ActionReportSuspension => g.(actionReportSuspension := n)
  }

  function WithStr(g: Globals, t: StrSetting, v: Option<string>): (r: Globals)
    ensures StrOf(r, t) == v
    ensures AgreeOutside(r, g, {StrSlot(t)})
  {
    match t
    case WorkDir => g.(workDir := v)
    case HostName => g.(hostName := v)
    case HostNameOverride => g.(hostNameOverride := v)
    case FQDN => g.(fqdn := v)
    case Domain => g.(domain := v)
    case DfltNetstrmDrvr => g.(dfltNetstrmDrvr := v)
    case DfltNetstrmDrvrCAF => g.(dfltNetstrmDrvrCAF := v)
    case DfltNetstrmDrvrKeyFile => g.(dfltNetstrmDrvrKeyFile := v)
    case DfltNetstrmDrvrCertFile => g.(dfltNetstrmDrvrCertFile := v)
    case SourceIPofLocalClient => g.(sourceIPofLocalClient := v)
  }

  /** The generic setter: the `Set<Name>` accessors generated for the simple
      settings, and the direct stores made by the configuration handlers.
      Reading the slot back yields the value written, and no other slot
      changes. */
  function Write(g: Globals, s: Slot, x: SlotVal): (r: Globals)
    requires Fits(s, x)
    ensures Read(r, s) == x
    ensures AgreeOutside(r, g, {s})
  {
    match s
    case IntSlot(i) => WithInt(g, i, x.n)
    case StrSlot(t) => WithStr(g, t, x.s)
    case EscapeCharSlot => g.(escapeChar := x.c)
    case StripDomainsSlot => g.(stripDomains := x.l)
    case LocalHostsSlot => g.(localHosts := x.l)
    case MainQSlot => g.(mainQ := x.o)
    case TerminationSlot => g.(terminateInputs := x.n)
    case BoundSlot => g.(bound := x.b)
    case HeapSlot => g.(heap := x.h)
    case LocalIPSlot => g.(localIP := x.cell)
    case HostNamePropSlot => g.(hostNameProp := x.cell)
    case HostNameToDeleteSlot => g.(hostNameToDelete := x.cell)
  }

  /** The slots other components may assign through an accessor or because
      the variable is exported: the `SIMP_PROP` settings, the exported
      integers, the hostname parts, the netstream driver settings and the
      local-client source IP. The work directory, the hostname override,
      the termination flag, the bound values and the property cells are
      changed only by the dedicated operations. */
  predicate HasSetter(s: Slot) {
    match s
    case IntSlot(_) => true
    case StrSlot(t) => t != WorkDir && t != HostNameOverride
    case EscapeCharSlot => true
    case StripDomainsSlot => true
    case LocalHostsSlot => true
    case MainQSlot => true
    case _ => false
  }

  lemma AgreeTransitive(a: Globals, b: Globals, c: Globals, e1: set<Slot>, e2: set<Slot>)
    requires AgreeOutside(a, b, e1) && AgreeOutside(b, c, e2)
    ensures AgreeOutside(a, c, e1 + e2)
  {
  }

  /** Agreement outside a set implies agreement outside any larger set. */
  lemma AgreeWeaken(a: Globals, b: Globals, e1: set<Slot>, e2: set<Slot>)
    requires AgreeOutside(a, b, e1) && e1 <= e2
    ensures AgreeOutside(a, b, e2)
  {
  }

  /** `PF_UNSPEC` on the platforms the daemon runs on. */
  const PF_UNSPEC: int := 0

  /** The default netstream driver used while none is configured. */
  const DfltNetstrmDrvrName: string := "ptcp"

  /** The store as the static initialisers leave it at process start.
      `bActionReportSuspension` is defined, and initialised, outside this
      component, so its start value is a parameter. The start state keeps
      the invariant, has no string set, no cells, no main queue object and no
      bound values, and inputs are not yet asked to terminate. */
  function Initial(reportSuspension: int): (r: Globals)
    ensures Valid(r)
    ensures forall t :: StrOf(r, t).None?
    ensures r.heap == EmptyHeap && r.localIP.None? && r.hostNameProp.None? && r.hostNameToDelete.None?
    ensures r.mainQ.None? && r.bound.None? && r.terminateInputs == 0
    ensures r.maxLine == 8096 && r.actionReportSuspension == reportSuspension
  {
    Globals(
      parseHostnameAndTag := 1,
      optimizeUniProc := 1,
      preserveFQDN := 0,
      maxLine := 8096,
      defPFFamily := PF_UNSPEC,
      dropMalPTRMsgs := 0,
      disallowWarning := 1,
      disableDNS := 0,
      dropTrailingLF := 1,
      escapeCCOnRcv := 1,
      spaceLFOnRcv := 0,
      escape8BitChars := 0,
      escapeTab := 1,
      escapeCCCStyle := 0,
      debugOnShutdown := 0,
      processInternalMessages := 1,
      actionReportSuspension := reportSuspension,
      escapeChar := '#',
      workDir := None,
      hostName := None,
      hostNameOverride := None,
      fqdn := None,
      domain := None,
      dfltNetstrmDrvr := None,
      dfltNetstrmDrvrCAF := None,
      dfltNetstrmDrvrKeyFile := None,
      dfltNetstrmDrvrCertFile := None,
      sourceIPofLocalClient := None,
      stripDomains := None,
      localHosts := None,
      mainQ := None,
      terminateInputs := 0,
      bound := None,
      heap := EmptyHeap,
      localIP := None,
      hostNameProp := None,
      hostNameToDelete := None
    )
  }

  /** The invariant every reachable store keeps: the property-cell slots
      refer to distinct live cells, a pending-delete cell exists only next to
      a live hostname cell, and the bound values fit the descriptor table. */
  predicate Valid(g: Globals) {
    && WellFormed(g.heap)
    && (g.localIP.Some? ==> Alive(g.heap, g.localIP.value))
    && (g.hostNameProp.Some? ==> Alive(g.heap, g.hostNameProp.value))
    && (g.hostNameToDelete.Some? ==> Alive(g.heap, g.hostNameToDelete.value))
    && (g.hostNameToDelete.Some? ==> g.hostNameProp.Some? && g.hostNameToDelete != g.hostNameProp)
    && (g.localIP.Some? ==> g.localIP != g.hostNameProp && g.localIP != g.hostNameToDelete)
    && (g.bound.Some? ==> WellTypedVals(g.bound.value))
  }

  /** A store change that touches none of the slots `Valid` talks about keeps
      it. */
  lemma ValidFrame(a: Globals, b: Globals, except: set<Slot>)
    requires Valid(a) && AgreeOutside(b, a, except)
    requires HeapSlot !in except && LocalIPSlot !in except && HostNamePropSlot !in except
    requires HostNameToDeleteSlot !in except && BoundSlot !in except
    ensures Valid(b)
  {
    assert Read(b, HeapSlot) == Read(a, HeapSlot);
    assert Read(b, LocalIPSlot) == Read(a, LocalIPSlot);
    assert Read(b, HostNamePropSlot) == Read(a, HostNamePropSlot);
    assert Read(b, HostNameToDeleteSlot) == Read(a, HostNameToDeleteSlot);
    assert Read(b, BoundSlot) == Read(a, BoundSlot);
  }

  /** `GetDfltNetstrmDrvr`: the configured driver, or "ptcp" while unset. */
  function GetDfltNetstrmDrvr(g: Globals): (r: string)
    ensures g.dfltNetstrmDrvr.Some? ==> r == g.dfltNetstrmDrvr.value
    ensures g.dfltNetstrmDrvr.None? ==> r == DfltNetstrmDrvrName
  {
    GetOr(g.dfltNetstrmDrvr, DfltNetstrmDrvrName)
  }

  /** Setting the default driver and reading it through its getter: a set
      driver comes back, and clearing it brings back the default. */
  lemma SetGetRoundTrip(g: Globals, d: Option<string>)
    ensures GetDfltNetstrmDrvr(Write(g, StrSlot(DfltNetstrmDrvr), StrV(d))) == GetOr(d, DfltNetstrmDrvrName)
  {
  }
}
