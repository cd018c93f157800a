/** A whole configuration load -- preparation, the global block, and
    finalisation -- and what it means for the hostname the daemon shows. */
module Scenarios {

  import opened Types
  import opened ParamTable
  import opened Store
  import opened WorkDir
  import opened HostName
  import opened Lifecycle
  import opened Binding

  /** Positions of the two hostname parameters in the descriptor table. */
  const LocalHostNameIndex: nat := 2
  const PreserveFQDNIndex: nat := 3

  /** The state just before finalisation: the previous load's main queue
      object and bindings are dropped and the block's bindings recorded.
      The hostname settings are untouched so far. */
  function Bound(g: Globals, parsed: seq<Option<Value>>): (r: Globals)
    requires Valid(g) && WellTypedVals(parsed)
    ensures Valid(r) && r.bound == Some(parsed)
    ensures r.hostNameOverride == g.hostNameOverride && r.preserveFQDN == g.preserveFQDN
    ensures r.hostName == g.hostName && r.fqdn == g.fqdn
  {
    var r := ProcessCnf(PrepCnf(g), parsed);
    assert Read(r, StrSlot(HostNameOverride)) == Read(g, StrSlot(HostNameOverride));
    assert Read(r, IntSlot(PreserveFQDN)) == Read(g, IntSlot(PreserveFQDN));
    assert Read(r, StrSlot(HostName)) == Read(g, StrSlot(HostName));
    assert Read(r, StrSlot(FQDN)) == Read(g, StrSlot(FQDN));
    r
  }

  /** Loading a configuration whose global block the parser turned into
      `parsed`: preparation, the block, and finalisation. The short
      hostname and the FQDN are not configuration parameters and keep
      their values. */
  function Load(g: Globals, parsed: seq<Option<Value>>, fs: FileSystem): (r: Globals)
    requires Valid(g) && WellTypedVals(parsed)
    ensures Valid(r) && r.bound == Some(parsed)
    ensures r.hostName == g.hostName && r.fqdn == g.fqdn
  {
    var b := Bound(g, parsed);
    var r := DoneLoadCnf(b, fs);
    DoneLoadCnfKeepsRuntimeState(b, fs);
    r
  }

  /** The hostname override's setting after a load. */
  lemma LoadedOverride(g: Globals, parsed: seq<Option<Value>>, fs: FileSystem)
    requires Valid(g) && WellTypedVals(parsed)
    ensures parsed[LocalHostNameIndex].Some? ==>
      parsed[LocalHostNameIndex].value.Str? &&
      Load(g, parsed, fs).hostNameOverride == Some(parsed[LocalHostNameIndex].value.text)
    ensures parsed[LocalHostNameIndex].None? ==> Load(g, parsed, fs).hostNameOverride == g.hostNameOverride
  {
    var b := Bound(g, parsed);
    assert Actions[LocalHostNameIndex] == Assign(StrSlot(HostNameOverride));
    assert Descriptors[LocalHostNameIndex].ptype == HdlrGetWord;
    if parsed[LocalHostNameIndex].Some? {
      DoneLoadCnfAssigns(b, fs, LocalHostNameIndex);
    } else {
      DoneLoadCnfKeepsUnused(b, fs, LocalHostNameIndex);
    }
  }

  /** The PreserveFQDN switch after a load. */
  lemma LoadedPreserveFQDN(g: Globals, parsed: seq<Option<Value>>, fs: FileSystem)
    requires Valid(g) && WellTypedVals(parsed)
    ensures parsed[PreserveFQDNIndex].Some? ==>
      parsed[PreserveFQDNIndex].value.Bin? &&
      Load(g, parsed, fs).preserveFQDN == if parsed[PreserveFQDNIndex].value.on then 1 else 0
    ensures parsed[PreserveFQDNIndex].None? ==> Load(g, parsed, fs).preserveFQDN == g.preserveFQDN
  {
    var b := Bound(g, parsed);
    assert Actions[PreserveFQDNIndex] == Assign(IntSlot(PreserveFQDN));
    assert Descriptors[PreserveFQDNIndex].ptype == HdlrBinary;
    if parsed[PreserveFQDNIndex].Some? {
      DoneLoadCnfAssigns(b, fs, PreserveFQDNIndex);
    } else {
      DoneLoadCnfKeepsUnused(b, fs, PreserveFQDNIndex);
    }
  }

  /** A configured `localhostname` is the displayed name after the load,
      whatever `preservefqdn` says. */
  lemma ConfiguredNameIsShown(g: Globals, parsed: seq<Option<Value>>, fs: FileSystem, h: string)
    requires Valid(g) && WellTypedVals(parsed)
    requires parsed[LocalHostNameIndex] == Some(Str(h))
    ensures GetLocalHostName(Load(g, parsed, fs)) == Some(h)
  {
    LoadedOverride(g, parsed, fs);
  }

  /** Without an override, `preservefqdn on` shows the resolved FQDN once
      the short hostname is known. */
  lemma PreservedFQDNIsShown(g: Globals, parsed: seq<Option<Value>>, fs: FileSystem)
    requires Valid(g) && WellTypedVals(parsed)
    requires g.hostNameOverride.None? && parsed[LocalHostNameIndex].None?
    requires g.hostName.Some? && parsed[PreserveFQDNIndex] == Some(Bin(true))
    ensures GetLocalHostName(Load(g, parsed, fs)) == g.fqdn
  {
    LoadedOverride(g, parsed, fs);
    LoadedPreserveFQDN(g, parsed, fs);
  }

  /** With no hostname known at all, the fallback literal is shown. */
  lemma FallbackIsShown(g: Globals, parsed: seq<Option<Value>>, fs: FileSystem)
    requires Valid(g) && WellTypedVals(parsed)
    requires g.hostNameOverride.None? && parsed[LocalHostNameIndex].None? && g.hostName.None?
    ensures GetLocalHostName(Load(g, parsed, fs)) == Some(LocalHostFallback)
  {
    LoadedOverride(g, parsed, fs);
  }
}
