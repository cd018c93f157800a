/** The IP address reported for the local host: settable once from a network
    interface, and pinned to 127.0.0.1 by the first read if nothing set it. */
module LocalIP {

  import opened Types
  import opened Cells
  import opened Store

  /** What the network-interface lookup reports for an interface name. */
  datatype IfLookup = LookupFailed | LookupOk(ip: string)

  /** The host's interfaces as seen through the lookup. */
  type Interfaces = string -> IfLookup

  const LoopbackIP: string := "127.0.0.1"

  /** `storeLocalHostIPIF`: publish a fresh cell holding `ip` as the local
      IP. Its callers only use it while no local IP is set. */
  function StoreLocalHostIP(g: Globals, ip: string): (r: Globals)
    requires Valid(g) && g.localIP.None?
    ensures Valid(r)
    ensures r.localIP.Some? && r.heap.text[r.localIP.value] == ip
    ensures !Allocated(g.heap, r.localIP.value)
    ensures Grows(g.heap, r.heap)
    ensures AgreeOutside(r, g, {HeapSlot, LocalIPSlot})
  {
    var (h, c) := Construct(g.heap, ip);
    g.(heap := h, localIP := Some(c))
  }

  /** `setLocalHostIPIF`: refused with `Err` once a local IP is set, and the
      store is unchanged; a failed interface lookup is reported but returns
      `Ok` and also leaves the store unchanged; otherwise the interface's
      address becomes the local IP. */
  function SetLocalHostIPIF(g: Globals, iface: string, ifs: Interfaces): (r: Step)
    requires Valid(g)
    ensures Valid(r.g)
    ensures g.localIP.Some? ==> r == Step(g, Err)
    ensures g.localIP.None? ==> r.ret == Ok
    ensures g.localIP.None? && ifs(iface).LookupFailed? ==> r.g == g
    ensures g.localIP.None? && ifs(iface).LookupOk? ==>
      r.g.localIP.Some? && r.g.heap.text[r.g.localIP.value] == ifs(iface).ip
    ensures Grows(g.heap, r.g.heap)
    ensures AgreeOutside(r.g, g, {HeapSlot, LocalIPSlot})
  {
    if g.localIP.Some? then Step(g, Err)
    else match ifs(iface)
      case LookupFailed => Step(g, Ok)
      case LookupOk(ip) => Step(StoreLocalHostIP(g, ip), Ok)
  }

  /** `GetLocalHostIP`: the local IP cell; when none is set, a cell holding
      127.0.0.1 is stored first and returned. */
  function GetLocalHostIP(g: Globals): (r: (Globals, CellId))
    requires Valid(g)
    ensures Valid(r.0)
    ensures r.0.localIP == Some(r.1)
    ensures g.localIP.Some? ==> r.0 == g && r.1 == g.localIP.value
    ensures g.localIP.None? ==> r.0.heap.text[r.1] == LoopbackIP
    ensures Grows(g.heap, r.0.heap)
    ensures AgreeOutside(r.0, g, {HeapSlot, LocalIPSlot})
  {
    if g.localIP.None? then
      var g' := StoreLocalHostIP(g, LoopbackIP);
      (g', g'.localIP.value)
    else (g, g.localIP.value)
  }

  /** Reading the local IP pins it: every later `setLocalHostIPIF` fails and
      reading again returns the same cell with the same address. */
  lemma ReadPinsLocalIP(g: Globals, iface: string, ifs: Interfaces)
    requires Valid(g)
    ensures var (g1, c) := GetLocalHostIP(g);
            && SetLocalHostIPIF(g1, iface, ifs) == Step(g1, Err)
            && GetLocalHostIP(g1) == (g1, c)
            && (g.localIP.None? ==> g1.heap.text[c] == LoopbackIP)
  {
  }

  /** A successful interface setting cannot be replaced by a second one. */
  lemma LocalIPSetOnce(g: Globals, a: string, b: string, ifs: Interfaces)
    requires Valid(g) && g.localIP.None? && ifs(a).LookupOk?
    ensures var g1 := SetLocalHostIPIF(g, a, ifs).g;
            && SetLocalHostIPIF(g1, b, ifs) == Step(g1, Err)
            && g1.heap.text[g1.localIP.value] == ifs(a).ip
  {
  }
}
