/** Hostname identity: which name the daemon shows for the local host, and
    the published hostname property cell, regenerated with a delete that is
    postponed by one generation so readers of the old cell can finish. */
module HostName {

  import opened Types
  import opened Cells
  import opened Store

  /** Shown when no hostname is known. */
  const LocalHostFallback: string := "[localhost]"

  /** `GetLocalHostName`: the configured override if there is one; otherwise
      the fallback literal while the short hostname is unset; otherwise the
      FQDN field when PreserveFQDN is exactly 1 and the short hostname for any
      other value. The FQDN field is returned even when it is unset, so the
      result is `None` (NULL) in that one case. */
  function GetLocalHostName(g: Globals): (r: Option<string>)
    ensures g.hostNameOverride.Some? ==> r == g.hostNameOverride
    ensures g.hostNameOverride.None? && g.hostName.None? ==> r == Some(LocalHostFallback)
    ensures g.hostNameOverride.None? && g.hostName.Some? && g.preserveFQDN == 1 ==> r == g.fqdn
    ensures g.hostNameOverride.None? && g.hostName.Some? && g.preserveFQDN != 1 ==> r == g.hostName
  {
    if g.hostNameOverride.Some? then g.hostNameOverride
    else if g.hostName.None? then Some(LocalHostFallback)
    else if g.preserveFQDN == 1 then g.fqdn
    else g.hostName
  }

  /** The display name is unset exactly when no override is set, the short
      hostname is set, PreserveFQDN is 1 and the FQDN is unset. */
  lemma DisplayNameUnsetIff(g: Globals)
    ensures GetLocalHostName(g).None? <==>
      g.hostNameOverride.None? && g.hostName.Some? && g.preserveFQDN == 1 && g.fqdn.None?
  {
  }

  /** `GetLocalFQDNName`: the FQDN, or the fallback literal while unset. */
  function GetLocalFQDNName(g: Globals): (r: string)
    ensures g.fqdn.Some? ==> r == g.fqdn.value
    ensures g.fqdn.None? ==> r == LocalHostFallback
  {
    GetOr(g.fqdn, LocalHostFallback)
  }

  /** The name `GenerateLocalHostNameProperty` selects, with its tests in the
      order that function makes them (override last). */
  function GeneratedName(g: Globals): Option<string> {
    if g.hostNameOverride.None? then
      if g.hostName.None? then Some(LocalHostFallback)
      else if g.preserveFQDN == 1 then g.fqdn
      else g.hostName
    else g.hostNameOverride
  }

  /** The regeneration selects the same name as `GetLocalHostName`. */
  lemma GeneratedNameIsDisplayName(g: Globals)
    ensures GeneratedName(g) == GetLocalHostName(g)
  {
  }

  /** The string of the live hostname cell, or "" when there is none, so
      that the comparison with a real name does not match. */
  function PreviousName(g: Globals): string
    requires Valid(g)
  {
    if g.hostNameProp.None? then "" else g.heap.text[g.hostNameProp.value]
  }

  /** `GenerateLocalHostNameProperty`. On entry a pending-delete cell is
      destructed and the slot cleared. If the selected name equals the live
      cell's string the live cell stays; otherwise a fresh cell holding the
      name becomes live and the former live cell becomes the pending one.
      Only the cells and the two hostname slots change. The selected name
      must be set: the code hands it to `strcmp`. */
  function GenerateLocalHostNameProperty(g: Globals): (r: Globals)
    requires Valid(g)
    requires GetLocalHostName(g).Some?
    ensures Valid(r)
    ensures g.hostNameToDelete.Some? ==> !Alive(r.heap, g.hostNameToDelete.value)
    ensures Grows(g.heap, r.heap)
    ensures GetLocalHostName(g).value == PreviousName(g) ==>
      r.hostNameProp == g.hostNameProp && r.hostNameToDelete.None?
    ensures GetLocalHostName(g).value != PreviousName(g) ==>
      && r.hostNameProp.Some?
      && !Allocated(g.heap, r.hostNameProp.value)
      && r.heap.text[r.hostNameProp.value] == GetLocalHostName(g).value
      && r.hostNameToDelete == g.hostNameProp
    ensures AgreeOutside(r, g, {HeapSlot, HostNamePropSlot, HostNameToDeleteSlot})
  {
    GeneratedNameIsDisplayName(g);
    var h0 := if g.hostNameToDelete.Some? then Destruct(g.heap, g.hostNameToDelete.value) else g.heap;
    var g0 := g.(heap := h0, hostNameToDelete := None);
    var name := GeneratedName(g).value;
    if PreviousName(g) != name then
      var (h1, born) := Construct(h0, name);
      g0.(heap := h1, hostNameToDelete := g.hostNameProp, hostNameProp := Some(born))
    else
      g0
  }

  /** `GetLocalHostNameProp`: the live hostname cell, which in a valid
      store is never a destroyed one. */
  function GetLocalHostNameProp(g: Globals): (r: Option<CellId>)
    ensures Read(g, HostNamePropSlot) == CellV(r)
    ensures Valid(g) && r.Some? ==> Alive(g.heap, r.value)
  {
    g.hostNameProp
  }

  /** After a regeneration the published cell holds the display name, unless
      the name is "" and no cell had been published yet. */
  lemma PublishedCellHoldsDisplayName(g: Globals)
    requires Valid(g) && GetLocalHostName(g).Some?
    requires GetLocalHostName(g).value != "" || g.hostNameProp.Some?
    ensures var r := GenerateLocalHostNameProperty(g);
            && GetLocalHostNameProp(r).Some?
            && r.heap.text[GetLocalHostNameProp(r).value] == GetLocalHostName(r).value
  {
  }

  /** Regenerating twice with unchanged inputs keeps the live cell: the
      second call publishes nothing new and leaves nothing pending. */
  lemma RegenerationIdempotent(g: Globals)
    requires Valid(g) && GetLocalHostName(g).Some?
    ensures var r1 := GenerateLocalHostNameProperty(g);
            && GetLocalHostName(r1).Some?
            && var r2 := GenerateLocalHostNameProperty(r1);
            && r2.hostNameProp == r1.hostNameProp
            && r2.hostNameToDelete.None?
  {
    var r1 := GenerateLocalHostNameProperty(g);
    assert GetLocalHostName(r1) == GetLocalHostName(g);
    if GetLocalHostName(g).value != PreviousName(g) {
      assert PreviousName(r1) == GetLocalHostName(g).value;
    } else {
      assert PreviousName(r1) == PreviousName(g) by {
        if g.hostNameProp.Some? {
          assert r1.heap.text[g.hostNameProp.value] == g.heap.text[g.hostNameProp.value];
        }
      }
    }
  }

  /** With no live cell, a display name of "" publishes nothing: the
      comparison string for a missing cell is "" too. */
  lemma EmptyNameWithoutCellPublishesNothing(g: Globals)
    requires Valid(g) && g.hostNameProp.None? && GetLocalHostName(g) == Some("")
    ensures GenerateLocalHostNameProperty(g).hostNameProp.None?
  {
  }

  /** Deletion is postponed by one generation: a live cell replaced by a
      regeneration stays alive through it, and the next regeneration
      destructs it. */
  lemma DeletionDelayedOneGeneration(g: Globals)
    requires Valid(g) && GetLocalHostName(g).Some? && g.hostNameProp.Some?
    requires GetLocalHostName(g).value != PreviousName(g)
    ensures var r1 := GenerateLocalHostNameProperty(g);
            && Alive(r1.heap, g.hostNameProp.value)
            && r1.hostNameProp != g.hostNameProp
            && GetLocalHostName(r1).Some?
            && !Alive(GenerateLocalHostNameProperty(r1).heap, g.hostNameProp.value)
  {
  }
}
