# rsyslog global settings store, modelled in Dafny

This project models `runtime/glbl.c` of rsyslog. That file is the process-wide store of global
settings and the protocol by which a configuration load fills it in. The store is one immutable
record, `Store.Globals`, and every C function of the component is a pure transition on it.

- **Settings.** The record holds:
  - the integer switches and the escape character;
  - the optional (NULL-able) strings;
  - the two string lists;
  - the `main_queue()` object of the load in progress;
  - the input termination flag;
  - the structured global block's bound values.
- **Property cells.** The published `prop_t` objects are cells of an append-only heap. Each cell
  holds a string and can be destroyed. The local IP, the live hostname property and the hostname
  property waiting to be deleted are slots holding cell ids. `Store.Valid` is the invariant every
  reachable store keeps.
- **Foreign calls.** `stat()` and the network-interface lookup are oracle parameters:
  `WorkDir.FileSystem` and `LocalIP.Interfaces`.
- **Frames.** A generic slot view (`Store.Read`, `Store.Write`, `Store.AgreeOutside`) states
  which settings an operation writes and that it leaves every other setting alone.

The modules follow the parts of the component:

| module | part |
|---|---|
| `Types`, `Cells` | return codes, the config object, the `(int)` cast, property cells |
| `ParamTable` | the structured-configuration descriptor table and typed values |
| `Store` | the settings record, the `SIMP_PROP` accessors, start-up values, the invariant |
| `WorkDir` | `setWorkDir` / `GetWorkDir` |
| `HostName` | display-name selection and hostname property regeneration |
| `LocalIP` | the once-only local host IP |
| `Lifecycle` | termination flag, main queue object, `glblPrepCnf`, `resetConfigVariables` |
| `Binding` | `glblProcessCnf` and `glblDoneLoadCnf` |
| `Legacy` | the legacy directive table registered at class initialisation |
| `System` | every operation in any order, and what no run can undo |
| `Scenarios` | a whole load, and the hostname it makes the daemon show |

The model follows the C code: with `preservefqdn` at 1 and the short hostname known, `GetLocalHostName` returns
the FQDN field even when that field is unset. There is no fallback to the short name, so the
result is NULL (`None`). `HostName.DisplayNameUnsetIff` states exactly when this happens.

## Model

| member | source | states |
|---|---|---|
| Store.Write | runtime/glbl.c:152-184 | a generated setter stores its value: reading the slot back yields it, and every other slot keeps its value |
| Store.SetGetRoundTrip | runtime/glbl.c:523-527 | the driver getter returns a driver that was set, and "ptcp" again once it is cleared |
| Store.Initial | runtime/glbl.c:66-111 | the start-up store satisfies the invariant, has no string set, no cells, no main queue object, no bound values, the termination flag at 0 and MaxLine 8096 |
| Types.ToInt32 | runtime/glbl.c:766-790 | the `(int)` cast: a 32-bit value congruent to the number modulo 2^32, equal to it when it fits |
| Types.FirstByte | runtime/glbl.c:777-778 | the first byte of the UTF-8 string: the character itself when ASCII, a lead byte 0xC2-0xF4 otherwise, with the UTF-8 tag bits of the two-, three- or four-byte form and the code point's top bits as payload, NUL for the empty string |
| Types.FirstChar | runtime/glbl.c:777-778 | the escape character stored has exactly the code of that first byte |
| Types.FirstCharExamples | runtime/glbl.c:777-778 | "#" stores '#', "" stores NUL, "é" stores 0xC3 and "€" stores 0xE2 |
| Store.GetDfltNetstrmDrvr | runtime/glbl.c:523-527 | the configured default netstream driver, or "ptcp" while none is set |
| WorkDir.TrimTrailingSlashes | runtime/glbl.c:283-297 | the result is a non-empty prefix of the value; everything removed is '/'; it ends in '/' only when it is the single first character |
| WorkDir.TrimmedIsUnique | runtime/glbl.c:283-297 | that description of the normalised name admits exactly one string |
| WorkDir.TrimIdempotent | runtime/glbl.c:283-297 | normalising a normalised name leaves it unchanged |
| WorkDir.LastKeptIndex | runtime/glbl.c:284-290 | the backwards scan ends below 0 iff the value is empty; otherwise the kept prefix is the normalised name |
| WorkDir.TrimExamples | runtime/glbl.c:283-297 | "/var/log/rsyslog/" becomes "/var/log/rsyslog"; "/" and "//" become "/"; "a//" becomes "a" |
| WorkDir.SetWorkDir | runtime/glbl.c:276-319 | succeeds iff the value is non-empty and its normalised name is a directory; on failure it returns ErrWrkDir and the store is unchanged; on success it stores the normalised name; only the work directory changes |
| WorkDir.GetWorkDir | runtime/glbl.c:507-511 | the work directory, or "" while it is unset |
| WorkDir.WorkDirRoundTrip | runtime/glbl.c:276-319 | after a successful set, the getter returns the normalised name, and setting that name again stores the same state |
| HostName.GetLocalHostName | runtime/glbl.c:375-395 | override first; "[localhost]" when the short name is unset; the FQDN field when PreserveFQDN is 1; the short name otherwise |
| HostName.DisplayNameUnsetIff | runtime/glbl.c:375-395 | the display name is NULL iff there is no override, the short name is set, PreserveFQDN is 1 and the FQDN is unset |
| HostName.GetLocalHostNameProp | runtime/glbl.c:481-485 | returns the live hostname cell, the slot regeneration writes, and in a valid store that cell is alive |
| HostName.GetLocalFQDNName | runtime/glbl.c:499-503 | the FQDN, or "[localhost]" while it is unset |
| HostName.GeneratedNameIsDisplayName | runtime/glbl.c:446-457 | the selection inside the regeneration, with its tests in their own order, picks the same name as GetLocalHostName |
| HostName.GenerateLocalHostNameProperty | runtime/glbl.c:434-476 | destroys the pending cell; keeps the live cell and clears the pending slot when the name is unchanged; otherwise a fresh cell holds the name and the old live cell becomes pending; the live cell is never a destroyed one; only the cells and the two hostname slots change |
| HostName.PublishedCellHoldsDisplayName | runtime/glbl.c:460-472 | after regeneration the published cell holds the display name, unless the name is "" and no cell existed |
| HostName.EmptyNameWithoutCellPublishesNothing | runtime/glbl.c:460-465 | with no live cell, an empty display name compares equal to "" and publishes nothing |
| HostName.RegenerationIdempotent | runtime/glbl.c:434-476 | a second regeneration with unchanged inputs keeps the live cell and leaves nothing pending |
| HostName.DeletionDelayedOneGeneration | runtime/glbl.c:443-471 | a replaced live cell survives the regeneration that replaces it and is destroyed by the next one |
| LocalIP.StoreLocalHostIP | runtime/glbl.c:222-232 | publishes a fresh cell holding the address as the local IP; only the cells and the local IP slot change |
| LocalIP.SetLocalHostIPIF | runtime/glbl.c:241-268 | refused with Err and no change once the IP is set; a failed lookup returns Ok with no change; otherwise the interface's address becomes the local IP |
| LocalIP.GetLocalHostIP | runtime/glbl.c:351-357 | returns the set cell unchanged, or first stores a fresh cell holding 127.0.0.1 |
| LocalIP.ReadPinsLocalIP | runtime/glbl.c:351-357 | after a read, setting from an interface is refused and a second read returns the same cell |
| LocalIP.LocalIPSetOnce | runtime/glbl.c:247-251 | a successful interface setting cannot be replaced by a second one |
| Lifecycle.GetGlobalInputTermState | runtime/glbl.c:202-205 | reads the termination flag, the one slot the termination request writes |
| Lifecycle.SetGlobalInputTermination | runtime/glbl.c:211-214 | the termination state becomes 1 and nothing else changes |
| Lifecycle.TerminationIdempotent | runtime/glbl.c:211-214 | requesting termination twice equals requesting it once |
| Lifecycle.ProcessMainQCnf | runtime/glbl.c:705-714 | the first main queue object is stored; with one already stored the store is unchanged |
| Lifecycle.MainQFirstWins | runtime/glbl.c:705-714 | of two main queue objects the first is kept |
| Lifecycle.DestructMainqCnfObj | runtime/glbl.c:719-728 | the main queue slot becomes empty and nothing else changes |
| Lifecycle.DestructAcceptsNewMainQ | runtime/glbl.c:705-728 | after a release the next main queue object is accepted, and storing then releasing ends where a plain release does |
| Lifecycle.PrepCnf | runtime/glbl.c:666-673 | the main queue object and the bound values are dropped; nothing else changes; the invariant is kept |
| Lifecycle.PrepAcceptsNewMainQ | runtime/glbl.c:666-673 | after preparation the next main queue object is accepted |
| Lifecycle.ResetConfigVariables | runtime/glbl.c:632-661 | the six strings become unset; the eleven listed settings get their reset values (MaxLine 8192); every setting outside that list keeps its value |
| Lifecycle.ResetRestoresInitialExceptMaxLine | runtime/glbl.c:632-661 | every reset slot gets its start-up value except MaxLine, which starts at 8096 but resets to 8192 |
| Lifecycle.ResetIdempotent | runtime/glbl.c:632-661 | resetting twice equals resetting once |
| ParamTable.DescriptorFacts | runtime/glbl.c:115-135 | the table has 19 parameters and `processinternalmessages` appears only at position 18 |
| ParamTable.CertFileNotStructured | runtime/glbl.c:115-135 | `defaultnetstreamdrivercertfile` has no structured parameter |
| Binding.DoneLoadAction | runtime/glbl.c:746-802 | the comparison chain stores values only into settings that have an accessor or into the hostname override |
| Binding.UnknownNameIsProgramError | runtime/glbl.c:746-802 | a name not in the descriptor table reaches the program-error branch |
| Binding.Coerce | runtime/glbl.c:746-790 | strings are stored as given; switches as 1 iff on and 0 iff off; numbers through the 32-bit cast: in 32-bit range, congruent to the parsed number modulo 2^32, unchanged when they fit; a character as the first UTF-8 byte of its string, NUL when empty |
| Binding.CoerceExamples | runtime/glbl.c:773-778 | a size of 2^32+5 is stored as 5, 2^32-1 as -1, and the prefix "#" as '#' |
| Binding.ActionsMatchChain | runtime/glbl.c:746-803 | the name comparisons send each descriptor to its listed action, and `processinternalmessages` to the program-error branch |
| Binding.TargetsDistinct | runtime/glbl.c:746-803 | no two parameters write the same setting |
| Binding.BindableSlotsAreTargets | runtime/glbl.c:746-790 | every setting a branch writes is in the bindable set |
| Binding.BindableSlotsAllTargeted | runtime/glbl.c:746-790 | every bindable setting is written by some parameter's branch |
| Binding.UntargetedSlots | runtime/glbl.c:746-803 | no branch writes `processinternalmessages` or the bound values |
| Binding.DescriptorValuesAccepted | runtime/glbl.c:115-135 | each value the parser can produce for a descriptor suits that descriptor's branch |
| Binding.ApplyParam | runtime/glbl.c:746-803 | an assigning branch stores the coerced value (0/1, the 32-bit cast, the first character); the work directory goes through its validating setter; the debug-log and program-error branches change nothing; nothing else changes |
| Binding.ApplyFrom | runtime/glbl.c:743-803 | the loop from a position on changes only the settings of used parameters at or after it |
| Binding.ApplyFromReads | runtime/glbl.c:743-803 | after the loop, each setting holds the effect of the one used parameter that writes it, or its prior value |
| Binding.DoneLoadCnf | runtime/glbl.c:734-810 | a no-op with nothing bound; it changes only bindable settings; the invariant is kept |
| Binding.DoneLoadCnfWithoutValues | runtime/glbl.c:740-741 | with nothing bound, finalisation leaves the store as it was |
| Binding.DoneLoadCnfFrame | runtime/glbl.c:743-803 | only the settings of used parameters change, and `processinternalmessages` and the bound values are kept |
| Binding.DoneLoadCnfKeepsRuntimeState | runtime/glbl.c:734-810 | the short hostname, FQDN, bound values, cells, local IP and termination flag survive finalisation |
| Binding.DoneLoadCnfAssigns | runtime/glbl.c:746-790 | a used assigning parameter's setting ends up holding exactly its coerced value |
| Binding.DoneLoadCnfKeepsUnused | runtime/glbl.c:744-745 | an unused parameter's setting keeps its prior value |
| Binding.DoneLoadCnfWorkDir | runtime/glbl.c:746-748 | a used `workdirectory` yields the normalised name if it is a directory, else the old work directory |
| Binding.ApplyImmediate | runtime/glbl.c:693-699 | the parse-time loop sets `processinternalmessages` to 0/1 when it is used and changes nothing else |
| Binding.ProcessCnf | runtime/glbl.c:680-700 | the block's bound values are kept for finalisation, `processinternalmessages` takes effect at once, nothing else changes |
| Legacy.TableValuesAccepted | runtime/glbl.c:823-845 | every registered directive accepts every value of its handler type and stores only into settable slots or the override |
| Legacy.ApplyLegacy | runtime/glbl.c:823-845 | a storing directive writes exactly its slot; `resetconfigvariables` resets; `workdirectory` and `localhostipif` behave as `setWorkDir` and `setLocalHostIPIF`; the debug handlers change nothing |
| Legacy.ParserAlias | runtime/glbl.c:837-843 | the deprecated parser directives are the structured names without the `parser.` prefix |
| Legacy.CounterpartName | runtime/glbl.c:823-845 | each listed counterpart directive carries the structured parameter's legacy name |
| Legacy.NoOtherCounterparts | runtime/glbl.c:823-845 | structured parameters without a listed counterpart have no directive of their name |
| Legacy.LegacyNamesDistinct | runtime/glbl.c:823-845 | directive names are unique |
| Legacy.CounterpartHandlers | runtime/glbl.c:823-845 | a counterpart has the parameter's type, up to the two string handlers, and writes the same setting |
| Legacy.LegacyAgreesWithStructured | runtime/glbl.c:823-845 | a legacy directive and the structured parameter of the same name leave the store in the same state |
| System.Apply | runtime/glbl.c:574-626 | an operation runs iff it is enabled; it keeps the invariant; cells only grow; a set local IP stays; only the termination request writes the flag, and only to 1 |
| System.LegacyKeeps | runtime/glbl.c:823-845 | legacy directives keep the same facts |
| System.Run | runtime/glbl.c:574-626 | any sequence of operations keeps the invariant |
| System.RunKeeps | runtime/glbl.c:574-626 | over any run that succeeds, the cells only grow, a set local IP keeps its cell, and a requested termination stays requested |
| System.TerminationSticky | runtime/glbl.c:199-214 | once the termination state is 1, it stays 1 in every state a successful run reaches |
| System.LocalIPPinned | runtime/glbl.c:241-268 | once the local IP is set, every state a successful run reaches returns the same cell and address and refuses interface settings |
| System.FirstReadPinsLoopback | runtime/glbl.c:351-357 | a successful run starting with a read of an unset IP pins it to 127.0.0.1 |
| Scenarios.Bound | runtime/glbl.c:666-700 | preparation plus a global block records the block's values and leaves the hostname settings alone |
| Scenarios.Load | runtime/glbl.c:734-810 | a whole load records the block's values and keeps the short hostname and FQDN |
| Scenarios.LoadedOverride | runtime/glbl.c:749-752 | after a load the override is the configured `localhostname`, or unchanged when none was given |
| Scenarios.LoadedPreserveFQDN | runtime/glbl.c:765-766 | after a load PreserveFQDN is the configured switch as 0/1, or unchanged |
| Scenarios.ConfiguredNameIsShown | runtime/glbl.c:375-395 | a configured `localhostname` is the displayed name after the load |
| Scenarios.PreservedFQDNIsShown | runtime/glbl.c:375-395 | with no override, `preservefqdn on` and a known short name, the FQDN field is displayed |
| Scenarios.FallbackIsShown | runtime/glbl.c:375-395 | with no hostname known, "[localhost]" is displayed |

## Left out

- `stat()` is the oracle `WorkDir.FileSystem`. The network-interface lookup `net.GetIFIPAddr` is the oracle `LocalIP.Interfaces`, reporting an address or a failure. The fixed 128-byte address buffer is not modelled.
- The `prop` object internals are abstract cells holding a string. Construction never fails in the model, although the C code may fail after allocating.
- `setDebugFile` and `setDebugLevel`, the `debug.logfile` branch that opens a file, and the `debug.onshutdown` switch of the debug mode at lines 805-808 are process I/O. The model keeps the `debug.onshutdown` value but changes nothing for the other three.
- `nvlstGetParams`, `cnfparamsPrint`, `es_str2cstr`, `nvlstChkUnused` and `cnfobjDestruct` are the configuration parser and string library. Typed bound values are an input: the parser's merging across several global blocks happens before `Binding.ProcessCnf`.
- The atomic access to the termination flag and the documented race on hostname replacement are not modelled. The model is sequential.
- Logging through `errmsg.LogError` and `dbgprintf` is not modelled. Only the return codes are.
- Several plain accessors have no operation of their own. They are the generic `Store.Write`/`Store.Read` on their slot:
  - `SetLocalHostName`, `SetLocalDomain`/`GetLocalDomain`, `SetLocalFQDNName`;
  - `Set/GetSourceIPofLocalClient`;
  - the CA, key and certificate file getters;
  - `glblGetWorkDirRaw` (lines 516-520), which returns the work directory or NULL and is `Store.Read` on the work-directory slot.
- `LocalIP.SetLocalHostIPIF` does not model the failure exit of `objUse(net, …)` at line 248. Loading the network module is taken to succeed, and the interface lookup is an input.
- The `objQueryInterface` table, the version check, class initialisation and exit are plumbing. Class initialisation appears only as the legacy directive table `Legacy.LegacyTable`.
- Freeing memory and the NUL terminators of C strings are not modelled. Strings are sequences of Unicode characters. Only the escape-prefix conversion looks at their UTF-8 bytes, through `Types.FirstByte`.
- `iFdSetSize` (compiled in only with unlimited select) and `glbl_ourpid` are not modelled.
- The start-up value of `bActionReportSuspension` is defined outside this component. It is a parameter of `Store.Initial`.
- Legacy directives store their value through `cfsysline.c`, which is not part of this model. `Legacy.ApplyLegacy` stores the same coerced value as the structured path.
- `HostName.GenerateLocalHostNameProperty` requires a non-NULL selected name. The C code would pass NULL to `strcmp`, which is undefined behaviour. `System.Apply` reports that step as not enabled.
- System.Apply: a setter is enabled only for a value of the slot's kind, and the work directory, hostname override, termination flag, bound values and cells are written only through their own operations.
