/** The legacy, line-oriented directives: a fixed table from directive name
    to the handler that runs as soon as the directive is read. Each handler
    either stores the typed value straight into a setting or calls one of the
    store's own setters. */
module Legacy {

  import opened Types
  import opened ParamTable
  import opened Store
  import opened WorkDir
  import opened LocalIP
  import opened Lifecycle
  import opened Binding

  datatype Handler =
    | StoreInto(slot: Slot)   // the directive's value is written to the slot
    | WorkDirHandler          // `setWorkDir`
    | LocalHostIPIFHandler    // `setLocalHostIPIF`
    | ResetHandler            // `resetConfigVariables`
    | DebugFileHandler        // `setDebugFile`, outside this model
    | DebugLevelHandler       // `setDebugLevel`, outside this model

  datatype LegacyDirective = LegacyDirective(name: string, ptype: ParamType, handler: Handler)

  /** The directives registered at class initialisation, in order. */
  const LegacyTable: seq<LegacyDirective> := [
    LegacyDirective("debugfile", HdlrGetWord, DebugFileHandler),
    LegacyDirective("debuglevel", HdlrInt, DebugLevelHandler),
    LegacyDirective("workdirectory", HdlrGetWord, WorkDirHandler),
    LegacyDirective("dropmsgswithmaliciousdnsptrrecords", HdlrBinary, StoreInto(IntSlot(DropMalPTRMsgs))),
    LegacyDirective("defaultnetstreamdriver", HdlrGetWord, StoreInto(StrSlot(DfltNetstrmDrvr))),
    LegacyDirective("defaultnetstreamdrivercafile", HdlrGetWord, StoreInto(StrSlot(DfltNetstrmDrvrCAF))),
    LegacyDirective("defaultnetstreamdriverkeyfile", HdlrGetWord, StoreInto(StrSlot(DfltNetstrmDrvrKeyFile))),
    LegacyDirective("defaultnetstreamdrivercertfile", HdlrGetWord, StoreInto(StrSlot(DfltNetstrmDrvrCertFile))),
    LegacyDirective("localhostname", HdlrGetWord, StoreInto(StrSlot(HostNameOverride))),
    LegacyDirective("localhostipif", HdlrGetWord, LocalHostIPIFHandler),
    LegacyDirective("optimizeforuniprocessor", HdlrBinary, StoreInto(IntSlot(OptimizeUniProc))),
    LegacyDirective("preservefqdn", HdlrBinary, StoreInto(IntSlot(PreserveFQDN))),
    LegacyDirective("maxmessagesize", HdlrSize, StoreInto(IntSlot(MaxLine))),
    LegacyDirective("controlcharacterescapeprefix", HdlrGetChar, StoreInto(EscapeCharSlot)),
    LegacyDirective("droptrailinglfonreception", HdlrBinary, StoreInto(IntSlot(DropTrailingLF))),
    LegacyDirective("escapecontrolcharactersonreceive", HdlrBinary, StoreInto(IntSlot(EscapeCCOnRcv))),
    LegacyDirective("spacelfonreceive", HdlrBinary, StoreInto(IntSlot(SpaceLFOnRcv))),
    LegacyDirective("escape8bitcharactersonreceive", HdlrBinary, StoreInto(IntSlot(Escape8BitChars))),
    LegacyDirective("escapecontrolcharactertab", HdlrBinary, StoreInto(IntSlot(EscapeTab))),
    LegacyDirective("resetconfigvariables", HdlrCustom, ResetHandler)
  ]

  /** The value fits the directive: typed as its handler type, and of the
      right kind for the slot a storing handler writes. */
  predicate LegacyAccepts(d: LegacyDirective, v: Value) {
    && (d.ptype != HdlrCustom ==> HasType(v, d.ptype))
    && (d.handler.StoreInto? ==> Fits(d.handler.slot, Coerce(v)))
    && ((d.handler.WorkDirHandler? || d.handler.LocalHostIPIFHandler?) ==> v.Str?)
  }

  /** Every registered directive accepts every value of its handler type. */
  lemma TableValuesAccepted(k: nat, v: Value)
    requires k < |LegacyTable|
    requires LegacyTable[k].ptype != HdlrCustom ==> HasType(v, LegacyTable[k].ptype)
    ensures LegacyAccepts(LegacyTable[k], v)
    ensures LegacyTable[k].handler.StoreInto? ==>
      HasSetter(LegacyTable[k].handler.slot) || LegacyTable[k].handler.slot == StrSlot(HostNameOverride)
  {
  }

  /** Running a legacy directive: a storing handler writes the coerced
      value into its slot and nothing else; `workdirectory` and
      `localhostipif` run the validating setters; `resetconfigvariables` resets; the debug
      handlers change no setting of the store. */
  function ApplyLegacy(g: Globals, d: LegacyDirective, v: Value, fs: FileSystem, ifs: Interfaces): (r: Step)
    requires Valid(g) && LegacyAccepts(d, v)
    requires d.handler.StoreInto? ==> HasSetter(d.handler.slot) || d.handler.slot == StrSlot(HostNameOverride)
    ensures Valid(r.g)
    ensures d.handler.StoreInto? ==>
      r.ret == Ok && Read(r.g, d.handler.slot) == Coerce(v) && AgreeOutside(r.g, g, {d.handler.slot})
    ensures d.handler.WorkDirHandler? ==> r == SetWorkDir(g, v.text, fs)
    ensures d.handler.LocalHostIPIFHandler? ==> r == SetLocalHostIPIF(g, v.text, ifs)
    ensures d.handler.ResetHandler? ==> r == Step(ResetConfigVariables(g), Ok)
    ensures (d.handler.DebugFileHandler? || d.handler.DebugLevelHandler?) ==> r == Step(g, Ok)
  {
    match d.handler
    case StoreInto(s) =>
      var r := Write(g, s, Coerce(v));
      ValidFrame(g, r, {s});
      Step(r, Ok)
    case WorkDirHandler => SetWorkDir(g, v.text, fs)
    case LocalHostIPIFHandler => SetLocalHostIPIF(g, v.text, ifs)
    case ResetHandler => Step(ResetConfigVariables(g), Ok)
    case DebugFileHandler => Step(g, Ok)
    case DebugLevelHandler => Step(g, Ok)
  }

  /** The legacy name for a structured parameter: the deprecated parser
      switches drop the `parser.` prefix, every other name is the same. */
  function LegacyNameFor(name: string): string {
    if |name| >= |ParserPrefix| && name[..|ParserPrefix|] == ParserPrefix then name[|ParserPrefix|..] else name
  }

  const ParserPrefix: string := "parser."

  lemma ParserAlias(suffix: string)
    ensures LegacyNameFor(ParserPrefix + suffix) == suffix
  {
    assert (ParserPrefix + suffix)[..|ParserPrefix|] == ParserPrefix;
    assert (ParserPrefix + suffix)[|ParserPrefix|..] == suffix;
  }

  /** A name whose first two characters are not "pa" is its own legacy name.
      This and the `*Spelling` lemmas below only spare the solver from
      comparing long string literals; they state nothing new about the
      directives. */
  lemma OwnLegacyName(name: string)
    requires |name| >= 2 && name[..2] != "pa"
    ensures LegacyNameFor(name) == name
  {
    if |name| >= |ParserPrefix| && name[..|ParserPrefix|] == ParserPrefix {
      assert false;
    }
  }

  /** For each structured parameter, the position of the legacy directive
      of the same name, if there is one. */
  const LegacyCounterparts: seq<Option<nat>> := [
    Some(2), Some(3), Some(8), Some(11), None, None, Some(5), Some(6), Some(4),
    Some(12), None, Some(13), Some(14), Some(15), Some(16), Some(17), Some(18), None, None
  ]

  /** The listed counterpart carries the structured parameter's legacy name. */
  lemma CounterpartName(j: nat)
    requires j < |Descriptors| && LegacyCounterparts[j].Some?
    ensures LegacyCounterparts[j].value < |LegacyTable|
    ensures LegacyTable[LegacyCounterparts[j].value].name == LegacyNameFor(Descriptors[j].name)
  {
    var name := Descriptors[j].name;
    if 11 <= j {
      var suffix := LegacyTable[LegacyCounterparts[j].value].name;
      ParserAliasAt(j);
      ParserAlias(suffix);
    } else {
      OwnNameAt(j);
      OwnLegacyName(name);
    }
  }

  /** The other parameters with a counterpart carry its name unchanged, and
      their names do not start with "pa". */
  lemma OwnNameAt(j: nat)
    requires j < 11 && LegacyCounterparts[j].Some?
    ensures LegacyCounterparts[j].value < |LegacyTable|
    ensures Descriptors[j].name == LegacyTable[LegacyCounterparts[j].value].name
    ensures |Descriptors[j].name| >= 2 && Descriptors[j].name[..2] != "pa"
  {
    var name := Descriptors[j].name;
    if j == 3 {
      assert name[1] == 'r';
    } else {
      assert name[0] != 'p';
    }
  }

  /** The six parser switches are named `parser.` followed by the name of
      their legacy directive, two positions further down that table. */
  lemma ParserAliasAt(j: nat)
    requires 11 <= j <= 16
    ensures LegacyCounterparts[j] == Some(j + 2) && j + 2 < |LegacyTable|
    ensures Descriptors[j].name == ParserPrefix + LegacyTable[j + 2].name
  {
    if j == 11 {
      EscapePrefixSpelling();
      assert Descriptors[11].name == "parser.controlcharacterescapeprefix";
      assert LegacyTable[13].name == "controlcharacterescapeprefix";
    } else if j == 12 {
      DropTrailingLFSpelling();
      assert Descriptors[12].name == "parser.droptrailinglfonreception";
      assert LegacyTable[14].name == "droptrailinglfonreception";
    } else if j == 13 {
      EscapeCCOnRcvSpelling();
      assert Descriptors[13].name == "parser.escapecontrolcharactersonreceive";
      assert LegacyTable[15].name == "escapecontrolcharactersonreceive";
    } else if j == 14 {
      SpaceLFSpelling();
      assert Descriptors[14].name == "parser.spacelfonreceive";
      assert LegacyTable[16].name == "spacelfonreceive";
    } else if j == 15 {
      Escape8BitSpelling();
      assert Descriptors[15].name == "parser.escape8bitcharactersonreceive";
      assert LegacyTable[17].name == "escape8bitcharactersonreceive";
    } else if j == 16 {
      EscapeTabSpelling();
      assert Descriptors[16].name == "parser.escapecontrolcharactertab";
      assert LegacyTable[18].name == "escapecontrolcharactertab";
    }
  }

  lemma EscapePrefixSpelling()
    ensures "parser.controlcharacterescapeprefix" == ParserPrefix + "controlcharacterescapeprefix"
  {
  }

  lemma DropTrailingLFSpelling()
    ensures "parser.droptrailinglfonreception" == ParserPrefix + "droptrailinglfonreception"
  {
  }

  lemma EscapeCCOnRcvSpelling()
    ensures "parser.escapecontrolcharactersonreceive" == ParserPrefix + "escapecontrolcharactersonreceive"
  {
  }

  lemma SpaceLFSpelling()
    ensures "parser.spacelfonreceive" == ParserPrefix + "spacelfonreceive"
  {
  }

  lemma Escape8BitSpelling()
    ensures "parser.escape8bitcharactersonreceive" == ParserPrefix + "escape8bitcharactersonreceive"
  {
  }

  lemma EscapeTabSpelling()
    ensures "parser.escapecontrolcharactertab" == ParserPrefix + "escapecontrolcharactertab"
  {
  }

  /** The structured parameters without a listed counterpart have no legacy
      directive of their name. */
  lemma NoOtherCounterparts(j: nat, k: nat)
    requires j < |Descriptors| && k < |LegacyTable| && LegacyCounterparts[j].None?
    ensures LegacyTable[k].name != LegacyNameFor(Descriptors[j].name)
  {
  }

  /** No two legacy directives share a name. */
  lemma LegacyNamesDistinct(k: nat, m: nat)
    requires k < |LegacyTable| && m < |LegacyTable| && k != m
    ensures LegacyTable[k].name != LegacyTable[m].name
  {
  }

  /** The counterpart has the same value type, up to the two string
      handlers, and its handler writes the slot the structured branch
      writes, in the same way. */
  lemma CounterpartHandlers(j: nat)
    requires j < |Descriptors| && LegacyCounterparts[j].Some?
    ensures var d := LegacyTable[LegacyCounterparts[j].value];
            && (d.ptype == Descriptors[j].ptype
                || (d.ptype == HdlrGetWord && Descriptors[j].ptype == HdlrString))
            && (Actions[j].Assign? ==> d.handler == StoreInto(Actions[j].slot))
            && (Actions[j].ApplyWorkDir? ==> d.handler == WorkDirHandler)
            && !Actions[j].OpenDebugLog? && !Actions[j].ProgramError?
  {
    assert j in {0, 1, 2, 3, 6, 7, 8, 9, 11, 12, 13, 14, 15, 16};
  }

  /** Where both configuration paths know a parameter, they write the same
      setting the same way: the legacy directive of the same name, run on a
      value, leaves the store exactly as the structured finalisation branch
      for that parameter does. */
  lemma LegacyAgreesWithStructured(j: nat, k: nat, g: Globals, v: Value, fs: FileSystem, ifs: Interfaces)
    requires j < |Descriptors| && k < |LegacyTable| && Valid(g)
    requires HasType(v, Descriptors[j].ptype)
    requires LegacyTable[k].name == LegacyNameFor(Descriptors[j].name)
    ensures LegacyAccepts(LegacyTable[k], v) && Accepts(Actions[j], v)
    ensures LegacyTable[k].handler.StoreInto? ==>
      HasSetter(LegacyTable[k].handler.slot) || LegacyTable[k].handler.slot == StrSlot(HostNameOverride)
    ensures ApplyLegacy(g, LegacyTable[k], v, fs, ifs).g == ApplyParam(g, Actions[j], v, fs)
  {
    if LegacyCounterparts[j].None? {
      NoOtherCounterparts(j, k);
      assert false;
    }
    var c := LegacyCounterparts[j].value;
    CounterpartName(j);
    if c != k {
      LegacyNamesDistinct(c, k);
      assert false;
    }
    CounterpartHandlers(j);
    TableValuesAccepted(k, v);
    DescriptorValuesAccepted(j, v);
  }
}
