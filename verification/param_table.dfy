/** The descriptor table of the structured ("v6") configuration interface:
    every parameter name the global block accepts, with the type the config
    parser coerces its value to, and the typed values the parser hands back. */
module ParamTable {

  import opened Types

  /** The parser's value handlers (`eCmdHdlr*`). */
  datatype ParamType =
    | HdlrString | HdlrGetWord | HdlrBinary | HdlrSize | HdlrGetChar | HdlrInt | HdlrCustom

  /** A parsed parameter value. Strings and single characters both arrive as
      strings; binary switches as on/off; sizes and integers as numbers. */
  datatype Value =
    | Str(text: string)
    | Bin(on: bool)
    | Num(n: int)
    | Size(n: int)
    | Char(text: string)

  datatype Descr = Descr(name: string, ptype: ParamType)

  /** The table in declaration order; the order is the order in which bound
      values are applied. */
  const Descriptors: seq<Descr> := [
    Descr("workdirectory", HdlrString),
    Descr("dropmsgswithmaliciousdnsptrrecords", HdlrBinary),
    Descr("localhostname", HdlrGetWord),
    Descr("preservefqdn", HdlrBinary),
    Descr("debug.onshutdown", HdlrBinary),
    Descr("debug.logfile", HdlrString),
    Descr("defaultnetstreamdrivercafile", HdlrString),
    Descr("defaultnetstreamdriverkeyfile", HdlrString),
    Descr("defaultnetstreamdriver", HdlrString),
    Descr("maxmessagesize", HdlrSize),
    Descr("action.reportsuspension", HdlrBinary),
    Descr("parser.controlcharacterescapeprefix", HdlrGetChar),
    Descr("parser.droptrailinglfonreception", HdlrBinary),
    Descr("parser.escapecontrolcharactersonreceive", HdlrBinary),
    Descr("parser.spacelfonreceive", HdlrBinary),
    Descr("parser.escape8bitcharactersonreceive", HdlrBinary),
    Descr("parser.escapecontrolcharactertab", HdlrBinary),
    Descr("parser.escapecontrolcharacterscstyle", HdlrBinary),
    Descr("processinternalmessages", HdlrBinary)
  ]

  const NParams: nat := 19

  /** Position of the one parameter applied while the block is parsed. */
  const ProcessInternalMessagesIndex: nat := 18

  /** The parser only produces a value of the handler's type. */
  predicate HasType(v: Value, t: ParamType) {
    match v
    case Str(_) => t == HdlrString || t == HdlrGetWord
    case Bin(_) => t == HdlrBinary
    case Num(_) => t == HdlrInt
    case Size(_) => t == HdlrSize
    case Char(_) => t == HdlrGetChar
  }

  /** A bound-values array (`struct cnfparamvals[]`): one entry per
      descriptor, `None` where the parameter was not used. */
  predicate WellTypedVals(vals: seq<Option<Value>>) {
    && |vals| == |Descriptors|
    && forall i :: 0 <= i < |vals| && vals[i].Some? ==> HasType(vals[i].value, Descriptors[i].ptype)
  }

  /** The bound-values array in which no parameter is used. */
  function NoneUsed(): (vals: seq<Option<Value>>)
    ensures WellTypedVals(vals)
    ensures forall i :: 0 <= i < |vals| ==> vals[i].None?
  {
    seq(|Descriptors|, _ => None)
  }

  lemma DescriptorFacts()
    ensures |Descriptors| == NParams
    ensures Descriptors[ProcessInternalMessagesIndex].name == "processinternalmessages"
    ensures forall i :: 0 <= i < |Descriptors| && i != ProcessInternalMessagesIndex ==>
      Descriptors[i].name != "processinternalmessages"
  {
  }

  /** The certificate-file parameter has a legacy directive but no entry in
      the structured table. */
  lemma CertFileNotStructured()
    ensures forall i :: 0 <= i < |Descriptors| ==> Descriptors[i].name != "defaultnetstreamdrivercertfile"
  {
  }
}
