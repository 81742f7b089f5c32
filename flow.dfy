/*
 * The Flow record of pybatfish/datamodel/flow.py: a passive record that
 * adopts the key/value pairs of a deserialised JSON object as its
 * attributes, and its one-line text rendering (`__str__` together with
 * `get_flag_str`).
 *
 * The record is a value wrapping the adopted mapping. Reading an absent
 * attribute (Python's AttributeError) is the `Fail` outcome of `Result`.
 */
module FlowRecord {
  import opened PyText

  /** Success with a value, or the single failure outcome: an attribute
      that is not there, or a call of something that is not callable. */
  datatype Result<T> = Ok(value: T) | Fail
  {
    predicate IsFailure() { Fail? }

    function PropagateFailure<U>(): Result<U>
      requires Fail?
    {
      Fail
    }

    function Extract(): T
      requires Ok?
    {
      value
    }
  }

  /** A flow record: its attribute set is the adopted mapping. */
  datatype Flow = Flow(attrs: map<string, Value>)

  /** The fields `__str__` passes to `format` without first asking whether
      they exist, in the order it reads them. */
  const ShownFields: seq<string> :=
    ["ingressNode", "srcIp", "srcPort", "dstIp", "dstPort", "ipProtocol",
     "dscp", "ecn", "fragmentOffset", "packetLength", "state"]

  /** The eight TCP flag fields, in the order `get_flag_str` reads them. */
  const TcpFlagFields: seq<string> :=
    ["tcpFlagsAck", "tcpFlagsCwr", "tcpFlagsEce", "tcpFlagsFin",
     "tcpFlagsPsh", "tcpFlagsRst", "tcpFlagsSyn", "tcpFlagsUrg"]

  /** The name under which `__str__` looks up `get_flag_str`. An instance
      attribute of that name hides the method, and no JSON value can be
      called. */
  const FlagMethod := "get_flag_str"

  // ---------------------------------------------------------------------
  // Construction and attribute access
  // ---------------------------------------------------------------------

  /** `Flow(jsonObject)`: the record adopts the mapping as its attributes.
      It never fails, whatever the mapping holds. */
  function NewFlow(json: map<string, Value>): (f: Flow)
    ensures forall k :: GetAttr(f, k) == if k in json then Ok(json[k]) else Fail
  {
    Flow(json)
  }

  /** `self.<name>` for a data field: the adopted value, or AttributeError.
      Names the class itself defines are not looked up this way. */
  function GetAttr(f: Flow, name: string): (r: Result<Value>)
    ensures r.Ok? <==> name in f.attrs
    ensures r.Ok? ==> r.value == f.attrs[name]
  {
    if name in f.attrs then Ok(f.attrs[name]) else Fail
  }

  /** Reads several attributes in order, failing on the first absent one. */
  function GetAll(f: Flow, names: seq<string>): (r: Result<seq<Value>>)
    ensures r.Ok? <==> forall k :: 0 <= k < |names| ==> names[k] in f.attrs
    ensures r.Ok? ==> |r.value| == |names|
    ensures r.Ok? ==> forall k :: 0 <= k < |names| ==> r.value[k] == f.attrs[names[k]]
    decreases |names|
  {
    if names == [] then Ok([])
    else
      var v :- GetAttr(f, names[0]);
      var rest :- GetAll(f, names[1..]);
      Ok([v] + rest)
  }

  /** `template.format(...)`; a missing argument would raise. */
  function FormatOrFail(t: seq<Piece>, named: map<string, string>, pos: seq<string>): Result<string>
  {
    match Format(t, named, pos)
    case None => Fail
    case Some(s) => Ok(s)
  }

  // ---------------------------------------------------------------------
  // get_flag_str
  // ---------------------------------------------------------------------

  /** `"{}{}{}{}{}{}{}{}"`: eight positional fields side by side. */
  const FlagTemplate: seq<Piece> :=
    [Positional(0), Positional(1), Positional(2), Positional(3),
     Positional(4), Positional(5), Positional(6), Positional(7)]

  /** The eight TCP flags formatted one after another; fails when any flag
      field is absent. */
  function ComposeFlags(f: Flow): Result<string>
  {
    var vs :- GetAll(f, TcpFlagFields);
    FormatOrFail(FlagTemplate, map[], seq(|vs|, k requires 0 <= k < |vs| => ValueToString(vs[k])))
  }

  /** `get_flag_str` as written: for protocol 6 the flag string is composed
      (so every flag field is read) and then dropped, so the call yields
      Python's `None`; for any other protocol value it is "n/a". */
  function FlagStr(f: Flow): Result<Option<string>>
  {
    var proto :- GetAttr(f, "ipProtocol");
    if proto == Int(6) then
      var composed :- ComposeFlags(f);
      Ok(None)
    else
      Ok(Some("n/a"))
  }

  /** `get_flag_str` with the composed flag string returned. */
  function FlagStrCorrected(f: Flow): Result<Option<string>>
  {
    var proto :- GetAttr(f, "ipProtocol");
    if proto == Int(6) then
      var composed :- ComposeFlags(f);
      Ok(Some(composed))
    else
      Ok(Some("n/a"))
  }

  // ---------------------------------------------------------------------
  // __str__
  // ---------------------------------------------------------------------

  const IfaceTemplate: seq<Piece> := [Lit("ingressInterface: "), Positional(0)]

  const VrfTemplate: seq<Piece> := [Lit("vrf: "), Positional(0)]

  /** The main `__str__` template, one piece per literal run or field. */
  const FlowTemplate: seq<Piece> :=
    [Named("node"), Named("iface"), Named("vrf"), Lit("->["), Named("src_ip"),
     Lit(":"), Named("src_port"), Lit("->"), Named("dst_ip"), Lit(":"),
     Named("dst_port"), Lit(" proto: "), Named("proto"), Lit(" dscp:"), Named("dscp"),
     Lit(" ecn:"), Named("ecn"), Lit(" fragOff:"), Named("offset"), Lit(" length:"),
     Named("length"), Lit(" state:"), Named("state"), Lit(" flags: "), Named("flags")]

  /** `iface_str`: the interface segment when the record has the field. */
  function IfaceSegment(f: Flow): Result<string>
  {
    if "ingressInterface" in f.attrs then
      var iface :- GetAttr(f, "ingressInterface");
      FormatOrFail(IfaceTemplate, map[], [ValueToString(iface)])
    else
      Ok("")
  }

  /** `vrf_str`: the VRF segment when the record has a VRF other than the
      string "default". */
  function VrfSegment(f: Flow): Result<string>
  {
    if "ingressVrf" in f.attrs && f.attrs["ingressVrf"] != Str("default") then
      var vrf :- GetAttr(f, "ingressVrf");
      FormatOrFail(VrfTemplate, map[], [ValueToString(vrf)])
    else
      Ok("")
  }

  /** The keyword arguments of the main `format` call: the two segments,
      the texts of the eleven shown fields (in ShownFields order) and the
      flags text. */
  function FlowArgs(iface: string, vrf: string, shown: seq<string>, flags: string): map<string, string>
    requires |shown| == |ShownFields|
  {
    map["node" := shown[0], "iface" := iface, "vrf" := vrf,
        "src_ip" := shown[1], "src_port" := shown[2],
        "dst_ip" := shown[3], "dst_port" := shown[4],
        "proto" := shown[5], "dscp" := shown[6], "ecn" := shown[7],
        "offset" := shown[8], "length" := shown[9], "state" := shown[10],
        "flags" := flags]
  }

  /** `__str__` with `flagResult` as the outcome of the `get_flag_str`
      method. The attribute lookup of the method itself comes first: an
      adopted field of that name hides it and cannot be called. */
  function RenderWith(f: Flow, flagResult: Result<Option<string>>): Result<string>
  {
    var iface :- IfaceSegment(f);
    var vrf :- VrfSegment(f);
    var shown :- GetAll(f, ShownFields);
    var flags :- if FlagMethod in f.attrs then Fail else flagResult;
    FormatOrFail(FlowTemplate,
      FlowArgs(iface, vrf, seq(|shown|, k requires 0 <= k < |shown| => ValueToString(shown[k])), OptionToString(flags)),
      [])
  }

  /** `str(flow)` as written. */
  function Render(f: Flow): Result<string>
  {
    RenderWith(f, FlagStr(f))
  }

  /** `str(flow)` with `get_flag_str` returning the flag string. */
  function RenderCorrected(f: Flow): Result<string>
  {
    RenderWith(f, FlagStrCorrected(f))
  }
}
