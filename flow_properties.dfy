/*
 * What the rendering of a flow record promises, stated against reference
 * definitions written out field by field, and proved of the model in
 * flow.dfy.
 */
module FlowProperties {
  import opened PyText
  import opened FlowRecord

  // ---------------------------------------------------------------------
  // Reference definitions
  // ---------------------------------------------------------------------

  /** The fields `__str__` reads without first asking whether they exist. */
  const RequiredFields: set<string> := set k | k in ShownFields

  /** All eleven fields that `__str__` reads unconditionally are there,
      spelled out name by name so that each `Text(f, name)` below has its
      precondition at hand; ShownFieldsPresent ties it to ShownFields. */
  predicate HasShownFields(f: Flow)
  {
    "ingressNode" in f.attrs && "srcIp" in f.attrs && "srcPort" in f.attrs
    && "dstIp" in f.attrs && "dstPort" in f.attrs && "ipProtocol" in f.attrs
    && "dscp" in f.attrs && "ecn" in f.attrs && "fragmentOffset" in f.attrs
    && "packetLength" in f.attrs && "state" in f.attrs
  }

  lemma HasShownFieldsIff(f: Flow)
    ensures HasShownFields(f) <==> RequiredFields <= f.attrs.Keys
  {
  }

  /** The reading order of the model agrees with the eleven fields. */
  lemma ShownFieldsPresent(f: Flow)
    ensures HasShownFields(f) <==> forall k :: 0 <= k < |ShownFields| ==> ShownFields[k] in f.attrs
  {
    if HasShownFields(f) {
      assert forall k :: 0 <= k < |ShownFields| ==> ShownFields[k] in f.attrs;
    }
    if forall k :: 0 <= k < |ShownFields| ==> ShownFields[k] in f.attrs {
      assert ShownFields[0] in f.attrs && ShownFields[1] in f.attrs && ShownFields[2] in f.attrs;
      assert ShownFields[3] in f.attrs && ShownFields[4] in f.attrs && ShownFields[5] in f.attrs;
      assert ShownFields[6] in f.attrs && ShownFields[7] in f.attrs && ShownFields[8] in f.attrs;
      assert ShownFields[9] in f.attrs && ShownFields[10] in f.attrs;
    }
  }

  /** Every attribute name that rendering can look at. */
  const ReadFields: set<string> :=
    RequiredFields + {"ingressInterface", "ingressVrf", FlagMethod} + set k | k in TcpFlagFields

  /** The text `format` writes for an attribute the record has. */
  function Text(f: Flow, name: string): string
    requires name in f.attrs
  {
    ValueToString(f.attrs[name])
  }

  /** The protocol is the integer 6, the only value `get_flag_str` treats
      as TCP. */
  predicate IsTcp(f: Flow)
  {
    "ipProtocol" in f.attrs && f.attrs["ipProtocol"] == Int(6)
  }

  predicate HasTcpFlags(f: Flow)
  {
    forall k :: 0 <= k < |TcpFlagFields| ==> TcpFlagFields[k] in f.attrs
  }

  /** Every attribute that rendering reads unconditionally is there, no
      adopted field hides `get_flag_str`, and a TCP record carries all
      eight flags. */
  predicate Renderable(f: Flow)
  {
    HasShownFields(f) && FlagMethod !in f.attrs && (IsTcp(f) ==> HasTcpFlags(f))
  }

  function ExpectedIface(f: Flow): string
  {
    if "ingressInterface" in f.attrs then "ingressInterface: " + Text(f, "ingressInterface") else ""
  }

  function ExpectedVrf(f: Flow): string
  {
    if "ingressVrf" in f.attrs && f.attrs["ingressVrf"] != Str("default") then "vrf: " + Text(f, "ingressVrf")
    else ""
  }

  /** The eight flag values written side by side, Ack first and Urg last. */
  function FlagDigits(f: Flow): string
    requires HasTcpFlags(f)
  {
    Text(f, TcpFlagFields[0]) + Text(f, TcpFlagFields[1]) + Text(f, TcpFlagFields[2]) + Text(f, TcpFlagFields[3])
    + Text(f, TcpFlagFields[4]) + Text(f, TcpFlagFields[5]) + Text(f, TcpFlagFields[6]) + Text(f, TcpFlagFields[7])
  }

  /** The one-line summary of a flow, field by field in display order,
      ending with the given flags text. */
  function Reference(f: Flow, flags: string): string
    requires HasShownFields(f)
  {
    Text(f, "ingressNode") + ExpectedIface(f) + ExpectedVrf(f)
    + "->[" + Text(f, "srcIp") + ":" + Text(f, "srcPort")
    + "->" + Text(f, "dstIp") + ":" + Text(f, "dstPort")
    + " proto: " + Text(f, "ipProtocol") + " dscp:" + Text(f, "dscp") + " ecn:" + Text(f, "ecn")
    + " fragOff:" + Text(f, "fragmentOffset") + " length:" + Text(f, "packetLength")
    + " state:" + Text(f, "state") + " flags: " + flags
  }

  // ---------------------------------------------------------------------
  // Construction
  // ---------------------------------------------------------------------

  /** The record's attributes are exactly the keys of the mapping it was
      built from, each with its own value, and building never fails. */
  lemma NewFlowAdoptsMapping(json: map<string, Value>)
    ensures NewFlow(json).attrs.Keys == json.Keys
    ensures forall k :: k in json ==> GetAttr(NewFlow(json), k) == Ok(json[k])
    ensures forall k :: k !in json ==> GetAttr(NewFlow(json), k) == Fail
  {
    var f := NewFlow(json);
    forall k ensures k in f.attrs <==> k in json {
      assert GetAttr(f, k) == if k in json then Ok(json[k]) else Fail;
    }
  }

  // ---------------------------------------------------------------------
  // The templates
  // ---------------------------------------------------------------------

  lemma FormatOnePrefix(t: seq<Piece>, named: map<string, string>, pos: seq<string>, head: string)
    requires |t| > 0 && PieceText(t[0], named, pos) == Some(head)
    ensures Format(t[..1], named, pos) == Some(head)
  {
    assert t[..1][..0] == [];
    assert "" + head == head;
  }

  /** Segment templates: a literal label, then the one positional field. */
  lemma FormatLabelled(t: seq<Piece>, caption: string, text: string)
    requires t == [Lit(caption), Positional(0)]
    ensures Format(t, map[], [text]) == Some(caption + text)
  {
    FormatOnePrefix(t, map[], [text], caption);
    FormatPrefix(t, map[], [text], 2);
    assert t[..2] == t;
  }

  /** The eight-field flag template joins its eight arguments in order. */
  lemma FormatFlagTemplate(p: seq<string>)
    requires |p| == 8
    ensures Format(FlagTemplate, map[], p) == Some(p[0] + p[1] + p[2] + p[3] + p[4] + p[5] + p[6] + p[7])
  {
    var t := FlagTemplate;
    FormatOnePrefix(t, map[], p, p[0]);
    FormatPrefix(t, map[], p, 2);
    FormatPrefix(t, map[], p, 3);
    FormatPrefix(t, map[], p, 4);
    FormatPrefix(t, map[], p, 5);
    FormatPrefix(t, map[], p, 6);
    FormatPrefix(t, map[], p, 7);
    FormatPrefix(t, map[], p, 8);
    assert t[..8] == t;
  }

  predicate HasFlowArgs(named: map<string, string>)
  {
    "node" in named && "iface" in named && "vrf" in named && "src_ip" in named
    && "src_port" in named && "dst_ip" in named && "dst_port" in named && "proto" in named
    && "dscp" in named && "ecn" in named && "offset" in named && "length" in named
    && "state" in named && "flags" in named
  }

  /** Each keyword argument of the main `format` call holds its own text. */
  lemma FlowArgsEntries(iface: string, vrf: string, p: seq<string>, flags: string)
    requires |p| == |ShownFields|
    ensures HasFlowArgs(FlowArgs(iface, vrf, p, flags))
    ensures var named := FlowArgs(iface, vrf, p, flags);
      named["node"] == p[0] && named["iface"] == iface && named["vrf"] == vrf
      && named["src_ip"] == p[1] && named["src_port"] == p[2] && named["dst_ip"] == p[3]
      && named["dst_port"] == p[4] && named["proto"] == p[5] && named["dscp"] == p[6]
      && named["ecn"] == p[7] && named["offset"] == p[8] && named["length"] == p[9]
      && named["state"] == p[10] && named["flags"] == flags
  {
  }

  /** The main template writes its arguments in display order between its
      literal runs. */
  lemma FormatFlowTemplate(named: map<string, string>)
    requires HasFlowArgs(named)
    ensures Format(FlowTemplate, named, []) == Some(
      named["node"] + named["iface"] + named["vrf"] + "->[" + named["src_ip"] + ":" + named["src_port"]
      + "->" + named["dst_ip"] + ":" + named["dst_port"] + " proto: " + named["proto"]
      + " dscp:" + named["dscp"] + " ecn:" + named["ecn"] + " fragOff:" + named["offset"]
      + " length:" + named["length"] + " state:" + named["state"] + " flags: " + named["flags"])
  {
    var t := FlowTemplate;
    FormatOnePrefix(t, named, [], named["node"]);
    FormatPrefix(t, named, [], 2);
    FormatPrefix(t, named, [], 3);
    FormatPrefix(t, named, [], 4);
    FormatPrefix(t, named, [], 5);
    FormatPrefix(t, named, [], 6);
    FormatPrefix(t, named, [], 7);
    FormatPrefix(t, named, [], 8);
    FormatPrefix(t, named, [], 9);
    FormatPrefix(t, named, [], 10);
    FormatPrefix(t, named, [], 11);
    FormatPrefix(t, named, [], 12);
    FormatPrefix(t, named, [], 13);
    FormatPrefix(t, named, [], 14);
    FormatPrefix(t, named, [], 15);
    FormatPrefix(t, named, [], 16);
    FormatPrefix(t, named, [], 17);
    FormatPrefix(t, named, [], 18);
    FormatPrefix(t, named, [], 19);
    FormatPrefix(t, named, [], 20);
    FormatPrefix(t, named, [], 21);
    FormatPrefix(t, named, [], 22);
    FormatPrefix(t, named, [], 23);
    FormatPrefix(t, named, [], 24);
    FormatPrefix(t, named, [], 25);
    assert t[..25] == t;
  }

  // ---------------------------------------------------------------------
  // The optional segments
  // ---------------------------------------------------------------------

  /** The interface segment never fails; it is empty exactly when the
      record has no `ingressInterface`, and otherwise is the label followed
      by the interface. */
  lemma IfaceSegmentShown(f: Flow)
    ensures IfaceSegment(f) == Ok(ExpectedIface(f))
    ensures IfaceSegment(f).value == "" <==> "ingressInterface" !in f.attrs
  {
    if "ingressInterface" in f.attrs {
      FormatLabelled(IfaceTemplate, "ingressInterface: ", Text(f, "ingressInterface"));
    }
  }

  /** The VRF segment never fails; it is empty exactly when the record has
      no `ingressVrf` or that VRF is the string "default". */
  lemma VrfSegmentShown(f: Flow)
    ensures VrfSegment(f) == Ok(ExpectedVrf(f))
    ensures VrfSegment(f).value == "" <==> ("ingressVrf" !in f.attrs || f.attrs["ingressVrf"] == Str("default"))
  {
    if "ingressVrf" in f.attrs && f.attrs["ingressVrf"] != Str("default") {
      FormatLabelled(VrfTemplate, "vrf: ", Text(f, "ingressVrf"));
    }
  }

  // ---------------------------------------------------------------------
  // get_flag_str
  // ---------------------------------------------------------------------

  /** Composing the flag string reads all eight flags and writes them in
      order; it fails exactly when one is missing. */
  lemma ComposeFlagsJoinsFlags(f: Flow)
    ensures ComposeFlags(f) == if HasTcpFlags(f) then Ok(FlagDigits(f)) else Fail
  {
    if HasTcpFlags(f) {
      var vs := GetAll(f, TcpFlagFields).value;
      var p := seq(|vs|, k requires 0 <= k < |vs| => ValueToString(vs[k]));
      FormatFlagTemplate(p);
    }
  }

  /** `get_flag_str` as written: AttributeError without a protocol; "n/a"
      for every protocol value other than the integer 6; for 6, no value
      (`None`) when all eight flags are there and AttributeError when one
      is missing. */
  lemma FlagStrCases(f: Flow)
    ensures FlagStr(f) ==
      if "ipProtocol" !in f.attrs then Fail
      else if !IsTcp(f) then Ok(Some("n/a"))
      else if HasTcpFlags(f) then Ok(None)
      else Fail
  {
    ComposeFlagsJoinsFlags(f);
  }

  /** `get_flag_str` with the missing return supplied: for protocol 6 it
      yields the eight flags in order. */
  lemma FlagStrCorrectedCases(f: Flow)
    ensures FlagStrCorrected(f) ==
      if "ipProtocol" !in f.attrs then Fail
      else if !IsTcp(f) then Ok(Some("n/a"))
      else if HasTcpFlags(f) then Ok(Some(FlagDigits(f)))
      else Fail
  {
    ComposeFlagsJoinsFlags(f);
  }

  /** With every flag the integer 0 or 1, the corrected flag string is
      eight characters, one per flag in order, '1' exactly for a set flag. */
  lemma FlagDigitsAreBits(f: Flow)
    requires HasTcpFlags(f)
    requires forall k :: 0 <= k < |TcpFlagFields| ==> f.attrs[TcpFlagFields[k]] in {Int(0), Int(1)}
    ensures |FlagDigits(f)| == 8
    ensures forall k :: 0 <= k < 8 ==> (FlagDigits(f)[k] == '1' <==> f.attrs[TcpFlagFields[k]] == Int(1))
    ensures forall k :: 0 <= k < 8 ==> (FlagDigits(f)[k] == '0' <==> f.attrs[TcpFlagFields[k]] == Int(0))
  {
    assert forall k :: 0 <= k < 8 ==> |Text(f, TcpFlagFields[k])| == 1;
  }

  // ---------------------------------------------------------------------
  // __str__
  // ---------------------------------------------------------------------

  /** The texts of the shown fields, when they are all there. */
  function ShownTexts(f: Flow): (p: seq<string>)
    requires HasShownFields(f)
    ensures |p| == |ShownFields|
  {
    ShownFieldsPresent(f);
    seq(|ShownFields|, k requires 0 <= k < |ShownFields| => Text(f, ShownFields[k]))
  }

  lemma FormatFlowArgs(iface: string, vrf: string, p: seq<string>, flags: string)
    requires |p| == |ShownFields|
    ensures Format(FlowTemplate, FlowArgs(iface, vrf, p, flags), []) == Some(
      p[0] + iface + vrf + "->[" + p[1] + ":" + p[2] + "->" + p[3] + ":" + p[4]
      + " proto: " + p[5] + " dscp:" + p[6] + " ecn:" + p[7] + " fragOff:" + p[8]
      + " length:" + p[9] + " state:" + p[10] + " flags: " + flags)
  {
    FlowArgsEntries(iface, vrf, p, flags);
    FormatFlowTemplate(FlowArgs(iface, vrf, p, flags));
  }

  lemma ShownTextsAre(f: Flow)
    requires HasShownFields(f)
    ensures var p := ShownTexts(f);
      p[0] == Text(f, "ingressNode") && p[1] == Text(f, "srcIp") && p[2] == Text(f, "srcPort")
      && p[3] == Text(f, "dstIp") && p[4] == Text(f, "dstPort") && p[5] == Text(f, "ipProtocol")
      && p[6] == Text(f, "dscp") && p[7] == Text(f, "ecn") && p[8] == Text(f, "fragmentOffset")
      && p[9] == Text(f, "packetLength") && p[10] == Text(f, "state")
  {
  }

  /** Reading the shown fields in order succeeds on a record that has them
      and gives their texts. */
  lemma ShownFieldsRead(f: Flow)
    requires HasShownFields(f)
    ensures GetAll(f, ShownFields).Ok?
    ensures var vs := GetAll(f, ShownFields).value;
      seq(|vs|, k requires 0 <= k < |vs| => ValueToString(vs[k])) == ShownTexts(f)
  {
    ShownFieldsPresent(f);
  }

  /** On a renderable record the main `format` call gets the segments, the
      shown fields' texts and the flags text. */
  lemma RenderWithArgs(f: Flow, flagResult: Result<Option<string>>)
    requires HasShownFields(f) && FlagMethod !in f.attrs && flagResult.Ok?
    ensures RenderWith(f, flagResult)
         == FormatOrFail(FlowTemplate, FlowArgs(ExpectedIface(f), ExpectedVrf(f), ShownTexts(f), OptionToString(flagResult.value)), [])
  {
    IfaceSegmentShown(f);
    VrfSegmentShown(f);
    ShownFieldsRead(f);
  }

  lemma RenderWithShows(f: Flow, flagResult: Result<Option<string>>)
    requires HasShownFields(f) && FlagMethod !in f.attrs && flagResult.Ok?
    ensures RenderWith(f, flagResult) == Ok(Reference(f, OptionToString(flagResult.value)))
  {
    RenderWithArgs(f, flagResult);
    FormatFlowArgs(ExpectedIface(f), ExpectedVrf(f), ShownTexts(f), OptionToString(flagResult.value));
    ShownTextsAre(f);
  }

  lemma RenderWithFails(f: Flow, flagResult: Result<Option<string>>)
    requires !(HasShownFields(f) && FlagMethod !in f.attrs && flagResult.Ok?)
    ensures RenderWith(f, flagResult) == Fail
  {
    IfaceSegmentShown(f);
    VrfSegmentShown(f);
    ShownFieldsPresent(f);
  }

  /** Rendering with any outcome of the flag method: it fails exactly when
      an unconditionally read field is missing, when an adopted field hides
      the method, or when the method fails; otherwise it is the reference
      summary ending with the method's result. */
  lemma RenderWithMatchesReference(f: Flow, flagResult: Result<Option<string>>)
    ensures RenderWith(f, flagResult) ==
      if HasShownFields(f) && FlagMethod !in f.attrs && flagResult.Ok?
      then Ok(Reference(f, OptionToString(flagResult.value)))
      else Fail
  {
    if HasShownFields(f) && FlagMethod !in f.attrs && flagResult.Ok? {
      RenderWithShows(f, flagResult);
    } else {
      RenderWithFails(f, flagResult);
    }
  }

  /** `str(flow)` as written: it fails exactly when the record is not
      renderable, and otherwise is the reference summary whose flags text
      is "None" for protocol 6 and "n/a" for any other protocol value. */
  lemma RenderMatchesReference(f: Flow)
    ensures Render(f) ==
      if Renderable(f) then Ok(Reference(f, if IsTcp(f) then "None" else "n/a")) else Fail
  {
    FlagStrCases(f);
    RenderWithMatchesReference(f, FlagStr(f));
  }

  /** `str(flow)` with the flag string returned: the same, except that a
      protocol-6 record shows its eight flags. */
  lemma RenderCorrectedMatchesReference(f: Flow)
    ensures RenderCorrected(f) ==
      if Renderable(f) then Ok(Reference(f, if IsTcp(f) then FlagDigits(f) else "n/a")) else Fail
  {
    FlagStrCorrectedCases(f);
    RenderWithMatchesReference(f, FlagStrCorrected(f));
  }

  /** A record missing any of the eleven unconditionally read fields cannot
      be rendered, whatever else it holds. */
  lemma RenderFailsWithoutRequired(f: Flow, name: string)
    requires name in RequiredFields && name !in f.attrs
    ensures Render(f) == Fail
    ensures RenderCorrected(f) == Fail
  {
    HasShownFieldsIff(f);
    RenderMatchesReference(f);
    RenderCorrectedMatchesReference(f);
  }

  /** A protocol-6 record missing any TCP flag cannot be rendered, even
      though the flag string it would compose is thrown away. */
  lemma RenderFailsWithoutTcpFlag(f: Flow, k: nat)
    requires IsTcp(f) && k < |TcpFlagFields| && TcpFlagFields[k] !in f.attrs
    ensures Render(f) == Fail
  {
    RenderMatchesReference(f);
  }

  /** The two records hold the same attribute under `name`, or both lack it. */
  predicate AgreeOn(f: Flow, g: Flow, name: string)
  {
    (name in f.attrs <==> name in g.attrs) && (name in f.attrs ==> f.attrs[name] == g.attrs[name])
  }

  /** Agreement on ReadFields, field by field. */
  lemma AgreeOnEachReadField(f: Flow, g: Flow)
    requires forall name :: name in ReadFields ==> AgreeOn(f, g, name)
    ensures AgreeOn(f, g, "ingressNode") && AgreeOn(f, g, "srcIp") && AgreeOn(f, g, "srcPort")
    ensures AgreeOn(f, g, "dstIp") && AgreeOn(f, g, "dstPort") && AgreeOn(f, g, "ipProtocol")
    ensures AgreeOn(f, g, "dscp") && AgreeOn(f, g, "ecn") && AgreeOn(f, g, "fragmentOffset")
    ensures AgreeOn(f, g, "packetLength") && AgreeOn(f, g, "state")
    ensures AgreeOn(f, g, "ingressInterface") && AgreeOn(f, g, "ingressVrf") && AgreeOn(f, g, FlagMethod)
    ensures forall k :: 0 <= k < |TcpFlagFields| ==> AgreeOn(f, g, TcpFlagFields[k])
  {
    assert forall k :: 0 <= k < |ShownFields| ==> ShownFields[k] in ReadFields;
    assert forall k :: 0 <= k < |TcpFlagFields| ==> TcpFlagFields[k] in ReadFields;
  }

  /** Rendering looks at no attribute outside ReadFields: two records that
      agree on those render alike (both fail, or both give the same text). */
  lemma RenderDependsOnlyOnReadFields(f: Flow, g: Flow)
    requires forall name :: name in ReadFields ==> AgreeOn(f, g, name)
    ensures Render(f) == Render(g)
  {
    AgreeOnEachReadField(f, g);
    assert HasTcpFlags(f) <==> HasTcpFlags(g);
    assert Renderable(f) <==> Renderable(g);
    RenderMatchesReference(f);
    RenderMatchesReference(g);
    if Renderable(f) {
      assert ExpectedIface(f) == ExpectedIface(g);
      assert ExpectedVrf(f) == ExpectedVrf(g);
    }
  }

  /** Adding, changing or removing an attribute that rendering does not
      read (such as `tag`) leaves the result, success or failure, as it
      was. */
  lemma RenderIgnoresUnreadField(f: Flow, name: string, v: Value)
    requires name !in ReadFields
    ensures Render(Flow(f.attrs[name := v])) == Render(f)
    ensures Render(Flow(f.attrs - {name})) == Render(f)
  {
    RenderDependsOnlyOnReadFields(Flow(f.attrs[name := v]), f);
    RenderDependsOnlyOnReadFields(Flow(f.attrs - {name}), f);
  }

  lemma RenderIgnoresTag(f: Flow, tag: Value)
    ensures Render(Flow(f.attrs["tag" := tag])) == Render(f)
    ensures Render(Flow(f.attrs - {"tag"})) == Render(f)
  {
    RenderIgnoresUnreadField(f, "tag", tag);
  }
}
