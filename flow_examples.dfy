/*
 * Concrete records: the sample record documented at the head of the Flow
 * class, and the same record with the numeric TCP protocol.
 */
module FlowExamples {
  import opened PyText
  import opened FlowRecord
  import opened FlowProperties

  /** The sample record: protocol given as the string "TCP", default VRF,
      a `tag`, and fields (`icmpCode`, `icmpVar`, the TCP flags) that the
      rendering of a non-TCP record does not show. */
  const Sample: map<string, Value> :=
    map["tcpFlagsAck" := Int(0), "tcpFlagsCwr" := Int(0), "tcpFlagsEce" := Int(0),
        "tcpFlagsFin" := Int(0), "tcpFlagsPsh" := Int(0), "tcpFlagsRst" := Int(0),
        "tcpFlagsSyn" := Int(0), "tcpFlagsUrg" := Int(0),
        "icmpCode" := Int(255), "icmpVar" := Int(255), "tag" := Str("DIFFERENTIAL"),
        "dscp" := Int(0), "ecn" := Int(0), "fragmentOffset" := Int(0), "packetLength" := Int(0),
        "state" := Str("NEW"), "ingressVrf" := Str("default"), "ipProtocol" := Str("TCP"),
        "srcIp" := Str("253.127.0.0"), "srcPort" := Int(0), "dstIp" := Str("2.128.0.101"),
        "dstPort" := Int(22), "ingressInterface" := Str("Ethernet1/0"), "ingressNode" := Str("as2core1")]

  /** The record shows the sample's node, interface, addresses, ports,
      header fields and state, and does not hide `get_flag_str`. */
  predicate ShowsSampleFields(f: Flow)
  {
    HasShownFields(f) && FlagMethod !in f.attrs
    && Text(f, "ingressNode") == "as2core1" && ExpectedIface(f) == "ingressInterface: " + "Ethernet1/0"
    && Text(f, "srcIp") == "253.127.0.0" && Text(f, "srcPort") == "0"
    && Text(f, "dstIp") == "2.128.0.101" && Text(f, "dstPort") == "22"
    && Text(f, "dscp") == "0" && Text(f, "ecn") == "0" && Text(f, "fragmentOffset") == "0"
    && Text(f, "packetLength") == "0" && Text(f, "state") == "NEW"
  }

  // The lemmas below read a few entries of Sample each. Every lookup of a
  // literal key in a map of twenty-four string keys costs the solver a
  // comparison with each key written before it, so the lookups are proved a
  // handful at a time and the lemmas about whole renderings call them.

  lemma SampleHasNoFlagMethod()
    ensures FlagMethod !in Sample
  {
  }

  lemma SampleNodeAndAddresses()
    ensures Sample["ingressNode"] == Str("as2core1") && Sample["ingressInterface"] == Str("Ethernet1/0")
    ensures Sample["ingressVrf"] == Str("default") && Sample["ipProtocol"] == Str("TCP")
    ensures Sample["srcIp"] == Str("253.127.0.0") && Sample["srcPort"] == Int(0)
    ensures Sample["dstIp"] == Str("2.128.0.101") && Sample["dstPort"] == Int(22)
  {
  }

  lemma SampleHeaderFields()
    ensures Sample["dscp"] == Int(0) && Sample["ecn"] == Int(0) && Sample["fragmentOffset"] == Int(0)
    ensures Sample["packetLength"] == Int(0) && Sample["state"] == Str("NEW")
  {
  }

  lemma SampleShowsSampleFields()
    ensures ShowsSampleFields(NewFlow(Sample))
  {
    SampleHasNoFlagMethod();
    SampleNodeAndAddresses();
    SampleHeaderFields();
    var f := NewFlow(Sample);
    assert Text(f, "srcPort") == "0";
    assert Text(f, "dstPort") == "22";
  }

  lemma SampleProtocolAndVrf()
    ensures var f := NewFlow(Sample);
      ExpectedVrf(f) == "" && Text(f, "ipProtocol") == "TCP" && !IsTcp(f)
  {
    SampleNodeAndAddresses();
  }

  /** Changing the protocol or the VRF keeps the other shown fields. */
  lemma UpdateKeepsSampleFields(f: Flow, name: string, v: Value)
    requires ShowsSampleFields(f) && name in {"ipProtocol", "ingressVrf"}
    ensures ShowsSampleFields(Flow(f.attrs[name := v]))
  {
  }

  lemma SampleReference(f: Flow, vrf: string, proto: string, flags: string)
    requires ShowsSampleFields(f) && ExpectedVrf(f) == vrf && Text(f, "ipProtocol") == proto
    ensures Reference(f, flags)
         == "as2core1" + ("ingressInterface: " + "Ethernet1/0") + vrf + "->[" + "253.127.0.0" + ":" + "0" + "->"
          + "2.128.0.101" + ":" + "22" + " proto: " + proto + " dscp:" + "0" + " ecn:"
          + "0" + " fragOff:" + "0" + " length:" + "0" + " state:" + "NEW" + " flags: "
          + flags
  {
  }

  /** The sample renders with its interface, without a VRF segment (the VRF
      is "default"), without its tag, and with flags "n/a": the string
      "TCP" is not the integer 6. */
  lemma SampleRendering()
    ensures Render(NewFlow(Sample)) == Ok(
      "as2core1" + ("ingressInterface: " + "Ethernet1/0") + "->[" + "253.127.0.0" + ":" + "0" + "->"
      + "2.128.0.101" + ":" + "22" + " proto: " + "TCP" + " dscp:" + "0" + " ecn:"
      + "0" + " fragOff:" + "0" + " length:" + "0" + " state:" + "NEW" + " flags: "
      + "n/a")
  {
    var f := NewFlow(Sample);
    SampleShowsSampleFields();
    SampleProtocolAndVrf();
    SampleReference(f, "", "TCP", "n/a");
    assert "as2core1" + ("ingressInterface: " + "Ethernet1/0") + ""
        == "as2core1" + ("ingressInterface: " + "Ethernet1/0");
    RenderMatchesReference(f);
  }

  /** The same record with protocol number 6, as the flag logic expects. */
  const TcpSample: map<string, Value> := Sample["ipProtocol" := Int(6)]

  // The eight flag entries of Sample, two per lemma for the same reason.

  lemma SampleAckCwr() ensures Sample[TcpFlagFields[0]] == Int(0) && Sample[TcpFlagFields[1]] == Int(0) {}

  lemma SampleEceFin() ensures Sample[TcpFlagFields[2]] == Int(0) && Sample[TcpFlagFields[3]] == Int(0) {}

  lemma SamplePshRst() ensures Sample[TcpFlagFields[4]] == Int(0) && Sample[TcpFlagFields[5]] == Int(0) {}

  lemma SampleSynUrg() ensures Sample[TcpFlagFields[6]] == Int(0) && Sample[TcpFlagFields[7]] == Int(0) {}

  /** A record whose eight flags are all the integer 0 has flag string
      "00000000". */
  lemma ZeroFlagDigits(f: Flow)
    requires HasTcpFlags(f)
    requires f.attrs[TcpFlagFields[0]] == Int(0) && f.attrs[TcpFlagFields[1]] == Int(0)
    requires f.attrs[TcpFlagFields[2]] == Int(0) && f.attrs[TcpFlagFields[3]] == Int(0)
    requires f.attrs[TcpFlagFields[4]] == Int(0) && f.attrs[TcpFlagFields[5]] == Int(0)
    requires f.attrs[TcpFlagFields[6]] == Int(0) && f.attrs[TcpFlagFields[7]] == Int(0)
    ensures FlagDigits(f) == "00000000"
  {
    assert ValueToString(Int(0)) == "0";
  }

  lemma TcpSampleZeroFlags()
    ensures var m := TcpSample;
      m[TcpFlagFields[0]] == Int(0) && m[TcpFlagFields[1]] == Int(0)
      && m[TcpFlagFields[2]] == Int(0) && m[TcpFlagFields[3]] == Int(0)
      && m[TcpFlagFields[4]] == Int(0) && m[TcpFlagFields[5]] == Int(0)
      && m[TcpFlagFields[6]] == Int(0) && m[TcpFlagFields[7]] == Int(0)
  {
    SampleAckCwr();
    SampleEceFin();
    SamplePshRst();
    SampleSynUrg();
  }

  lemma TcpSampleDigits()
    ensures var f := NewFlow(TcpSample);
      HasTcpFlags(f) && FlagDigits(f) == "00000000"
  {
    TcpSampleZeroFlags();
    ZeroFlagDigits(NewFlow(TcpSample));
  }

  lemma TcpSampleFacts()
    ensures var f := NewFlow(TcpSample);
      ShowsSampleFields(f) && IsTcp(f) && HasTcpFlags(f) && ExpectedVrf(f) == "" && Text(f, "ipProtocol") == "6"
      && FlagDigits(f) == "00000000"
  {
    SampleShowsSampleFields();
    SampleProtocolAndVrf();
    UpdateKeepsSampleFields(NewFlow(Sample), "ipProtocol", Int(6));
    TcpSampleDigits();
  }

  /** As written, a protocol-6 record shows "None" for its flags: the flag
      string is composed and discarded. */
  lemma TcpSampleShowsNoFlags()
    ensures Render(NewFlow(TcpSample)) == Ok(
      "as2core1" + ("ingressInterface: " + "Ethernet1/0") + "->[" + "253.127.0.0" + ":" + "0" + "->"
      + "2.128.0.101" + ":" + "22" + " proto: " + "6" + " dscp:" + "0" + " ecn:"
      + "0" + " fragOff:" + "0" + " length:" + "0" + " state:" + "NEW" + " flags: "
      + "None")
  {
    var f := NewFlow(TcpSample);
    TcpSampleFacts();
    SampleReference(f, "", "6", "None");
    assert "as2core1" + ("ingressInterface: " + "Ethernet1/0") + ""
        == "as2core1" + ("ingressInterface: " + "Ethernet1/0");
    RenderMatchesReference(f);
  }

  /** With the flag string returned, the same record shows its eight flags. */
  lemma TcpSampleShowsFlagsWhenCorrected()
    ensures RenderCorrected(NewFlow(TcpSample)) == Ok(
      "as2core1" + ("ingressInterface: " + "Ethernet1/0") + "->[" + "253.127.0.0" + ":" + "0" + "->"
      + "2.128.0.101" + ":" + "22" + " proto: " + "6" + " dscp:" + "0" + " ecn:"
      + "0" + " fragOff:" + "0" + " length:" + "0" + " state:" + "NEW" + " flags: "
      + "00000000")
  {
    var f := NewFlow(TcpSample);
    TcpSampleFacts();
    SampleReference(f, "", "6", "00000000");
    assert "as2core1" + ("ingressInterface: " + "Ethernet1/0") + ""
        == "as2core1" + ("ingressInterface: " + "Ethernet1/0");
    RenderCorrectedMatchesReference(f);
  }

  lemma MgmtSampleFacts()
    ensures var f := NewFlow(Sample["ingressVrf" := Str("mgmt")]);
      ShowsSampleFields(f) && ExpectedVrf(f) == "vrf: " + "mgmt" && Text(f, "ipProtocol") == "TCP" && !IsTcp(f)
  {
    SampleShowsSampleFields();
    SampleProtocolAndVrf();
    UpdateKeepsSampleFields(NewFlow(Sample), "ingressVrf", Str("mgmt"));
  }

  /** A VRF other than "default" is shown. */
  lemma NonDefaultVrfShown()
    ensures Render(NewFlow(Sample["ingressVrf" := Str("mgmt")])) == Ok(
      "as2core1" + ("ingressInterface: " + "Ethernet1/0") + ("vrf: " + "mgmt") + "->[" + "253.127.0.0" + ":" + "0" + "->"
      + "2.128.0.101" + ":" + "22" + " proto: " + "TCP" + " dscp:" + "0" + " ecn:"
      + "0" + " fragOff:" + "0" + " length:" + "0" + " state:" + "NEW" + " flags: "
      + "n/a")
  {
    MgmtSampleFacts();
    var f := NewFlow(Sample["ingressVrf" := Str("mgmt")]);
    SampleReference(f, "vrf: " + "mgmt", "TCP", "n/a");
    RenderMatchesReference(f);
  }
}
