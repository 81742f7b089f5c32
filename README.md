# Flow record of pybatfish

This project models the `Flow` record of `pybatfish/datamodel/flow.py`, a
passive record that adopts a deserialised JSON object as its attribute set,
and its one-line text rendering: `__str__`, together with the
`get_flag_str` helper it calls for the TCP flags.

- `pytext.dfy` (module `PyText`) holds the slice of Python text handling
  that the rendering relies on:
  - the values a JSON object can hold (`Str`, `Int`, and `Other` carrying
    the text `str()` gives every other value);
  - `str()` of an integer, proved to read back as the same integer;
  - `str.format`, modelled as an interpreter over a template of literal
    text, named fields and positional fields. It fails exactly when a field
    has no argument.
- `flow.dfy` (module `FlowRecord`) holds the record:
  - `NewFlow` is the constructor;
  - `GetAttr` is the read of a data field (an adopted key), where `Fail`
    stands for AttributeError;
  - `FlagStr` is `get_flag_str` as written;
  - `Render` is `str(flow)` as written;
  - `FlagStrCorrected` and `RenderCorrected` are the versions with the
    missing `return` supplied (see Findings).
- `flow_properties.dfy` (module `FlowProperties`) has independent reference
  definitions and the lemmas that tie the model to them. `Reference` is the
  summary written out field by field, and `Renderable` says when rendering
  succeeds.
- `flow_examples.dfy` (module `FlowExamples`) works through concrete records.
  It uses the sample record documented at the head of the class, and the
  same record with protocol number 6.

The code compares `ipProtocol` with the integer 6, while its own sample
record carries the string `"TCP"`. The model follows the code: a record
whose protocol is `"TCP"` renders with flags `n/a`, as `SampleRendering`
states.

An adopted key named `get_flag_str` hides the method, because instance
attributes win over plain methods in Python's attribute lookup. A JSON value
cannot be called, so rendering such a record fails. The model includes this
as part of `Renderable`.

## Model

| member | source | states |
|---|---|---|
| FlowRecord.NewFlow | pybatfish/datamodel/flow.py:43-44 | every data-field read on the new record gives the mapping's value under that key, and fails for a key the mapping lacks |
| FlowRecord.GetAttr | pybatfish/datamodel/flow.py:43-44 | `self.<name>` for an adopted data field; its contract is stated by FlowProperties.NewFlowAdoptsMapping |
| FlowProperties.NewFlowAdoptsMapping | pybatfish/datamodel/flow.py:43-44 | the record's attributes are exactly the mapping's keys, each with its identical value; construction never fails, the empty mapping included |
| FlowRecord.GetAll | pybatfish/datamodel/flow.py:56-69 | reading a list of attributes succeeds iff every one is present, and then yields their values in order |
| PyText.IntToStringRoundTrip | pybatfish/datamodel/flow.py:52-69 | the decimal text `format` writes for an integer field reads back as that integer |
| PyText.IntToStringInjective | pybatfish/datamodel/flow.py:52-69 | two integer fields are written alike iff they are equal |
| PyText.ValueToString | pybatfish/datamodel/flow.py:52-69 | a string field is written as itself; an integer field as a canonical decimal numeral that reads back as the integer; any other value as the text it carries |
| PyText.FormatSucceedsIff | pybatfish/datamodel/flow.py:52-55 | a `format` call succeeds iff every replacement field in the template has an argument |
| PyText.FormatAppend | pybatfish/datamodel/flow.py:52-55 | formatting a template made of two parts gives the two parts' texts side by side |
| FlowRecord.IfaceSegment | pybatfish/datamodel/flow.py:48-49 | computes `iface_str`; its contract is stated by FlowProperties.IfaceSegmentShown |
| FlowRecord.VrfSegment | pybatfish/datamodel/flow.py:50-51 | computes `vrf_str`; its contract is stated by FlowProperties.VrfSegmentShown |
| FlowRecord.ComposeFlags | pybatfish/datamodel/flow.py:73-76 | computes the eight-flag `format` call; its contract is stated by FlowProperties.ComposeFlagsJoinsFlags |
| FlowRecord.FlagStr | pybatfish/datamodel/flow.py:71-78 | `get_flag_str` as written; its contract is stated by FlowProperties.FlagStrCases |
| FlowRecord.FlagStrCorrected | pybatfish/datamodel/flow.py:71-78 | `get_flag_str` with the composed string returned; its contract is stated by FlowProperties.FlagStrCorrectedCases |
| FlowRecord.RenderWith | pybatfish/datamodel/flow.py:46-69 | `__str__` for a given outcome of the flag method; its contract is stated by FlowProperties.RenderWithMatchesReference |
| FlowRecord.Render | pybatfish/datamodel/flow.py:46-78 | `str(flow)` as written; its contract is stated by FlowProperties.RenderMatchesReference, FlowProperties.RenderFailsWithoutRequired, FlowProperties.RenderFailsWithoutTcpFlag and FlowProperties.RenderDependsOnlyOnReadFields |
| FlowRecord.RenderCorrected | pybatfish/datamodel/flow.py:46-78 | `str(flow)` with the flag string returned; its contract is stated by FlowProperties.RenderCorrectedMatchesReference |
| FlowProperties.IfaceSegmentShown | pybatfish/datamodel/flow.py:48-49 | the interface segment never fails; it is "ingressInterface: " followed by the interface when the key is present, and is empty iff the key is absent |
| FlowProperties.VrfSegmentShown | pybatfish/datamodel/flow.py:50-51 | the VRF segment never fails; it is "vrf: " followed by the VRF when the key is present and not the string "default", and is empty iff the key is absent or is "default" |
| FlowProperties.ComposeFlagsJoinsFlags | pybatfish/datamodel/flow.py:73-76 | composing the flag string succeeds iff all eight flags are present, and gives their texts Ack, Cwr, Ece, Fin, Psh, Rst, Syn, Urg in order |
| FlowProperties.FlagStrCases | pybatfish/datamodel/flow.py:71-78 | `get_flag_str` as written fails without a protocol, gives "n/a" for every protocol other than the integer 6, and for 6 gives no value (`None`) when all eight flags are present and fails when one is missing |
| FlowProperties.FlagStrCorrectedCases | pybatfish/datamodel/flow.py:71-78 | the same, except that for protocol 6 it gives the eight flags in order |
| FlowProperties.FlagDigitsAreBits | pybatfish/datamodel/flow.py:73-76 | with every flag 0 or 1, the flag string is eight characters, and character k is '1' iff flag k is set and '0' iff it is clear |
| FlowProperties.RenderWithMatchesReference | pybatfish/datamodel/flow.py:46-69 | for any outcome of the flag method, rendering fails iff a shown field is missing, an adopted field hides the method, or the method fails; otherwise it is the reference summary ending with that outcome |
| FlowProperties.RenderMatchesReference | pybatfish/datamodel/flow.py:46-78 | `str(flow)` as written fails iff the record is not renderable; otherwise it is node, interface segment, VRF segment, "->[", addresses and ports, protocol, dscp, ecn, fragment offset, length and state in that fixed order, then " flags: " and "None" for protocol 6 or "n/a" for any other protocol |
| FlowProperties.RenderCorrectedMatchesReference | pybatfish/datamodel/flow.py:46-78 | the corrected rendering is the same summary, with the eight flags in place of "None" for protocol 6 |
| FlowProperties.RenderFailsWithoutRequired | pybatfish/datamodel/flow.py:56-69 | a record missing any of ingressNode, srcIp, srcPort, dstIp, dstPort, ipProtocol, dscp, ecn, fragmentOffset, packetLength or state cannot be rendered |
| FlowProperties.RenderFailsWithoutTcpFlag | pybatfish/datamodel/flow.py:72-76 | a protocol-6 record missing any of the eight TCP flags cannot be rendered, although the composed flag string is thrown away |
| FlowProperties.RenderDependsOnlyOnReadFields | pybatfish/datamodel/flow.py:46-78 | two records that agree on every field rendering reads render alike, both failing or both giving the same text |
| FlowProperties.RenderIgnoresUnreadField | pybatfish/datamodel/flow.py:46-78 | adding, changing or removing a field that rendering does not read leaves the outcome as it was |
| FlowProperties.RenderIgnoresTag | pybatfish/datamodel/flow.py:46-47 | adding, changing or removing `tag` leaves the outcome as it was |
| FlowProperties.HasShownFieldsIff | pybatfish/datamodel/flow.py:56-68 | the field-by-field presence test equals "all eleven unconditionally read fields are keys" |
| FlowProperties.ShownFieldsPresent | pybatfish/datamodel/flow.py:56-68 | the order in which the model reads the eleven fields covers exactly those fields |
| FlowExamples.SampleRendering | pybatfish/datamodel/flow.py:18-41 | the documented sample renders with its interface, no VRF segment (the VRF is "default"), no tag, and flags "n/a" because its protocol is the string "TCP" |
| FlowExamples.TcpSampleShowsNoFlags | pybatfish/datamodel/flow.py:72-76 | the sample with protocol 6 renders with "flags: None" |
| FlowExamples.TcpSampleShowsFlagsWhenCorrected | pybatfish/datamodel/flow.py:72-76 | with the flag string returned, the same record renders with "flags: 00000000" |
| FlowExamples.NonDefaultVrfShown | pybatfish/datamodel/flow.py:50-51 | the sample with VRF "mgmt" renders with the segment "vrf: mgmt" |
| FlowExamples.ZeroFlagDigits | pybatfish/datamodel/flow.py:73-76 | a record whose eight flags are all 0 has flag string "00000000" |

## Left out

- NewFlow, GetAttr: attribute access is modelled for data fields only. Names the class itself defines (`get_flag_str`, `__str__`, `__init__`, `__dict__`, `__class__` and the other dunder names) are not looked up through GetAttr; rendering tests for an adopted `get_flag_str` key directly.
- Python's general `str()` of floats, booleans, null, lists and nested objects is not modelled. Such a value is `Other`, and carries its text as data.
- FlagStr: Python's `==` also finds the float `6.0` equal to 6; the model treats only `Int(6)` as protocol 6, because an `Other` value never equals an integer.
- Aliasing is not modelled. `self.__dict__ = jsonObject` shares the caller's dict, so the caller's later changes show through; the model is a value.
- The kind of exception raised and which missing attribute is reported first are not modelled. Every failure is the one `Fail` outcome.
- The JSON deserialisation and the backend client that supply the mapping are not part of this model.
- The automatic numbering of `{}` fields is written as explicit positions 0 to 7 in the flag template.

## Findings

| source | as written | input that shows it | evidently intended | confidence | as-written member | corrected member |
|---|---|---|---|---|---|---|
| pybatfish/datamodel/flow.py:72-76 | for protocol 6 the eight-flag string is built and then dropped, so `get_flag_str` returns `None` and the summary ends "flags: None" | the documented sample with `ipProtocol` set to the integer 6 | return the composed string, so the summary ends "flags: 00000000" | not executed | FlowExamples.TcpSampleShowsNoFlags | FlowProperties.RenderCorrectedMatchesReference |
