/**
 * The broker-facing types (src/mqtt/mqtt_types.ts): the three connection
 * statuses and the twelve shapes of a device-response frame.
 *
 * A received frame, once parsed from JSON, is a `Frame`; it is one of the
 * response types exactly when some row of `ResponseTable` admits it. The
 * closed sum `Received` has one constructor per response interface, and
 * `Decode`/`Encode` move between the two forms. JSON numbers are modelled as
 * integers.
 */
module MqttTypes {
  import opened Prelude

  /** `MQTTConnectionStatus`. */
  datatype ConnectionStatus = Connected | Disconnecting | Disconnected {

    /** The enum member's string value. */
    function Value(): string {
      match this
      case Connected => "connected"
      case Disconnecting => "disconnecting"
      case Disconnected => "disconnected"
    }
  }

  /** The member whose string value is `s`, if any. */
  function StatusFromValue(s: string): (r: Option<ConnectionStatus>)
    ensures r.Some? ==> r.value.Value() == s
  {
    if s == "connected" then Some(Connected)
    else if s == "disconnecting" then Some(Disconnecting)
    else if s == "disconnected" then Some(Disconnected)
    else None
  }

  /** Each status is recovered from its string, so the three strings are distinct. */
  lemma StatusValueRoundTrip(st: ConnectionStatus)
    ensures StatusFromValue(st.Value()) == Some(st)
  {
  }

  lemma StatusValuesDistinct(a: ConnectionStatus, b: ConnectionStatus)
    ensures a != b ==> a.Value() != b.Value()
  {
    StatusValueRoundTrip(a);
    StatusValueRoundTrip(b);
  }

  /** A parsed inbound frame `{command, coord_id, node_id, order_id?, params: {param1}}`. */
  datatype Frame = Frame(command: int, coordId: int, nodeId: int, orderId: Option<int>, param1: int)

  /** What a response type allows in `params.param1`. */
  datatype ParamRule = AnyNumber | Exactly(v: int) | ZeroOrOne

  predicate ParamAllowed(rule: ParamRule, p: int)
  {
    match rule
    case AnyNumber => true
    case Exactly(v) => p == v
    case ZeroOrOne => p == 0 || p == 1
  }

  /** One response interface: its `command` literal, whether it fixes `node_id: 0`, and its `param1` type. */
  datatype Variant = Variant(code: int, nodeIsZero: bool, param: ParamRule)

  /** The twelve response interfaces, in declaration order. */
  const ResponseTable: seq<Variant> := [
    Variant(5, false, AnyNumber),     // AckResponse
    Variant(10, false, AnyNumber),    // NoAckResponse
    Variant(15, false, Exactly(0)),   // PingResponse
    Variant(20, false, AnyNumber),    // GetRestartCountResponse
    Variant(25, false, Exactly(0)),   // SetRestartCountResponse
    Variant(35, false, Exactly(0)),   // SanityCheckResponse
    Variant(40, true, AnyNumber),     // GetNonResponseCountResponse
    Variant(45, true, AnyNumber),     // GetSamplingTimeResponse
    Variant(50, true, Exactly(0)),    // SetSamplingTimeResponse
    Variant(55, true, Exactly(0)),    // PauseSamplingResponse
    Variant(60, true, Exactly(1)),    // ResumeSamplingResponse
    Variant(65, true, ZeroOrOne)      // GetSamplingStateResponse
  ]

  const ResponseCodes: set<int> := {5, 10, 15, 20, 25, 35, 40, 45, 50, 55, 60, 65}

  predicate Admits(v: Variant, f: Frame)
  {
    f.command == v.code && (v.nodeIsZero ==> f.nodeId == 0) && ParamAllowed(v.param, f.param1)
  }

  /** The conformance predicate: `f` has the shape of some member of `MQTTReceivedMessage`. */
  predicate Conforms(f: Frame): (b: bool)
    ensures b ==> f.command in ResponseCodes
  {
    exists i :: 0 <= i < |ResponseTable| && Admits(ResponseTable[i], f)
  }

  /** `MQTTReceivedMessage`, one constructor per response interface. */
  datatype Received =
    | Ack(coordId: int, nodeId: int, orderId: Option<int>, param1: int)
    | NoAck(coordId: int, nodeId: int, orderId: Option<int>, param1: int)
    | Ping(coordId: int, nodeId: int, orderId: Option<int>)
    | GetRestartCount(coordId: int, nodeId: int, orderId: Option<int>, param1: int)
    | SetRestartCount(coordId: int, nodeId: int, orderId: Option<int>)
    | SanityCheck(coordId: int, nodeId: int, orderId: Option<int>)
    | GetNonResponseCount(coordId: int, orderId: Option<int>, param1: int)
    | GetSamplingTime(coordId: int, orderId: Option<int>, param1: int)
    | SetSamplingTime(coordId: int, orderId: Option<int>)
    | PauseSampling(coordId: int, orderId: Option<int>)
    | ResumeSampling(coordId: int, orderId: Option<int>)
      /** `param1: 0 | 1`, as a boolean: 1 is `sampling`. */
    | GetSamplingState(coordId: int, orderId: Option<int>, sampling: bool)

  /** The frame a typed message stands for. */
  function Encode(m: Received): (f: Frame)
    ensures f.coordId == m.coordId && f.orderId == m.orderId
  {
    match m
    case Ack(c, n, o, p) => Frame(5, c, n, o, p)
    case NoAck(c, n, o, p) => Frame(10, c, n, o, p)
    case Ping(c, n, o) => Frame(15, c, n, o, 0)
    case GetRestartCount(c, n, o, p) => Frame(20, c, n, o, p)
    case SetRestartCount(c, n, o) => Frame(25, c, n, o, 0)
    case SanityCheck(c, n, o) => Frame(35, c, n, o, 0)
    case GetNonResponseCount(c, o, p) => Frame(40, c, 0, o, p)
    case GetSamplingTime(c, o, p) => Frame(45, c, 0, o, p)
    case SetSamplingTime(c, o) => Frame(50, c, 0, o, 0)
    case PauseSampling(c, o) => Frame(55, c, 0, o, 0)
    case ResumeSampling(c, o) => Frame(60, c, 0, o, 1)
    case GetSamplingState(c, o, s) => Frame(65, c, 0, o, if s then 1 else 0)
  }

  /** Narrows a frame to its response type, dispatching on `command`; `None` for a malformed frame. */
  function Decode(f: Frame): (r: Option<Received>)
    ensures r.Some? ==> Encode(r.value) == f
  {
    var Frame(cmd, c, n, o, p) := f;
    if cmd == 5 then Some(Ack(c, n, o, p))
    else if cmd == 10 then Some(NoAck(c, n, o, p))
    else if cmd == 15 then (if p == 0 then Some(Ping(c, n, o)) else None)
    else if cmd == 20 then Some(GetRestartCount(c, n, o, p))
    else if cmd == 25 then (if p == 0 then Some(SetRestartCount(c, n, o)) else None)
    else if cmd == 35 then (if p == 0 then Some(SanityCheck(c, n, o)) else None)
    else if n != 0 then None
    else if cmd == 40 then Some(GetNonResponseCount(c, o, p))
    else if cmd == 45 then Some(GetSamplingTime(c, o, p))
    else if cmd == 50 then (if p == 0 then Some(SetSamplingTime(c, o)) else None)
    else if cmd == 55 then (if p == 0 then Some(PauseSampling(c, o)) else None)
    else if cmd == 60 then (if p == 1 then Some(ResumeSampling(c, o)) else None)
    else if cmd == 65 then (if p == 0 || p == 1 then Some(GetSamplingState(c, o, p == 1)) else None)
    else None
  }

  /** Every typed message survives the trip through its frame. */
  lemma DecodeEncode(m: Received)
    ensures Decode(Encode(m)) == Some(m)
  {
  }

  /** The decoder and the declarative table agree on which frames are well formed. */
  lemma {:induction false} DecodeMatchesTable(f: Frame)
    ensures Decode(f).Some? <==> Conforms(f)
  {
    if Decode(f).Some? {
      var i := TableIndex(f.command);
      assert Admits(ResponseTable[i], f);
    }
    if Conforms(f) {
      var i :| 0 <= i < |ResponseTable| && Admits(ResponseTable[i], f);
      assert Decode(f).Some?;
    }
  }

  /** The row of `ResponseTable` for a response code. */
  function TableIndex(code: int): (i: nat)
    requires code in ResponseCodes
    ensures i < |ResponseTable| && ResponseTable[i].code == code
  {
    if code == 5 then 0 else if code == 10 then 1 else if code == 15 then 2
    else if code == 20 then 3 else if code == 25 then 4 else if code == 35 then 5
    else if code == 40 then 6 else if code == 45 then 7 else if code == 50 then 8
    else if code == 55 then 9 else if code == 60 then 10 else 11
  }

  /** The table lists each code once, so a frame's code selects at most one response type. */
  lemma CodesSelectOneVariant(i: nat, j: nat)
    requires i < |ResponseTable| && j < |ResponseTable|
    requires ResponseTable[i].code == ResponseTable[j].code
    ensures i == j
  {
  }

  /** A well-formed frame carries one of the twelve codes; 30 is not among them. */
  lemma ConformingCodes(f: Frame)
    requires Conforms(f)
    ensures f.command in ResponseCodes
    ensures f.command != 30
  {
  }

  /** The per-code constraints on `node_id` and `param1`, as the interfaces declare them. */
  lemma ConformanceConstraints(f: Frame)
    requires Conforms(f)
    ensures f.command in {40, 45, 50, 55, 60, 65} ==> f.nodeId == 0
    ensures f.command in {15, 25, 35, 50, 55} ==> f.param1 == 0
    ensures f.command == 60 ==> f.param1 == 1
    ensures f.command == 65 ==> f.param1 == 0 || f.param1 == 1
  {
  }

  /** Codes 5, 10, 20, 40 and 45 take any `param1`, and `order_id` is optional in every type. */
  lemma UnconstrainedFields(f: Frame, p: int, o: Option<int>)
    requires Conforms(f)
    ensures f.command in {5, 10, 20, 40, 45} ==> Conforms(f.(param1 := p))
    ensures Conforms(f.(orderId := o))
  {
    var i :| 0 <= i < |ResponseTable| && Admits(ResponseTable[i], f);
    assert Admits(ResponseTable[i], f.(orderId := o));
    if f.command in {5, 10, 20, 40, 45} {
      assert Admits(ResponseTable[i], f.(param1 := p));
    }
  }
}
