/**
 * Synthetto: the Perfetto trace-packet builder underneath the encoder.
 *
 * A trace file is a sequence of records, each the tag byte 0x0A followed by a
 * length-delimited `TracePacket`. The byte encoding of a packet is not part of
 * this model: a `Record` holds the tag and the packet value it encodes.
 * Packets carry only the fields this library ever sets; every other field of
 * the Perfetto schema is absent.
 */
module Synthetto {
  import opened Wrappers

  /** Field 1 of the trace with the length-delimited wire type. */
  const PACKET_TAG: nat := 0x0A
  const TRUSTED_PACKET_SEQUENCE_ID: nat := 0xDEADBEEF

  // Perfetto enum values used by the packets.
  const TYPE_SLICE_BEGIN: int := 1
  const TYPE_SLICE_END: int := 2
  const TYPE_INSTANT: int := 3
  const TYPE_COUNTER: int := 4

  const UNIT_UNSPECIFIED: int := 0
  const UNIT_TIME_NS: int := 1
  const UNIT_COUNT: int := 2
  const UNIT_SIZE_BYTES: int := 3

  datatype ProcessDescriptor = ProcessDescriptor(
    pid: Option<int>,
    cmdline: seq<string>,
    processName: Option<string>,
    processPriority: Option<int>,
    startTimestampNs: Option<nat>)

  datatype ThreadDescriptor = ThreadDescriptor(pid: Option<int>, tid: Option<int>, threadName: Option<string>)

  datatype CounterDescriptor = CounterDescriptor(
    categories: seq<string>,
    unit: Option<int>,
    unitName: Option<string>,
    unitMultiplier: Option<int>,
    isIncremental: Option<bool>,
    yAxisShareKey: Option<string>)

  /** The `static_or_dynamic_name` one-of of a track descriptor. */
  datatype TrackName = Name(name: string) | StaticName(staticName: string) | AtraceName(atraceName: string)

  datatype TrackDescriptor = TrackDescriptor(
    uuid: Option<nat>,
    parentUuid: Option<nat>,
    process: Option<ProcessDescriptor>,
    thread: Option<ThreadDescriptor>,
    counter: Option<CounterDescriptor>,
    staticOrDynamicName: Option<TrackName>,
    description: Option<string>,
    childOrdering: Option<int>,
    siblingOrderRank: Option<int>)

  /** The `name_field` one-of of a track event: a literal name or an interned one. */
  datatype NameField = EventName(name: string) | NameIid(iid: nat)

  /** The counter value one-of; a double is kept as its IEEE-754 bit pattern. */
  datatype CounterValueField = CounterValue(intValue: int) | DoubleCounterValue(bits: bv64)

  datatype TrackEvent = TrackEvent(
    nameField: Option<NameField>,
    trackUuid: Option<nat>,
    eventType: Option<int>,
    flowIds: seq<nat>,
    terminatingFlowIds: seq<nat>,
    correlationId: Option<nat>,
    counterValue: Option<CounterValueField>)

  /** The `data` one-of of a packet; `Other` stands for every payload this library never writes. */
  datatype PacketData =
    | TrackDescriptorData(descriptor: TrackDescriptor)
    | TrackEventData(event: TrackEvent)
    | Other(fieldNumber: nat, payload: seq<nat>)

  datatype TracePacket = TracePacket(
    timestamp: Option<nat>,
    data: Option<PacketData>,
    trustedPacketSequenceId: Option<nat>)

  /** One record of the output stream: the tag byte and the packet that follows it, length-delimited. */
  datatype Record = Record(tag: nat, packet: TracePacket)

  datatype ChildOrder = Lexicographic | Chronological | Explicit

  /** `ChildOrder::to_proto_enum`: Perfetto's ChildTracksOrdering values 1, 2, 3. */
  function ChildOrderToProto(o: ChildOrder): (v: int)
    ensures 1 <= v <= 3
    ensures o == Lexicographic <==> v == 1
    ensures o == Chronological <==> v == 2
  {
    match o
    case Lexicographic => 1
    case Chronological => 2
    case Explicit => 3
  }

  /** The proto value identifies the ordering: distinct orderings never share a value. */
  lemma ChildOrderInjective(a: ChildOrder, b: ChildOrder)
    ensures ChildOrderToProto(a) == ChildOrderToProto(b) ==> a == b
  {
  }

  datatype CounterTrackUnit = Unspecified | TimeNs | Count | SizeBytes | Custom(customName: string)

  /** `CounterTrackUnit::from_string`. */
  function UnitFromString(unitName: Option<string>): (u: CounterTrackUnit)
    ensures unitName == None || unitName == Some("") ==> u == Unspecified
    ensures u.Custom? <==> unitName.Some? && unitName.value !in {"", "TimeNs", "Count", "SizeBytes"}
    ensures u.Custom? ==> u.customName == unitName.value
  {
    match unitName
    case None => Unspecified
    case Some(s) =>
      if s == "" then Unspecified
      else if s == "TimeNs" then TimeNs
      else if s == "Count" then Count
      else if s == "SizeBytes" then SizeBytes
      else Custom(s)
  }

  /** `CounterTrackUnit::to_proto_unit`: always present; a custom unit is reported as unspecified. */
  function ToProtoUnit(u: CounterTrackUnit): (v: Option<int>)
    ensures v.Some? && 0 <= v.value <= 3
    ensures v.value == UNIT_UNSPECIFIED <==> u == Unspecified || u.Custom?
  {
    Some(match u
      case Unspecified => UNIT_UNSPECIFIED
      case TimeNs => UNIT_TIME_NS
      case Count => UNIT_COUNT
      case SizeBytes => UNIT_SIZE_BYTES
      case Custom(_) => UNIT_UNSPECIFIED)
  }

  /** `CounterTrackUnit::to_proto_unit_name`: the custom name, and nothing for the named units. */
  function ToProtoUnitName(u: CounterTrackUnit): (n: Option<string>)
    ensures n.Some? <==> u.Custom?
    ensures u.Custom? ==> n.value == u.customName
  {
    if u.Custom? then Some(u.customName) else None
  }

  /** The name the encoder's caller gave for a counter's unit, as a trace reader recovers it. */
  function UnitNameOfDescriptor(unit: Option<int>, unitName: Option<string>): Option<string>
  {
    if unitName.Some? then unitName
    else if unit == Some(UNIT_TIME_NS) then Some("TimeNs")
    else if unit == Some(UNIT_COUNT) then Some("Count")
    else if unit == Some(UNIT_SIZE_BYTES) then Some("SizeBytes")
    else None
  }

  /**
   * A unit name survives the trip into a counter descriptor: the named units
   * become their enum value, any other non-empty name travels as the custom
   * unit name, and a missing or empty name is recorded as unspecified.
   */
  lemma UnitNameRoundTrip(unitName: Option<string>)
    ensures var u := UnitFromString(unitName);
      UnitNameOfDescriptor(ToProtoUnit(u), ToProtoUnitName(u)) ==
        if unitName == Some("") then None else unitName
  {
  }

  // ---- Packets ------------------------------------------------------------

  /** A track-descriptor packet: no timestamp, the trusted sequence id, the descriptor as data. */
  predicate IsDescriptorPacket(p: TracePacket)
  {
    && p.timestamp == None
    && p.trustedPacketSequenceId == Some(TRUSTED_PACKET_SEQUENCE_ID)
    && p.data.Some? && p.data.value.TrackDescriptorData?
  }

  /** A track-event packet: a timestamp, the trusted sequence id, the event as data. */
  predicate IsEventPacket(p: TracePacket)
  {
    && p.timestamp.Some?
    && p.trustedPacketSequenceId == Some(TRUSTED_PACKET_SEQUENCE_ID)
    && p.data.Some? && p.data.value.TrackEventData?
  }

  /** The type of an event packet, when it has one. */
  function EventTypeOf(p: TracePacket): Option<int>
  {
    if p.data.Some? && p.data.value.TrackEventData? then p.data.value.event.eventType else None
  }

  /** The track an event packet belongs to, when it names one. */
  function EventTrackOf(p: TracePacket): Option<nat>
  {
    if p.data.Some? && p.data.value.TrackEventData? then p.data.value.event.trackUuid else None
  }

  function DescriptorPacket(d: TrackDescriptor): TracePacket
  {
    TracePacket(None, Some(TrackDescriptorData(d)), Some(TRUSTED_PACKET_SEQUENCE_ID))
  }

  function EventPacket(ts: nat, e: TrackEvent): TracePacket
  {
    TracePacket(Some(ts), Some(TrackEventData(e)), Some(TRUSTED_PACKET_SEQUENCE_ID))
  }

  /** The descriptor `new_process` writes: a process track with no parent. */
  function ProcessPacket(
    uuid: nat, pid: int, processName: Option<string>, cmdline: seq<string>, priority: Option<int>,
    description: Option<string>, childOrdering: Option<ChildOrder>, siblingOrderRank: Option<int>): (p: TracePacket)
    ensures IsDescriptorPacket(p)
    ensures var d := p.data.value.descriptor;
      && d.uuid == Some(uuid) && d.parentUuid == None
      && d.process == Some(ProcessDescriptor(Some(pid), cmdline, processName, priority, None))
      && d.thread == None && d.counter == None && d.staticOrDynamicName == None
      && d.description == description
      && d.childOrdering == MapOption(childOrdering, ChildOrderToProto)
      && d.siblingOrderRank == siblingOrderRank
  {
    DescriptorPacket(TrackDescriptor(
      Some(uuid), None, Some(ProcessDescriptor(Some(pid), cmdline, processName, priority, None)),
      None, None, None, description, MapOption(childOrdering, ChildOrderToProto), siblingOrderRank))
  }

  /** The descriptor `new_thread` writes: a thread track with no parent. */
  function ThreadPacket(
    uuid: nat, pid: int, tid: int, threadName: string,
    description: Option<string>, childOrdering: Option<ChildOrder>, siblingOrderRank: Option<int>): (p: TracePacket)
    ensures IsDescriptorPacket(p)
    ensures var d := p.data.value.descriptor;
      && d.uuid == Some(uuid) && d.parentUuid == None
      && d.thread == Some(ThreadDescriptor(Some(pid), Some(tid), Some(threadName)))
      && d.process == None && d.counter == None && d.staticOrDynamicName == None
      && d.description == description
      && d.childOrdering == MapOption(childOrdering, ChildOrderToProto)
      && d.siblingOrderRank == siblingOrderRank
  {
    DescriptorPacket(TrackDescriptor(
      Some(uuid), None, None, Some(ThreadDescriptor(Some(pid), Some(tid), Some(threadName))),
      None, None, description, MapOption(childOrdering, ChildOrderToProto), siblingOrderRank))
  }

  /** The descriptor `new_track` writes: a generic track with a dynamic name under the caller's parent. */
  function TrackPacket(
    uuid: nat, name: string, parentUuid: Option<nat>,
    description: Option<string>, childOrdering: Option<ChildOrder>, siblingOrderRank: Option<int>): (p: TracePacket)
    ensures IsDescriptorPacket(p)
    ensures var d := p.data.value.descriptor;
      && d.uuid == Some(uuid) && d.parentUuid == parentUuid
      && d.staticOrDynamicName == Some(Name(name))
      && d.process == None && d.thread == None && d.counter == None
      && d.description == description
      && d.childOrdering == MapOption(childOrdering, ChildOrderToProto)
      && d.siblingOrderRank == siblingOrderRank
  {
    DescriptorPacket(TrackDescriptor(
      Some(uuid), parentUuid, None, None, None, Some(Name(name)),
      description, MapOption(childOrdering, ChildOrderToProto), siblingOrderRank))
  }

  /** The descriptor `new_counter` writes: a named counter track under the caller's parent. */
  function CounterPacket(
    uuid: nat, name: string, unit: CounterTrackUnit, isIncremental: bool, parentUuid: Option<nat>,
    description: Option<string>, childOrdering: Option<ChildOrder>, siblingOrderRank: Option<int>): (p: TracePacket)
    ensures IsDescriptorPacket(p)
    ensures var d := p.data.value.descriptor;
      && d.uuid == Some(uuid) && d.parentUuid == parentUuid
      && d.staticOrDynamicName == Some(Name(name))
      && d.counter == Some(CounterDescriptor([], ToProtoUnit(unit), ToProtoUnitName(unit), None, Some(isIncremental), None))
      && d.process == None && d.thread == None
      && d.description == description
      && d.childOrdering == MapOption(childOrdering, ChildOrderToProto)
      && d.siblingOrderRank == siblingOrderRank
  {
    DescriptorPacket(TrackDescriptor(
      Some(uuid), parentUuid, None, None,
      Some(CounterDescriptor([], ToProtoUnit(unit), ToProtoUnitName(unit), None, Some(isIncremental), None)),
      Some(Name(name)), description, MapOption(childOrdering, ChildOrderToProto), siblingOrderRank))
  }

  /** The packet of `slice_begin_evt`. */
  function SliceBeginPacket(
    trackUuid: nat, ts: nat, name: Option<string>, flows: seq<nat>, flowsEnd: seq<nat>,
    correlationId: Option<nat>): (p: TracePacket)
    ensures IsEventPacket(p) && p.timestamp == Some(ts)
    ensures EventTypeOf(p) == Some(TYPE_SLICE_BEGIN) && EventTrackOf(p) == Some(trackUuid)
    ensures var e := p.data.value.event;
      && e.nameField == MapOption(name, s => EventName(s))
      && e.flowIds == flows && e.terminatingFlowIds == flowsEnd
      && e.correlationId == correlationId && e.counterValue == None
  {
    EventPacket(ts, TrackEvent(MapOption(name, s => EventName(s)), Some(trackUuid), Some(TYPE_SLICE_BEGIN),
      flows, flowsEnd, correlationId, None))
  }

  /** The packet of `slice_end_evt`: an end never carries a name. */
  function SliceEndPacket(
    trackUuid: nat, ts: nat, flows: seq<nat>, flowsEnd: seq<nat>, correlationId: Option<nat>): (p: TracePacket)
    ensures IsEventPacket(p) && p.timestamp == Some(ts)
    ensures EventTypeOf(p) == Some(TYPE_SLICE_END) && EventTrackOf(p) == Some(trackUuid)
    ensures var e := p.data.value.event;
      && e.nameField == None
      && e.flowIds == flows && e.terminatingFlowIds == flowsEnd
      && e.correlationId == correlationId && e.counterValue == None
  {
    EventPacket(ts, TrackEvent(None, Some(trackUuid), Some(TYPE_SLICE_END), flows, flowsEnd, correlationId, None))
  }

  /** The packet of `instant_evt`. */
  function InstantPacket(
    trackUuid: nat, ts: nat, name: Option<string>, flows: seq<nat>, flowsEnd: seq<nat>,
    correlationId: Option<nat>): (p: TracePacket)
    ensures IsEventPacket(p) && p.timestamp == Some(ts)
    ensures EventTypeOf(p) == Some(TYPE_INSTANT) && EventTrackOf(p) == Some(trackUuid)
    ensures var e := p.data.value.event;
      && e.nameField == MapOption(name, s => EventName(s))
      && e.flowIds == flows && e.terminatingFlowIds == flowsEnd
      && e.correlationId == correlationId && e.counterValue == None
  {
    EventPacket(ts, TrackEvent(MapOption(name, s => EventName(s)), Some(trackUuid), Some(TYPE_INSTANT),
      flows, flowsEnd, correlationId, None))
  }

  /** The packet of `int_counter_evt`: a value, and no name, flows or correlation id. */
  function IntCounterPacket(trackUuid: nat, ts: nat, val: int): (p: TracePacket)
    ensures IsEventPacket(p) && p.timestamp == Some(ts)
    ensures EventTypeOf(p) == Some(TYPE_COUNTER) && EventTrackOf(p) == Some(trackUuid)
    ensures var e := p.data.value.event;
      && e.counterValue == Some(CounterValue(val))
      && e.nameField == None && e.flowIds == [] && e.terminatingFlowIds == [] && e.correlationId == None
  {
    EventPacket(ts, TrackEvent(None, Some(trackUuid), Some(TYPE_COUNTER), [], [], None, Some(CounterValue(val))))
  }

  /** The packet of `float_counter_evt`: a double value, and no name, flows or correlation id. */
  function FloatCounterPacket(trackUuid: nat, ts: nat, val: bv64): (p: TracePacket)
    ensures IsEventPacket(p) && p.timestamp == Some(ts)
    ensures EventTypeOf(p) == Some(TYPE_COUNTER) && EventTrackOf(p) == Some(trackUuid)
    ensures var e := p.data.value.event;
      && e.counterValue == Some(DoubleCounterValue(val))
      && e.nameField == None && e.flowIds == [] && e.terminatingFlowIds == [] && e.correlationId == None
  {
    EventPacket(ts, TrackEvent(None, Some(trackUuid), Some(TYPE_COUNTER), [], [], None, Some(DoubleCounterValue(val))))
  }

  /** Writing a packet to a buffer: `put_u8(0x0A)`, then the length-delimited packet. */
  function Emit(buf: seq<Record>, p: TracePacket): (r: seq<Record>)
    ensures |r| == |buf| + 1 && r[..|buf|] == buf
    ensures r[|buf|] == Record(PACKET_TAG, p)
  {
    buf + [Record(PACKET_TAG, p)]
  }

  /** `slice_begin_evt`: appends one slice-begin record. */
  function SliceBeginEvt(
    trackUuid: nat, ts: nat, name: Option<string>, flows: seq<nat>, flowsEnd: seq<nat>,
    correlationId: Option<nat>, buf: seq<Record>): seq<Record>
  {
    Emit(buf, SliceBeginPacket(trackUuid, ts, name, flows, flowsEnd, correlationId))
  }

  /** `slice_end_evt`: appends one slice-end record. */
  function SliceEndEvt(
    trackUuid: nat, ts: nat, flows: seq<nat>, flowsEnd: seq<nat>, correlationId: Option<nat>,
    buf: seq<Record>): seq<Record>
  {
    Emit(buf, SliceEndPacket(trackUuid, ts, flows, flowsEnd, correlationId))
  }

  /** `instant_evt`: appends one instant record. */
  function InstantEvt(
    trackUuid: nat, ts: nat, name: Option<string>, flows: seq<nat>, flowsEnd: seq<nat>,
    correlationId: Option<nat>, buf: seq<Record>): seq<Record>
  {
    Emit(buf, InstantPacket(trackUuid, ts, name, flows, flowsEnd, correlationId))
  }

  /** `int_counter_evt`: appends one integer counter record. */
  function IntCounterEvt(trackUuid: nat, ts: nat, val: int, buf: seq<Record>): seq<Record>
  {
    Emit(buf, IntCounterPacket(trackUuid, ts, val))
  }

  /** `float_counter_evt`: appends one floating-point counter record. */
  function FloatCounterEvt(trackUuid: nat, ts: nat, val: bv64, buf: seq<Record>): seq<Record>
  {
    Emit(buf, FloatCounterPacket(trackUuid, ts, val))
  }

  /** Every record this library writes: the 0x0A tag and a descriptor or event packet. */
  predicate WellFormed(r: Record)
  {
    r.tag == PACKET_TAG && (IsDescriptorPacket(r.packet) || IsEventPacket(r.packet))
  }

  /**
   * A reader can tell descriptors from events by the timestamp alone, and
   * every event type is one of the four this library writes.
   */
  lemma EventsAndDescriptorsDisjoint(p: TracePacket)
    ensures !(IsDescriptorPacket(p) && IsEventPacket(p))
  {
  }

  /** Each of the event writers appends exactly one well-formed record and keeps what was there. */
  lemma EventWritersAppendOne(
    trackUuid: nat, ts: nat, name: Option<string>, flows: seq<nat>, flowsEnd: seq<nat>,
    correlationId: Option<nat>, val: int, bits: bv64, buf: seq<Record>)
    ensures var outs := [
        SliceBeginEvt(trackUuid, ts, name, flows, flowsEnd, correlationId, buf),
        SliceEndEvt(trackUuid, ts, flows, flowsEnd, correlationId, buf),
        InstantEvt(trackUuid, ts, name, flows, flowsEnd, correlationId, buf),
        IntCounterEvt(trackUuid, ts, val, buf),
        FloatCounterEvt(trackUuid, ts, bits, buf)];
      forall i :: 0 <= i < |outs| ==>
        |outs[i]| == |buf| + 1 && outs[i][..|buf|] == buf && WellFormed(outs[i][|buf|])
        && outs[i][|buf|].packet.timestamp == Some(ts)
        && EventTrackOf(outs[i][|buf|].packet) == Some(trackUuid)
  {
  }

  /**
   * The identifier allocator. `uuid_cnt` starts at 1, and every allocation
   * returns the counter and then advances it, so 0 is never handed out.
   */
  class Synthetto {
    var uuidCnt: nat

    predicate Valid()
      reads this
    {
      uuidCnt >= 1
    }

    /** `Synthetto::new`. */
    constructor ()
      ensures Valid() && uuidCnt == 1
    {
      uuidCnt := 1;
    }

    /** `next_uuid`: the current counter, which is then incremented. */
    method NextUuid() returns (uuid: nat)
      requires Valid()
      modifies this
      ensures Valid()
      ensures uuid == old(uuidCnt) && uuidCnt == uuid + 1
      ensures uuid != 0
    {
      uuid := uuidCnt;
      uuidCnt := uuidCnt + 1;
    }

    /** `new_flow`: allocates an identifier and writes nothing. */
    method NewFlow() returns (uuid: nat)
      requires Valid()
      modifies this
      ensures Valid()
      ensures uuid == old(uuidCnt) && uuidCnt == uuid + 1
      ensures uuid != 0
    {
      uuid := NextUuid();
    }

    /** `new_process`: allocates an identifier and appends its process descriptor to `buf`. */
    method NewProcess(
      pid: int, processName: Option<string>, cmdline: seq<string>, priority: Option<int>,
      description: Option<string>, childOrdering: Option<ChildOrder>, siblingOrderRank: Option<int>,
      buf: seq<Record>)
      returns (uuid: nat, out: seq<Record>)
      requires Valid()
      modifies this
      ensures Valid()
      ensures uuid == old(uuidCnt) && uuidCnt == uuid + 1 && uuid != 0
      ensures out == Emit(buf, ProcessPacket(uuid, pid, processName, cmdline, priority, description, childOrdering, siblingOrderRank))
    {
      uuid := NextUuid();
      var p := ProcessPacket(uuid, pid, processName, cmdline, priority, description, childOrdering, siblingOrderRank);
      out := Emit(buf, p);
    }

    /** `new_thread`: allocates an identifier and appends its thread descriptor to `buf`. */
    method NewThread(
      pid: int, tid: int, threadName: string,
      description: Option<string>, childOrdering: Option<ChildOrder>, siblingOrderRank: Option<int>,
      buf: seq<Record>)
      returns (uuid: nat, out: seq<Record>)
      requires Valid()
      modifies this
      ensures Valid()
      ensures uuid == old(uuidCnt) && uuidCnt == uuid + 1 && uuid != 0
      ensures out == Emit(buf, ThreadPacket(uuid, pid, tid, threadName, description, childOrdering, siblingOrderRank))
    {
      uuid := NextUuid();
      var p := ThreadPacket(uuid, pid, tid, threadName, description, childOrdering, siblingOrderRank);
      out := Emit(buf, p);
    }

    /** `new_track`: allocates an identifier and appends its named track descriptor to `buf`. */
    method NewTrack(
      name: string, parentUuid: Option<nat>,
      description: Option<string>, childOrdering: Option<ChildOrder>, siblingOrderRank: Option<int>,
      buf: seq<Record>)
      returns (uuid: nat, out: seq<Record>)
      requires Valid()
      modifies this
      ensures Valid()
      ensures uuid == old(uuidCnt) && uuidCnt == uuid + 1 && uuid != 0
      ensures out == Emit(buf, TrackPacket(uuid, name, parentUuid, description, childOrdering, siblingOrderRank))
    {
      uuid := NextUuid();
      var p := TrackPacket(uuid, name, parentUuid, description, childOrdering, siblingOrderRank);
      out := Emit(buf, p);
    }

    /** `new_counter`: allocates an identifier and appends its counter track descriptor to `buf`. */
    method NewCounter(
      name: string, unit: CounterTrackUnit, isIncremental: bool, parentUuid: Option<nat>,
      description: Option<string>, childOrdering: Option<ChildOrder>, siblingOrderRank: Option<int>,
      buf: seq<Record>)
      returns (uuid: nat, out: seq<Record>)
      requires Valid()
      modifies this
      ensures Valid()
      ensures uuid == old(uuidCnt) && uuidCnt == uuid + 1 && uuid != 0
      ensures out == Emit(buf, CounterPacket(uuid, name, unit, isIncremental, parentUuid, description, childOrdering, siblingOrderRank))
    {
      uuid := NextUuid();
      var p := CounterPacket(uuid, name, unit, isIncremental, parentUuid, description, childOrdering, siblingOrderRank);
      out := Emit(buf, p);
    }
  }

  /**
   * A fresh allocator hands out 1, 2, 3, ... : successive identifiers strictly
   * increase, whatever mix of flows and tracks is requested, and none is 0.
   */
  method AllocationOrder() returns (flow: nat, track: nat, process: nat, next: nat)
    ensures flow == 1 && track == 2 && process == 3 && next == 4
    ensures 0 < flow < track < process < next
  {
    var s := new Synthetto();
    flow := s.NewFlow();
    var buf;
    track, buf := s.NewTrack("t", None, None, None, None, []);
    process, buf := s.NewProcess(1, None, [], None, None, None, None, buf);
    next := s.NextUuid();
  }
}
