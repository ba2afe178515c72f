/**
 * The trace encoder's context: per-track stacks of open slices, per-counter
 * last values for compression, and the stream of records written so far.
 *
 * The output file is modelled as the sequence of records the buffered writer
 * has accepted. A write can fail for reasons outside the program (a full disk,
 * a closed file); the model lets every write succeed or fail and states what
 * the context looks like in either case.
 */
module Cspect {
  import opened Wrappers
  import opened Synthetto
  import Writers = Synthetto

  // ---- Slices -------------------------------------------------------------

  predicate Sorted(s: seq<nat>)
  {
    forall i, j :: 0 <= i < j < |s| ==> s[i] <= s[j]
  }

  /** Inserts `x` into a sorted sequence. */
  function Insert(x: nat, s: seq<nat>): (r: seq<nat>)
    requires Sorted(s)
    ensures Sorted(r) && multiset(r) == multiset(s) + multiset{x}
    ensures |r| == |s| + 1 && r[0] == (if s == [] || x <= s[0] then x else s[0])
  {
    if s == [] then [x]
    else if x <= s[0] then [x] + s
    else
      assert s == [s[0]] + s[1..];
      [s[0]] + Insert(x, s[1..])
  }

  /** `sort_unstable` on a flow list: the ascending permutation of its ids. */
  function SortFlows(s: seq<nat>): (r: seq<nat>)
    ensures Sorted(r) && multiset(r) == multiset(s)
  {
    if s == [] then []
    else
      assert s == [s[0]] + s[1..];
      Insert(s[0], SortFlows(s[1..]))
  }

  /** The head of a sorted sequence is its least element. */
  lemma SortedHeadIsLeast(s: seq<nat>, y: nat)
    requires Sorted(s) && y in multiset(s)
    ensures s[0] <= y
  {
    assert y in s;
  }

  /** Two sorted sequences with the same elements are the same sequence. */
  lemma {:induction false} SortedUnique(a: seq<nat>, b: seq<nat>)
    requires Sorted(a) && Sorted(b) && multiset(a) == multiset(b)
    ensures a == b
    decreases |a|
  {
    if a == [] {
      assert |multiset(b)| == 0;
    } else {
      assert |b| == |multiset(b)| == |multiset(a)| == |a|;
      assert a[0] in multiset(a) && b[0] in multiset(b);
      SortedHeadIsLeast(a, b[0]);
      SortedHeadIsLeast(b, a[0]);
      assert a[0] == b[0];
      assert a == [a[0]] + a[1..] && b == [b[0]] + b[1..];
      assert multiset(a) == multiset{a[0]} + multiset(a[1..]);
      assert multiset(b) == multiset{b[0]} + multiset(b[1..]);
      forall y ensures multiset(a[1..])[y] == multiset(b[1..])[y] {
        assert multiset(a)[y] == multiset(b)[y];
      }
      assert multiset(a[1..]) == multiset(b[1..]);
      SortedUnique(a[1..], b[1..]);
    }
  }

  /** An entry of a track's stack: the slice's name and its flow ids, kept sorted. */
  datatype TrackSlice = TrackSlice(name: Option<string>, flows: seq<nat>)

  /** `TrackSlice::new`: sorts the flows. */
  function NewTrackSlice(name: Option<string>, flows: seq<nat>): (s: TrackSlice)
    ensures s.name == name && Sorted(s.flows) && multiset(s.flows) == multiset(flows)
  {
    TrackSlice(name, SortFlows(flows))
  }

  /** `TrackSlice::eq`: equal names, equal lengths, equal sorted copies of the flows. */
  predicate SliceEq(a: TrackSlice, b: TrackSlice)
  {
    && a.name == b.name
    && |a.flows| == |b.flows|
    && SortFlows(a.flows) == SortFlows(b.flows)
  }

  /** Slice equality compares names, and flow lists as multisets: order is ignored, repetitions are not. */
  lemma SliceEqIsMultisetEq(a: TrackSlice, b: TrackSlice)
    ensures SliceEq(a, b) <==> a.name == b.name && multiset(a.flows) == multiset(b.flows)
  {
    if a.name == b.name && multiset(a.flows) == multiset(b.flows) {
      assert |a.flows| == |multiset(a.flows)| == |multiset(b.flows)| == |b.flows|;
      SortedUnique(SortFlows(a.flows), SortFlows(b.flows));
    }
  }

  /** A slice built from some flows equals one built from any reordering of them. */
  lemma NewTrackSliceIgnoresOrder(name: Option<string>, f: seq<nat>, g: seq<nat>)
    requires multiset(f) == multiset(g)
    ensures NewTrackSlice(name, f) == NewTrackSlice(name, g)
  {
    SortedUnique(SortFlows(f), SortFlows(g));
  }

  // ---- Counter values -----------------------------------------------------

  /** A counter's value: a signed integer, or a double kept as its IEEE-754 bit pattern. */
  datatype CounterValue = Int(i: int) | Float(bits: bv64)

  predicate IsNaN(b: bv64)
  {
    (b >> 52) & 0x7FF == 0x7FF && b & 0xF_FFFF_FFFF_FFFF != 0
  }

  predicate IsZero(b: bv64)
  {
    b & 0x7FFF_FFFF_FFFF_FFFF == 0
  }

  /** `f64 ==`: NaN equals nothing, the two zeros are equal, otherwise the bits must agree. */
  predicate FloatEq(a: bv64, b: bv64)
  {
    !IsNaN(a) && !IsNaN(b) && (a == b || (IsZero(a) && IsZero(b)))
  }

  /** The derived `PartialEq` of `CounterValue`. */
  predicate CounterValueEq(a: CounterValue, b: CounterValue)
  {
    match (a, b)
    case (Int(x), Int(y)) => x == y
    case (Float(x), Float(y)) => FloatEq(x, y)
    case _ => false
  }

  /** An integer value and a floating-point value are never equal; NaN is not even equal to itself. */
  lemma CounterValueEqFacts(i: int, x: bv64)
    ensures !CounterValueEq(Int(i), Float(x)) && !CounterValueEq(Float(x), Int(i))
    ensures CounterValueEq(Int(i), Int(i))
    ensures CounterValueEq(Float(x), Float(x)) <==> !IsNaN(x)
  {
  }

  /** Positive and negative zero compare equal; the quiet NaN does not equal itself. */
  lemma FloatEqExamples()
    ensures FloatEq(0x8000_0000_0000_0000, 0)
    ensures !FloatEq(0x7FF8_0000_0000_0000, 0x7FF8_0000_0000_0000)
    ensures !FloatEq(0x3FF0_0000_0000_0000, 0x3FF0_0000_0000_0001)
  {
  }

  /** The record `counter_evt` writes for a value. */
  function CounterValuePacket(trackUuid: nat, ts: nat, value: CounterValue): TracePacket
  {
    match value
    case Int(v) => IntCounterPacket(trackUuid, ts, v)
    case Float(b) => FloatCounterPacket(trackUuid, ts, b)
  }

  // ---- Counting slice records ---------------------------------------------

  predicate IsBeginOn(r: Record, t: nat)
  {
    EventTypeOf(r.packet) == Some(TYPE_SLICE_BEGIN) && EventTrackOf(r.packet) == Some(t)
  }

  predicate IsEndOn(r: Record, t: nat)
  {
    EventTypeOf(r.packet) == Some(TYPE_SLICE_END) && EventTrackOf(r.packet) == Some(t)
  }

  /** The number of slice-begin records for track `t`. */
  function Begins(out: seq<Record>, t: nat): nat
  {
    if out == [] then 0
    else Begins(out[..|out| - 1], t) + (if IsBeginOn(out[|out| - 1], t) then 1 else 0)
  }

  /** The number of slice-end records for track `t`. */
  function Ends(out: seq<Record>, t: nat): nat
  {
    if out == [] then 0
    else Ends(out[..|out| - 1], t) + (if IsEndOn(out[|out| - 1], t) then 1 else 0)
  }

  lemma CountsAppend(out: seq<Record>, rec: Record, t: nat)
    ensures Begins(out + [rec], t) == Begins(out, t) + (if IsBeginOn(rec, t) then 1 else 0)
    ensures Ends(out + [rec], t) == Ends(out, t) + (if IsEndOn(rec, t) then 1 else 0)
  {
    assert (out + [rec])[..|out|] == out;
  }

  /** A track's stack of open slices; a track never referenced has none. */
  function StackIn(tracks: map<nat, seq<TrackSlice>>, t: nat): seq<TrackSlice>
  {
    if t in tracks then tracks[t] else []
  }

  /** A per-track count that starts at zero. */
  function CountIn(counts: map<nat, nat>, t: nat): nat
  {
    if t in counts then counts[t] else 0
  }

  /**
   * On every track, the begins written plus the forced ends written on an
   * empty stack equal the ends written plus the slices still open.
   */
  ghost predicate Balanced(out: seq<Record>, tracks: map<nat, seq<TrackSlice>>, forced: map<nat, nat>)
  {
    forall t :: Begins(out, t) + CountIn(forced, t) == Ends(out, t) + |StackIn(tracks, t)|
  }

  /** A begin record on track `t`, with a slice pushed on `t`, keeps the balance. */
  lemma BeginPushes(out: seq<Record>, tracks: map<nat, seq<TrackSlice>>, forced: map<nat, nat>, rec: Record, t: nat, s: TrackSlice)
    requires Balanced(out, tracks, forced)
    requires EventTypeOf(rec.packet) == Some(TYPE_SLICE_BEGIN) && EventTrackOf(rec.packet) == Some(t)
    ensures Balanced(out + [rec], tracks[t := StackIn(tracks, t) + [s]], forced)
  {
    forall u ensures Begins(out + [rec], u) + CountIn(forced, u) == Ends(out + [rec], u) + |StackIn(tracks[t := StackIn(tracks, t) + [s]], u)| {
      CountsAppend(out, rec, u);
    }
  }

  /**
   * An end record on track `t` keeps the balance when the top slice of `t` is
   * popped, or, on an empty stack, when the end is counted as forced.
   */
  lemma EndPops(out: seq<Record>, tracks: map<nat, seq<TrackSlice>>, forced: map<nat, nat>, rec: Record, t: nat)
    requires Balanced(out, tracks, forced)
    requires EventTypeOf(rec.packet) == Some(TYPE_SLICE_END) && EventTrackOf(rec.packet) == Some(t)
    ensures var st := StackIn(tracks, t);
            if st == [] then Balanced(out + [rec], tracks[t := []], forced[t := CountIn(forced, t) + 1])
            else Balanced(out + [rec], tracks[t := st[..|st| - 1]], forced)
  {
    var st := StackIn(tracks, t);
    if st == [] {
      forall u ensures Begins(out + [rec], u) + CountIn(forced[t := CountIn(forced, t) + 1], u) == Ends(out + [rec], u) + |StackIn(tracks[t := []], u)| {
        CountsAppend(out, rec, u);
      }
    } else {
      forall u ensures Begins(out + [rec], u) + CountIn(forced, u) == Ends(out + [rec], u) + |StackIn(tracks[t := st[..|st| - 1]], u)| {
        CountsAppend(out, rec, u);
      }
    }
  }

  /** A record that is neither a begin nor an end keeps the balance of every track. */
  lemma OtherKeeps(out: seq<Record>, tracks: map<nat, seq<TrackSlice>>, forced: map<nat, nat>, rec: Record)
    requires Balanced(out, tracks, forced)
    requires EventTypeOf(rec.packet) != Some(TYPE_SLICE_BEGIN) && EventTypeOf(rec.packet) != Some(TYPE_SLICE_END)
    ensures Balanced(out + [rec], tracks, forced)
  {
    forall u ensures Begins(out + [rec], u) + CountIn(forced, u) == Ends(out + [rec], u) + |StackIn(tracks, u)| {
      CountsAppend(out, rec, u);
    }
  }

  // ---- The context --------------------------------------------------------

  datatype ReplacementBehaviour = NewSlice | Replace | ReplaceIfDifferent

  const WRITE_FAILED: string := "Failed to write to file - "
  const FLUSH_FAILED: string := "Failed to flush to trace file - "

  /** `ioerr_to_str`. */
  function IoErrToStr(e: string): (s: string)
    ensures WRITE_FAILED <= s
  {
    WRITE_FAILED + e
  }

  class Context {
    const synthetto: Synthetto
    /** `convert_ts`, fixed by the time scale and multiplier the context was created with. */
    const convertTs: real -> nat
    /** Each track's stack of open slices, created on first reference. */
    var tracks: map<nat, seq<TrackSlice>>
    /** The last value written for each counter that asked for compression. */
    var counters: map<nat, CounterValue>
    /** The records the writer has accepted. */
    var output: seq<Record>
    /** For each track, how many forced ends were written while its stack was empty. */
    ghost var forcedOnEmpty: map<nat, nat>

    function Stack(t: nat): seq<TrackSlice>
      reads this
    {
      StackIn(tracks, t)
    }

    ghost function Forced(t: nat): nat
      reads this
    {
      CountIn(forcedOnEmpty, t)
    }

    /**
     * Every record written is well formed, and on every track the begins
     * written, plus the forced ends written on an empty stack, equal the ends
     * written plus the slices still open.
     */
    ghost predicate Valid()
      reads this, synthetto
    {
      && synthetto.Valid()
      && (forall k :: 0 <= k < |output| ==> WellFormed(output[k]))
      && Balanced(output, tracks, forcedOnEmpty)
    }

    /** `Context::new` on an output that could be created. */
    constructor (convertTs: real -> nat)
      ensures Valid() && fresh(synthetto)
      ensures this.convertTs == convertTs
      ensures tracks == map[] && counters == map[] && output == []
      ensures synthetto.uuidCnt == 1
    {
      synthetto := new Synthetto();
      this.convertTs := convertTs;
      tracks := map[];
      counters := map[];
      output := [];
      forcedOnEmpty := map[];
    }

    /** `write_all` of the encode buffer: either every record is accepted, or none and an error. */
    method WriteAll(recs: seq<Record>) returns (r: Result<(), string>)
      modifies this`output
      ensures r.Ok? ==> output == old(output) + recs
      ensures r.Err? ==> output == old(output) && WRITE_FAILED <= r.error
    {
      var accepted: bool := *;
      if accepted {
        output := output + recs;
        r := Ok(());
      } else {
        var cause: string := *;
        r := Err(IoErrToStr(cause));
      }
    }

    /** `get_mut_track`: inserts an empty stack for a track seen for the first time. */
    method GetMutTrack(uuid: nat)
      modifies this`tracks
      ensures tracks == old(tracks)[uuid := old(Stack(uuid))]
    {
      if uuid !in tracks {
        tracks := tracks[uuid := []];
      }
    }

    /** `flush`: changes no modelled state; it may fail. */
    method Flush() returns (r: Result<(), string>)
      ensures r.Err? ==> FLUSH_FAILED <= r.error
    {
      var flushed: bool := *;
      if flushed {
        r := Ok(());
      } else {
        var cause: string := *;
        r := Err(FLUSH_FAILED + cause);
      }
    }

    /** `new_flow`: an identifier from the allocator; nothing is written. */
    method NewFlow() returns (uuid: nat)
      requires Valid()
      modifies synthetto
      ensures Valid()
      ensures uuid == old(synthetto.uuidCnt) && synthetto.uuidCnt == uuid + 1 && uuid != 0
    {
      uuid := synthetto.NewFlow();
    }

    /** Writes the one descriptor record an allocation produced; shared by the four `new_*` methods. */
    method WriteDescriptor(uuid: nat, buf: seq<Record>, ghost p: TracePacket) returns (r: Result<nat, string>)
      requires synthetto.Valid() && IsDescriptorPacket(p) && buf == [Record(PACKET_TAG, p)]
      requires (forall k :: 0 <= k < |output| ==> WellFormed(output[k]))
      requires Balanced(output, tracks, forcedOnEmpty)
      modifies this`output
      ensures Valid()
      ensures r.Ok? ==> r == Ok(uuid) && output == old(output) + buf
      ensures r.Err? ==> output == old(output) && WRITE_FAILED <= r.error
    {
      var w := WriteAll(buf);
      if w.Err? {
        return Err(w.error);
      }
      OtherKeeps(old(output), tracks, forcedOnEmpty, buf[0]);
      r := Ok(uuid);
    }

    /** `new_track`: allocates an identifier, then writes its descriptor. The identifier is used up even if the write fails. */
    method NewTrack(
      name: string, parentUuid: Option<nat>, description: Option<string>,
      childOrdering: Option<ChildOrder>, siblingOrderRank: Option<int>)
      returns (r: Result<nat, string>)
      requires Valid()
      modifies this, synthetto
      ensures Valid()
      ensures synthetto.uuidCnt == old(synthetto.uuidCnt) + 1
      ensures tracks == old(tracks) && counters == old(counters)
      ensures r.Ok? ==> && r.value == old(synthetto.uuidCnt)
                        && output == old(output) + [Record(PACKET_TAG, TrackPacket(r.value, name, parentUuid, description, childOrdering, siblingOrderRank))]
      ensures r.Err? ==> output == old(output) && WRITE_FAILED <= r.error
    {
      var uuid, buf := synthetto.NewTrack(name, parentUuid, description, childOrdering, siblingOrderRank, []);
      r := WriteDescriptor(uuid, buf, TrackPacket(uuid, name, parentUuid, description, childOrdering, siblingOrderRank));
    }

    /** `new_process`: allocates an identifier, then writes its process descriptor. */
    method NewProcess(
      pid: int, processName: Option<string>, cmdline: seq<string>, priority: Option<int>,
      description: Option<string>, childOrdering: Option<ChildOrder>, siblingOrderRank: Option<int>)
      returns (r: Result<nat, string>)
      requires Valid()
      modifies this, synthetto
      ensures Valid()
      ensures synthetto.uuidCnt == old(synthetto.uuidCnt) + 1
      ensures tracks == old(tracks) && counters == old(counters)
      ensures r.Ok? ==> && r.value == old(synthetto.uuidCnt)
                        && output == old(output) + [Record(PACKET_TAG, ProcessPacket(r.value, pid, processName, cmdline, priority, description, childOrdering, siblingOrderRank))]
      ensures r.Err? ==> output == old(output) && WRITE_FAILED <= r.error
    {
      var uuid, buf := synthetto.NewProcess(pid, processName, cmdline, priority, description, childOrdering, siblingOrderRank, []);
      r := WriteDescriptor(uuid, buf, ProcessPacket(uuid, pid, processName, cmdline, priority, description, childOrdering, siblingOrderRank));
    }

    /** `new_thread`: allocates an identifier, then writes its thread descriptor. */
    method NewThread(
      pid: int, tid: int, threadName: string,
      description: Option<string>, childOrdering: Option<ChildOrder>, siblingOrderRank: Option<int>)
      returns (r: Result<nat, string>)
      requires Valid()
      modifies this, synthetto
      ensures Valid()
      ensures synthetto.uuidCnt == old(synthetto.uuidCnt) + 1
      ensures tracks == old(tracks) && counters == old(counters)
      ensures r.Ok? ==> && r.value == old(synthetto.uuidCnt)
                        && output == old(output) + [Record(PACKET_TAG, ThreadPacket(r.value, pid, tid, threadName, description, childOrdering, siblingOrderRank))]
      ensures r.Err? ==> output == old(output) && WRITE_FAILED <= r.error
    {
      var uuid, buf := synthetto.NewThread(pid, tid, threadName, description, childOrdering, siblingOrderRank, []);
      r := WriteDescriptor(uuid, buf, ThreadPacket(uuid, pid, tid, threadName, description, childOrdering, siblingOrderRank));
    }

    /** `new_counter`: reads the unit name, allocates an identifier, then writes its counter descriptor. */
    method NewCounter(
      name: string, unitName: Option<string>, isIncremental: bool, parentUuid: Option<nat>,
      description: Option<string>, childOrdering: Option<ChildOrder>, siblingOrderRank: Option<int>)
      returns (r: Result<nat, string>)
      requires Valid()
      modifies this, synthetto
      ensures Valid()
      ensures synthetto.uuidCnt == old(synthetto.uuidCnt) + 1
      ensures tracks == old(tracks) && counters == old(counters)
      ensures r.Ok? ==> && r.value == old(synthetto.uuidCnt)
                        && output == old(output) + [Record(PACKET_TAG, CounterPacket(r.value, name, UnitFromString(unitName), isIncremental, parentUuid, description, childOrdering, siblingOrderRank))]
      ensures r.Err? ==> output == old(output) && WRITE_FAILED <= r.error
    {
      var unit := UnitFromString(unitName);
      var uuid, buf := synthetto.NewCounter(name, unit, isIncremental, parentUuid, description, childOrdering, siblingOrderRank, []);
      r := WriteDescriptor(uuid, buf, CounterPacket(uuid, name, unit, isIncremental, parentUuid, description, childOrdering, siblingOrderRank));
    }

    /**
     * `slice_end_evt`. With an empty stack and no `force` nothing is written.
     * Otherwise one end record is written and, once it is accepted, the top
     * slice (if any) is popped; every other slice and track is untouched.
     */
    method SliceEndEvt(
      trackUuid: nat, ts: real, flows: seq<nat>, flowsEnd: seq<nat>, force: bool, correlationId: Option<nat>)
      returns (r: Result<(), string>)
      requires Valid()
      modifies this
      ensures Valid()
      ensures counters == old(counters)
      ensures var st := old(Stack(trackUuid));
              var endRec := Record(PACKET_TAG, SliceEndPacket(trackUuid, convertTs(ts), flows, flowsEnd, correlationId));
              if st == [] && !force then
                r == Ok(()) && output == old(output) && tracks == old(tracks)[trackUuid := []]
              else if r.Ok? then
                && output == old(output) + [endRec]
                && tracks == old(tracks)[trackUuid := if st == [] then [] else st[..|st| - 1]]
              else
                output == old(output) && tracks == old(tracks)[trackUuid := st] && WRITE_FAILED <= r.error
    {
      GetMutTrack(trackUuid);
      if tracks[trackUuid] == [] && !force {
        return Ok(());
      }
      r := PopSlice(trackUuid, convertTs(ts), flows, flowsEnd, correlationId);
    }

    /** Writes an end record and, once it is accepted, pops the top slice of its track if there is one. */
    method PopSlice(trackUuid: nat, t: nat, flows: seq<nat>, flowsEnd: seq<nat>, correlationId: Option<nat>)
      returns (r: Result<(), string>)
      requires Valid() && trackUuid in tracks
      modifies this`output, this`tracks, this`forcedOnEmpty
      ensures Valid()
      ensures var st := old(tracks[trackUuid]);
              if r.Ok? then
                && output == old(output) + [Record(PACKET_TAG, SliceEndPacket(trackUuid, t, flows, flowsEnd, correlationId))]
                && tracks == old(tracks)[trackUuid := if st == [] then [] else st[..|st| - 1]]
              else
                output == old(output) && tracks == old(tracks) && WRITE_FAILED <= r.error
    {
      var buf := Writers.SliceEndEvt(trackUuid, t, flows, flowsEnd, correlationId, []);
      ghost var before := output;
      var w := WriteAll(buf);
      if w.Err? {
        return Err(w.error);
      }
      ghost var rec := buf[0];
      assert output == before + [rec];
      EndPops(before, tracks, forcedOnEmpty, rec, trackUuid);
      var active := tracks[trackUuid];
      if active == [] {
        assert tracks == tracks[trackUuid := []];
        forcedOnEmpty := forcedOnEmpty[trackUuid := Forced(trackUuid) + 1];
      } else {
        tracks := tracks[trackUuid := active[..|active| - 1]];
      }
      r := Ok(());
    }

    /** Writes a begin record and, once it is accepted, pushes the slice on its track. */
    method PushSlice(
      trackUuid: nat, t: nat, name: Option<string>, flows: seq<nat>, flowsEnd: seq<nat>,
      correlationId: Option<nat>, newSlice: TrackSlice)
      returns (r: Result<(), string>)
      requires Valid()
      modifies this`output, this`tracks
      ensures Valid()
      ensures var beginRec := Record(PACKET_TAG, SliceBeginPacket(trackUuid, t, name, flows, flowsEnd, correlationId));
              if r.Ok? then
                output == old(output) + [beginRec] && tracks == old(tracks)[trackUuid := old(Stack(trackUuid)) + [newSlice]]
              else
                output == old(output) && tracks == old(tracks) && WRITE_FAILED <= r.error
    {
      var buf := Writers.SliceBeginEvt(trackUuid, t, name, flows, flowsEnd, correlationId, []);
      ghost var before := output;
      var w := WriteAll(buf);
      if w.Err? {
        return Err(w.error);
      }
      ghost var rec := buf[0];
      assert output == before + [rec];
      ghost var pushed := tracks[trackUuid := Stack(trackUuid) + [newSlice]];
      BeginPushes(before, tracks, forcedOnEmpty, rec, trackUuid, newSlice);
      GetMutTrack(trackUuid);
      tracks := tracks[trackUuid := tracks[trackUuid] + [newSlice]];
      assert tracks == pushed;
      r := Ok(());
    }

    /**
     * `slice_begin_evt`.
     * - `NewSlice`, or any behaviour on an empty stack: one begin record, then the slice is pushed.
     * - `ReplaceIfDifferent` when the top slice equals the new one: nothing at all happens.
     * - `Replace`, or `ReplaceIfDifferent` with a different top slice: a forced end with no
     *   flows and no correlation id pops the top, then the begin is written and pushed,
     *   so the depth of the stack is unchanged.
     * A failed write stops the sequence where it happened.
     */
    method SliceBeginEvt(
      trackUuid: nat, ts: real, name: Option<string>, flows: seq<nat>, flowsEnd: seq<nat>,
      replaceBehaviour: ReplacementBehaviour, correlationId: Option<nat>)
      returns (r: Result<(), string>)
      requires Valid()
      modifies this
      ensures Valid()
      ensures counters == old(counters)
      ensures r.Err? ==> WRITE_FAILED <= r.error
      ensures var st := old(Stack(trackUuid));
              replaceBehaviour.ReplaceIfDifferent? && st != [] && SliceEq(st[|st| - 1], NewTrackSlice(name, flows)) ==>
                r == Ok(()) && output == old(output) && tracks == old(tracks)
      ensures var st := old(Stack(trackUuid));
              var beginRec := Record(PACKET_TAG, SliceBeginPacket(trackUuid, convertTs(ts), name, flows, flowsEnd, correlationId));
              (replaceBehaviour.NewSlice? || st == []) && r.Ok? ==>
                output == old(output) + [beginRec] && tracks == old(tracks)[trackUuid := st + [NewTrackSlice(name, flows)]]
      ensures var st := old(Stack(trackUuid));
              (replaceBehaviour.NewSlice? || st == []) && r.Err? ==>
                && output == old(output)
                && tracks == (if replaceBehaviour.NewSlice? then old(tracks) else old(tracks)[trackUuid := st])
      ensures var st := old(Stack(trackUuid));
              var ns := NewTrackSlice(name, flows);
              var endRec := Record(PACKET_TAG, SliceEndPacket(trackUuid, convertTs(ts), [], [], None));
              var beginRec := Record(PACKET_TAG, SliceBeginPacket(trackUuid, convertTs(ts), name, flows, flowsEnd, correlationId));
              !replaceBehaviour.NewSlice? && st != [] && !(replaceBehaviour.ReplaceIfDifferent? && SliceEq(st[|st| - 1], ns)) ==>
                if r.Ok? then
                  output == old(output) + [endRec, beginRec] && tracks == old(tracks)[trackUuid := st[..|st| - 1] + [ns]]
                else
                  || (output == old(output) && tracks == old(tracks))
                  || (output == old(output) + [endRec] && tracks == old(tracks)[trackUuid := st[..|st| - 1]])
    {
      var newSlice := NewTrackSlice(name, flows);
      if replaceBehaviour.NewSlice? {
        r := PushSlice(trackUuid, convertTs(ts), name, flows, flowsEnd, correlationId, newSlice);
      } else {
        r := BeginReplacing(trackUuid, ts, name, flows, flowsEnd, replaceBehaviour.ReplaceIfDifferent?, correlationId, newSlice);
      }
    }

    /** The `Replace` and `ReplaceIfDifferent` arms of `slice_begin_evt`. */
    method BeginReplacing(
      trackUuid: nat, ts: real, name: Option<string>, flows: seq<nat>, flowsEnd: seq<nat>,
      ifDifferent: bool, correlationId: Option<nat>, newSlice: TrackSlice)
      returns (r: Result<(), string>)
      requires Valid()
      modifies this
      ensures Valid()
      ensures counters == old(counters)
      ensures r.Err? ==> WRITE_FAILED <= r.error
      ensures var st := old(Stack(trackUuid));
              ifDifferent && st != [] && SliceEq(st[|st| - 1], newSlice) ==>
                r == Ok(()) && output == old(output) && tracks == old(tracks)
      ensures var st := old(Stack(trackUuid));
              var beginRec := Record(PACKET_TAG, SliceBeginPacket(trackUuid, convertTs(ts), name, flows, flowsEnd, correlationId));
              st == [] ==>
                if r.Ok? then output == old(output) + [beginRec] && tracks == old(tracks)[trackUuid := st + [newSlice]]
                else output == old(output) && tracks == old(tracks)[trackUuid := st]
      ensures var st := old(Stack(trackUuid));
              var endRec := Record(PACKET_TAG, SliceEndPacket(trackUuid, convertTs(ts), [], [], None));
              var beginRec := Record(PACKET_TAG, SliceBeginPacket(trackUuid, convertTs(ts), name, flows, flowsEnd, correlationId));
              st != [] && !(ifDifferent && SliceEq(st[|st| - 1], newSlice)) ==>
                if r.Ok? then
                  output == old(output) + [endRec, beginRec] && tracks == old(tracks)[trackUuid := st[..|st| - 1] + [newSlice]]
                else
                  || (output == old(output) && tracks == old(tracks))
                  || (output == old(output) + [endRec] && tracks == old(tracks)[trackUuid := st[..|st| - 1]])
    {
      GetMutTrack(trackUuid);
      var active := tracks[trackUuid];
      if active == [] {
        assert tracks == old(tracks)[trackUuid := []];
        r := PushSlice(trackUuid, convertTs(ts), name, flows, flowsEnd, correlationId, newSlice);
        assert r.Ok? ==> tracks == old(tracks)[trackUuid := [] + [newSlice]];
        return;
      }
      assert tracks == old(tracks) && active == old(Stack(trackUuid));
      r := ReplaceTop(trackUuid, ts, name, flows, flowsEnd, ifDifferent, correlationId, newSlice);
    }

    /**
     * On a non-empty stack: unless `ifDifferent` is set and the top slice equals
     * `newSlice`, ends the top slice with a forced end, then begins and pushes `newSlice`.
     */
    method ReplaceTop(
      trackUuid: nat, ts: real, name: Option<string>, flows: seq<nat>, flowsEnd: seq<nat>,
      ifDifferent: bool, correlationId: Option<nat>, newSlice: TrackSlice)
      returns (r: Result<(), string>)
      requires Valid() && trackUuid in tracks && tracks[trackUuid] != []
      modifies this
      ensures Valid()
      ensures counters == old(counters)
      ensures r.Err? ==> WRITE_FAILED <= r.error
      ensures var st := old(tracks[trackUuid]);
              ifDifferent && SliceEq(st[|st| - 1], newSlice) ==>
                r == Ok(()) && output == old(output) && tracks == old(tracks)
      ensures var st := old(tracks[trackUuid]);
              var endRec := Record(PACKET_TAG, SliceEndPacket(trackUuid, convertTs(ts), [], [], None));
              var beginRec := Record(PACKET_TAG, SliceBeginPacket(trackUuid, convertTs(ts), name, flows, flowsEnd, correlationId));
              !(ifDifferent && SliceEq(st[|st| - 1], newSlice)) ==>
              if r.Ok? then
                output == old(output) + [endRec, beginRec] && tracks == old(tracks)[trackUuid := st[..|st| - 1] + [newSlice]]
              else
                || (output == old(output) && tracks == old(tracks))
                || (output == old(output) + [endRec] && tracks == old(tracks)[trackUuid := st[..|st| - 1]])
    {
      var st := tracks[trackUuid];
      if ifDifferent && SliceEq(st[|st| - 1], newSlice) {
        return Ok(());
      }
      r := EndThenBegin(trackUuid, ts, name, flows, flowsEnd, correlationId, newSlice);
    }

    /** A forced end with no flows and no correlation id on a non-empty stack, then the begin of `newSlice`. */
    method EndThenBegin(
      trackUuid: nat, ts: real, name: Option<string>, flows: seq<nat>, flowsEnd: seq<nat>,
      correlationId: Option<nat>, newSlice: TrackSlice)
      returns (r: Result<(), string>)
      requires Valid() && trackUuid in tracks && tracks[trackUuid] != []
      modifies this
      ensures Valid()
      ensures counters == old(counters)
      ensures r.Err? ==> WRITE_FAILED <= r.error
      ensures var st := old(tracks[trackUuid]);
              var endRec := Record(PACKET_TAG, SliceEndPacket(trackUuid, convertTs(ts), [], [], None));
              var beginRec := Record(PACKET_TAG, SliceBeginPacket(trackUuid, convertTs(ts), name, flows, flowsEnd, correlationId));
              if r.Ok? then
                output == old(output) + [endRec, beginRec] && tracks == old(tracks)[trackUuid := st[..|st| - 1] + [newSlice]]
              else
                || (output == old(output) && tracks == old(tracks))
                || (output == old(output) + [endRec] && tracks == old(tracks)[trackUuid := st[..|st| - 1]])
    {
      ghost var st := tracks[trackUuid];
      var e := SliceEndEvt(trackUuid, ts, [], [], true, None);
      if e.Err? {
        return Err(e.error);
      }
      ghost var afterEnd := output;
      assert Stack(trackUuid) == st[..|st| - 1];
      r := PushSlice(trackUuid, convertTs(ts), name, flows, flowsEnd, correlationId, newSlice);
      if r.Ok? {
        assert output == afterEnd + [output[|output| - 1]];
      }
    }

    /** `instant_evt`: always one instant record; no stack or counter is touched. */
    method InstantEvt(
      trackUuid: nat, ts: real, name: Option<string>, flows: seq<nat>, flowsEnd: seq<nat>,
      correlationId: Option<nat>)
      returns (r: Result<(), string>)
      requires Valid()
      modifies this`output
      ensures Valid()
      ensures r.Ok? ==> output == old(output) + [Record(PACKET_TAG, InstantPacket(trackUuid, convertTs(ts), name, flows, flowsEnd, correlationId))]
      ensures r.Err? ==> output == old(output) && WRITE_FAILED <= r.error
    {
      var buf := Writers.InstantEvt(trackUuid, convertTs(ts), name, flows, flowsEnd, correlationId, []);
      ghost var before := output;
      var w := WriteAll(buf);
      if w.Err? {
        return Err(w.error);
      }
      ghost var rec := buf[0];
      assert output == before + [rec];
      OtherKeeps(before, tracks, forcedOnEmpty, rec);
      r := Ok(());
    }

    /** Writes one counter record, integer or floating point as the value is. */
    method WriteCounter(trackUuid: nat, ts: nat, value: CounterValue) returns (r: Result<(), string>)
      requires Valid()
      modifies this`output
      ensures Valid()
      ensures r.Ok? ==> output == old(output) + [Record(PACKET_TAG, CounterValuePacket(trackUuid, ts, value))]
      ensures r.Err? ==> output == old(output) && WRITE_FAILED <= r.error
    {
      var buf := match value
        case Int(v) => Writers.IntCounterEvt(trackUuid, ts, v, [])
        case Float(b) => Writers.FloatCounterEvt(trackUuid, ts, b, []);
      ghost var before := output;
      var w := WriteAll(buf);
      if w.Err? {
        return Err(w.error);
      }
      ghost var rec := buf[0];
      assert output == before + [rec];
      OtherKeeps(before, tracks, forcedOnEmpty, rec);
      r := Ok(());
    }

    /**
     * `counter_evt`. Nothing is written exactly when `compress` is set and the
     * stored value equals the new one. Otherwise one counter record is written
     * and, once accepted, the value is stored if and only if `compress` is set.
     */
    method CounterEvt(trackUuid: nat, ts: nat, value: CounterValue, compress: bool)
      returns (r: Result<(), string>)
      requires Valid()
      modifies this`output, this`counters
      ensures Valid()
      ensures var suppressed := compress && trackUuid in old(counters) && CounterValueEq(old(counters)[trackUuid], value);
              if suppressed then
                r == Ok(()) && output == old(output) && counters == old(counters)
              else if r.Ok? then
                && output == old(output) + [Record(PACKET_TAG, CounterValuePacket(trackUuid, ts, value))]
                && counters == (if compress then old(counters)[trackUuid := value] else old(counters))
              else
                output == old(output) && counters == old(counters) && WRITE_FAILED <= r.error
    {
      if compress && trackUuid in counters && CounterValueEq(counters[trackUuid], value) {
        return Ok(());
      }
      r := WriteCounter(trackUuid, ts, value);
      if r.Err? {
        return;
      }
      if compress {
        counters := counters[trackUuid := value];
      }
      r := Ok(());
    }
  }

  /** Without forced ends on an empty stack, a track never has more ends than begins. */
  lemma EndsNeverExceedBegins(ctx: Context, t: nat)
    requires ctx.Valid() && ctx.Forced(t) == 0
    ensures Ends(ctx.output, t) <= Begins(ctx.output, t)
    ensures Begins(ctx.output, t) - Ends(ctx.output, t) == |ctx.Stack(t)|
  {
  }
}
