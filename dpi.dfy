/**
 * The argument conventions of the simulator-facing C interface: zero stands
 * for "absent" in identifiers and integers, a null or empty C string for an
 * absent string, small integers select enumerations, and every call reports
 * its outcome as an integer return code.
 */
module Dpi {
  import opened Wrappers
  import Format
  import opened Synthetto
  import opened Cspect

  // ---- Identifiers, integers, flags ---------------------------------------

  /** `recover_optional_uuid`: zero is "no identifier". */
  function RecoverOptionalUuid(val: nat): (r: Option<nat>)
    ensures r.None? <==> val == 0
    ensures r.Some? ==> r.value == val
  {
    if val == 0 then None else Some(val)
  }

  /** The caller's side of the convention: how an optional identifier is passed. */
  function EncodeOptionalUuid(id: Option<nat>): nat
  {
    match id
    case None => 0
    case Some(v) => v
  }

  /** Every optional identifier whose value is not zero survives the trip through the C interface. */
  lemma OptionalUuidRoundTrip(id: Option<nat>)
    requires id.Some? ==> id.value != 0
    ensures RecoverOptionalUuid(EncodeOptionalUuid(id)) == id
  {
  }

  /** `recover_required_uuid`: fails exactly on zero. */
  function RecoverRequiredUuid(val: nat): (r: Result<nat, string>)
    ensures r.Ok? <==> val != 0
    ensures r.Ok? ==> r.value == val
    ensures r.Err? ==> r.error == "Required UUID is zero"
  {
    match RecoverOptionalUuid(val)
    case Some(v) => Ok(v)
    case None => Err("Required UUID is zero")
  }

  /** `recover_optional_i32`: zero is "not given". */
  function RecoverOptionalI32(val: int): (r: Option<int>)
    ensures r.None? <==> val == 0
    ensures r.Some? ==> r.value == val
  {
    if val == 0 then None else Some(val)
  }

  /** `recover_bool`: any non-zero bit value is true. */
  function RecoverBool(val: nat): (b: bool)
    ensures b <==> val != 0
  {
    val != 0
  }

  /** A sibling rank of zero cannot be passed: it reads as "no rank". */
  lemma ZeroRankIsAbsent(rank: int)
    ensures RecoverOptionalI32(rank) == Some(rank) <==> rank != 0
  {
  }

  // ---- Enumerations --------------------------------------------------------

  /** `recover_child_ordering`: 0 is none, 1 to 3 select an ordering, anything else is an error. */
  function RecoverChildOrdering(code: int): (r: Result<Option<ChildOrder>, string>)
    ensures r.Ok? <==> 0 <= code <= 3
    ensures r.Ok? ==> (r.value.None? <==> code == 0)
  {
    match code
    case 0 => Ok(None)
    case 1 => Ok(Some(Lexicographic))
    case 2 => Ok(Some(Chronological))
    case 3 => Ok(Some(Explicit))
    case _ => Err("invalid child ordering " + Format.Signed(code))
  }

  /** `recover_replacement_behaviour`: 0, 1 and 2 select a behaviour, anything else is an error. */
  function RecoverReplacementBehaviour(code: int): (r: Result<ReplacementBehaviour, string>)
    ensures r.Ok? <==> 0 <= code <= 2
  {
    match code
    case 0 => Ok(NewSlice)
    case 1 => Ok(Replace)
    case 2 => Ok(ReplaceIfDifferent)
    case _ => Err("invalid replacement behaviour " + Format.Signed(code))
  }

  /** The interface's child-ordering codes are the trace format's own enumeration values. */
  lemma ChildOrderingCodeIsProtoValue(code: int)
    ensures RecoverChildOrdering(code).Ok? && RecoverChildOrdering(code).value.Some? ==>
              ChildOrderToProto(RecoverChildOrdering(code).value.value) == code
  {
  }

  /** Every ordering, and its absence, can be selected through the interface. */
  lemma ChildOrderingRoundTrip(o: Option<ChildOrder>)
    ensures RecoverChildOrdering(match o case None => 0 case Some(c) => ChildOrderToProto(c)) == Ok(o)
  {
  }

  /** Every replacement behaviour has exactly one code. */
  lemma ReplacementBehaviourCodes(b: ReplacementBehaviour)
    ensures exists code :: 0 <= code <= 2 && RecoverReplacementBehaviour(code) == Ok(b)
    ensures forall code :: RecoverReplacementBehaviour(code) == Ok(b) ==> code == BehaviourCode(b)
  {
    assert RecoverReplacementBehaviour(BehaviourCode(b)) == Ok(b);
  }

  function BehaviourCode(b: ReplacementBehaviour): int
  {
    match b
    case NewSlice => 0
    case Replace => 1
    case ReplaceIfDifferent => 2
  }

  // ---- Strings ------------------------------------------------------------

  /** `recover_optional_cstr`, with a null pointer as `None`: null and empty strings are both absent. */
  function RecoverOptionalCstr(s: Option<string>): (r: Option<string>)
    ensures r.Some? <==> s.Some? && s.value != ""
    ensures r.Some? ==> r.value == s.value
  {
    match s
    case None => None
    case Some(str) => if str == [] then None else Some(str)
  }

  /** `recover_cstr`, with a null pointer as `None`. */
  function RecoverCstr(s: Option<string>): (r: Result<string, string>)
    ensures r.Ok? <==> s.Some?
    ensures r.Ok? ==> r.value == s.value
  {
    match s
    case None => Err("trace_path string is nullptr!")
    case Some(str) => Ok(str)
  }

  /** The process command line: one part when a non-empty string is given, none otherwise. */
  function CmdlineOf(s: Option<string>): (parts: seq<string>)
    ensures |parts| <= 1
    ensures parts == [] <==> RecoverOptionalCstr(s).None?
  {
    match RecoverOptionalCstr(s)
    case None => []
    case Some(str) => [str]
  }

  // ---- Flow lists ---------------------------------------------------------

  /** The non-zero entries of `s`, in order. */
  function NonZero(s: seq<nat>): seq<nat>
  {
    if s == [] then []
    else (if s[0] == 0 then [] else [s[0]]) + NonZero(s[1..])
  }

  /** Keeping the non-zero ids drops only zeros: the result has no zeros, every non-zero id is kept, and nothing grows. */
  lemma NonZeroFacts(s: seq<nat>)
    ensures |NonZero(s)| <= |s|
    ensures forall k :: 0 <= k < |NonZero(s)| ==> NonZero(s)[k] != 0
    ensures forall x :: x != 0 ==> multiset(NonZero(s))[x] == multiset(s)[x]
    ensures (forall k :: 0 <= k < |s| ==> s[k] != 0) ==> NonZero(s) == s
  {
    NonZeroShrinks(s);
    NonZeroCounts(s);
    NonZeroKeepsAll(s);
  }

  /** Filtering never lengthens the list and leaves no zero in it. */
  lemma {:induction false} NonZeroShrinks(s: seq<nat>)
    ensures |NonZero(s)| <= |s|
    ensures forall k :: 0 <= k < |NonZero(s)| ==> NonZero(s)[k] != 0
  {
    if s != [] {
      NonZeroShrinks(s[1..]);
    }
  }

  /** Every non-zero id occurs as often after filtering as before. */
  lemma {:induction false} NonZeroCounts(s: seq<nat>)
    ensures forall x :: x != 0 ==> multiset(NonZero(s))[x] == multiset(s)[x]
  {
    if s != [] {
      var tail := s[1..];
      NonZeroCounts(tail);
      assert s == [s[0]] + tail;
      assert multiset(s) == multiset{s[0]} + multiset(tail);
      if s[0] != 0 {
        assert multiset(NonZero(s)) == multiset{s[0]} + multiset(NonZero(tail));
      }
    }
  }

  /** A list without zeros is left as it is. */
  lemma {:induction false} NonZeroKeepsAll(s: seq<nat>)
    ensures (forall k :: 0 <= k < |s| ==> s[k] != 0) ==> NonZero(s) == s
  {
    if s != [] && forall k :: 0 <= k < |s| ==> s[k] != 0 {
      var tail := s[1..];
      assert forall k :: 0 <= k < |tail| ==> tail[k] == s[k + 1];
      NonZeroKeepsAll(tail);
      assert s == [s[0]] + tail;
    }
  }

  /** `NonZero` on the three flow slots, one slot at a time. */
  lemma NonZeroThree(a: nat, b: nat, c: nat)
    ensures NonZero([a, b, c]) == (if a == 0 then [] else [a]) + (if b == 0 then [] else [b]) + (if c == 0 then [] else [c])
  {
    assert [a, b, c][1..] == [b, c];
    assert [b, c][1..] == [c];
    assert [c][1..] == [];
    assert NonZero([c]) == (if c == 0 then [] else [c]) + NonZero([]);
    assert NonZero([b, c]) == (if b == 0 then [] else [b]) + NonZero([c]);
    assert NonZero([a, b, c]) == (if a == 0 then [] else [a]) + NonZero([b, c]);
  }

  /** The flow-list assembly of the `*_actual` wrappers: each non-zero slot is pushed, in slot order. */
  method CollectFlows(flow1: nat, flow2: nat, flow3: nat) returns (flows: seq<nat>)
    ensures flows == NonZero([flow1, flow2, flow3])
    ensures |flows| <= 3 && forall k :: 0 <= k < |flows| ==> flows[k] != 0
  {
    flows := [];
    var slot := RecoverOptionalUuid(flow1);
    if slot.Some? {
      flows := flows + [slot.value];
    }
    slot := RecoverOptionalUuid(flow2);
    if slot.Some? {
      flows := flows + [slot.value];
    }
    slot := RecoverOptionalUuid(flow3);
    if slot.Some? {
      flows := flows + [slot.value];
    }
    NonZeroThree(flow1, flow2, flow3);
    NonZeroFacts([flow1, flow2, flow3]);
  }

  /** Three slots holding only one id, in the middle, give a one-element list. */
  method CollectFlowsExample() returns (flows: seq<nat>)
    ensures flows == [7]
  {
    flows := CollectFlows(0, 7, 0);
    NonZeroThree(0, 7, 0);
  }

  // ---- Return codes -------------------------------------------------------

  /** The error-returning wrapper body: 0 on success, 1 on an error or a null context handle. */
  function ErrRetCode(handleIsNull: bool, r: Result<(), string>): (code: int)
    ensures code == 0 || code == 1
    ensures code == 0 <==> !handleIsNull && r.Ok?
  {
    if handleIsNull then 1
    else match r
      case Ok(_) => 0
      case Err(_) => 1
  }

  /** The identifier-returning wrapper body as written: the id, 0 on an error, and 1 on a null context handle. */
  function UuidRetCodeAsWritten(handleIsNull: bool, r: Result<nat, string>): (code: nat)
    ensures handleIsNull ==> code == 1
    ensures !handleIsNull ==> code == (if r.Ok? then r.value else 0)
  {
    if handleIsNull then 1
    else match r
      case Ok(v) => v
      case Err(_) => 0
  }

  /**
   * A null handle passed to an identifier-returning wrapper produces the same
   * code as the very first identifier a healthy context hands out.
   */
  method NullHandleLooksLikeFirstId() returns (failed: nat, first: nat)
    ensures failed == first
  {
    var s := new Synthetto();
    var id := s.NextUuid();
    first := UuidRetCodeAsWritten(false, Ok(id));
    failed := UuidRetCodeAsWritten(true, Err("cspect_ctx is nullptr!"));
  }

  /** The identifier-returning wrapper body with a null handle reported as 0, like every other failure. */
  function UuidRetCode(handleIsNull: bool, r: Result<nat, string>): (code: nat)
    ensures handleIsNull ==> code == 0
    ensures !handleIsNull ==> code == (if r.Ok? then r.value else 0)
  {
    if handleIsNull then 0
    else match r
      case Ok(v) => v
      case Err(_) => 0
  }

  /** Since allocated identifiers are never 0, the corrected code is 0 exactly when the call failed. */
  lemma UuidRetCodeSignalsFailure(handleIsNull: bool, r: Result<nat, string>)
    requires r.Ok? ==> r.value != 0
    ensures UuidRetCode(handleIsNull, r) == 0 <==> handleIsNull || r.Err?
    ensures UuidRetCode(handleIsNull, r) != 0 ==> RecoverRequiredUuid(UuidRetCode(handleIsNull, r)) == Ok(r.value)
  {
  }
}
