/**
 * The annotation pass over trace packets: the resolver registry, the
 * substitution of placeholders inside one string, and the visit of the
 * string fields of a packet that may carry placeholders.
 */
module Annotate {
  import opened Wrappers
  import opened Lexer
  import Addr2Line
  import Disasm
  import Trace = Synthetto

  // ---- Resolvers and their registry ---------------------------------------

  /**
   * The resolvers the tool knows: the debug-information one, the
   * disassembler, and any other resolver given by its keys and its answer
   * for a placeholder.
   */
  datatype Annotator =
    | A2L(a2l: Addr2Line.Addr2LineAnnotator)
    | Disassembly(disasm: Disasm.DisasmAnnotater)
    | Custom(keys: seq<string>, resolve: Placeholder -> Result<Option<string>, string>)

  /** `accepts_keys`. */
  function AcceptsKeys(an: Annotator): seq<string>
  {
    match an
    case A2L(_) => Addr2Line.KEYS
    case Disassembly(_) => Disasm.KEYS
    case Custom(keys, _) => keys
  }

  /** `annotate` of a resolver, for a placeholder whose kind it accepts. */
  function Resolve(an: Annotator, p: Placeholder): Result<Option<string>, string>
    requires p.kind in AcceptsKeys(an)
  {
    match an
    case A2L(a) => Addr2Line.AnnotateSpec(a, p)
    case Disassembly(d) => Disasm.Annotate(d, p)
    case Custom(_, f) => f(p)
  }

  /** Calls the resolver; the `a2l` one walks its frames. */
  method ResolveNow(an: Annotator, p: Placeholder) returns (r: Result<Option<string>, string>)
    requires p.kind in AcceptsKeys(an)
    ensures r == Resolve(an, p)
  {
    match an {
      case A2L(a) =>
        r := Addr2Line.Annotate(a, p);
      case Disassembly(d) =>
        r := Disasm.Annotate(d, p);
      case Custom(_, f) =>
        r := f(p);
    }
  }

  /** Placeholder kind to resolver. */
  type Registry = map<string, Annotator>

  /** Every key leads to a resolver that accepts it. */
  predicate WellKeyed(reg: Registry)
  {
    forall k :: k in reg ==> k in AcceptsKeys(reg[k])
  }

  /** Enters `an` under each of `keys`, in order. */
  function Register(reg: Registry, keys: seq<string>, an: Annotator): Registry
  {
    if keys == [] then reg
    else Register(reg, keys[..|keys| - 1], an)[keys[|keys| - 1] := an]
  }

  /** The registry built from a list of resolvers, each entered under all of its keys. */
  function RegistryOf(list: seq<Annotator>): Registry
  {
    if list == [] then map[]
    else
      var an := list[|list| - 1];
      Register(RegistryOf(list[..|list| - 1]), AcceptsKeys(an), an)
  }

  /** The registry-building loop at the start of `annotate`. */
  method BuildRegistry(list: seq<Annotator>) returns (reg: Registry)
    ensures reg == RegistryOf(list)
  {
    reg := map[];
    for i := 0 to |list|
      invariant reg == RegistryOf(list[..i])
    {
      var an := list[i];
      var keys := AcceptsKeys(an);
      ghost var before := reg;
      for j := 0 to |keys|
        invariant reg == Register(before, keys[..j], an)
      {
        assert keys[..j + 1][..j] == keys[..j];
        reg := reg[keys[j] := an];
      }
      assert keys[..|keys|] == keys;
      assert list[..i + 1][..i] == list[..i];
    }
    assert list[..|list|] == list;
  }

  lemma {:induction false} RegisterFacts(reg: Registry, keys: seq<string>, an: Annotator, k: string)
    ensures k in Register(reg, keys, an) <==> k in reg || k in keys
    ensures k in keys ==> Register(reg, keys, an)[k] == an
    ensures k !in keys && k in reg ==> Register(reg, keys, an)[k] == reg[k]
    decreases |keys|
  {
    if keys != [] {
      var init := keys[..|keys| - 1];
      RegisterFacts(reg, init, an, k);
      assert keys == init + [keys[|keys| - 1]];
    }
  }

  /**
   * A key is registered exactly when some resolver accepts it, and then it
   * leads to the last resolver in the list that accepts it.
   */
  lemma RegistryOfFacts(list: seq<Annotator>, k: string)
    ensures k in RegistryOf(list) <==> exists i :: 0 <= i < |list| && k in AcceptsKeys(list[i])
    ensures k in RegistryOf(list) ==>
              exists i :: 0 <= i < |list| && RegistryOf(list)[k] == list[i] && k in AcceptsKeys(list[i])
                       && forall j :: i < j < |list| ==> k !in AcceptsKeys(list[j])
  {
    RegisteredKeys(list, k);
    RegisteredLast(list, k);
  }

  /** A key is registered exactly when some resolver in the list accepts it. */
  lemma {:induction false} RegisteredKeys(list: seq<Annotator>, k: string)
    ensures k in RegistryOf(list) <==> exists i :: 0 <= i < |list| && k in AcceptsKeys(list[i])
    decreases |list|
  {
    if list != [] {
      var n := |list| - 1;
      var init := list[..n];
      var an := list[n];
      RegisteredKeys(init, k);
      RegisterFacts(RegistryOf(init), AcceptsKeys(an), an, k);
      if k in AcceptsKeys(an) {
        assert k in AcceptsKeys(list[n]);
      } else {
        if exists i :: 0 <= i < |list| && k in AcceptsKeys(list[i]) {
          var i :| 0 <= i < |list| && k in AcceptsKeys(list[i]);
          assert i < n && init[i] == list[i];
        }
        if exists i :: 0 <= i < |init| && k in AcceptsKeys(init[i]) {
          var i :| 0 <= i < |init| && k in AcceptsKeys(init[i]);
          assert list[i] == init[i];
        }
      }
    }
  }

  /** A registered key leads to the last resolver in the list that accepts it. */
  lemma {:induction false} RegisteredLast(list: seq<Annotator>, k: string)
    ensures k in RegistryOf(list) ==>
              exists i :: 0 <= i < |list| && RegistryOf(list)[k] == list[i] && k in AcceptsKeys(list[i])
                       && forall j :: i < j < |list| ==> k !in AcceptsKeys(list[j])
    decreases |list|
  {
    if list != [] && k in RegistryOf(list) {
      var n := |list| - 1;
      var init := list[..n];
      var an := list[n];
      RegisterFacts(RegistryOf(init), AcceptsKeys(an), an, k);
      if k in AcceptsKeys(an) {
        assert RegistryOf(list)[k] == list[n];
      } else {
        RegisteredLast(init, k);
        var i :| 0 <= i < |init| && RegistryOf(init)[k] == init[i] && k in AcceptsKeys(init[i])
                 && forall j :: i < j < |init| ==> k !in AcceptsKeys(init[j]);
        assert list[i] == init[i];
        forall j | i < j < |list|
          ensures k !in AcceptsKeys(list[j])
        {
          if j < n {
            assert list[j] == init[j];
          }
        }
      }
    }
  }

  /** A built registry sends every key to a resolver that accepts it. */
  lemma RegistryOfWellKeyed(list: seq<Annotator>)
    ensures WellKeyed(RegistryOf(list))
  {
    forall k | k in RegistryOf(list)
      ensures k in AcceptsKeys(RegistryOf(list)[k])
    {
      RegistryOfFacts(list, k);
    }
  }

  // ---- One string ---------------------------------------------------------

  /** What one parsed element becomes, and whether a resolver supplied it. */
  function SubstElement(reg: Registry, e: ParsedElement): Result<(string, bool), string>
    requires WellKeyed(reg)
  {
    match e
    case Text(t) => Ok((t, false))
    case Hole(p) =>
      if p.kind in reg then
        match Resolve(reg[p.kind], p)
        case Err(msg) => Err(msg)
        case Ok(Some(replacement)) => Ok((replacement, true))
        case Ok(None) => Ok((p.value, false))
      else Ok(("$" + p.kind + ":" + p.value, false))
  }

  /** The elements substituted in order; the first resolver error ends the pass. */
  function SubstituteAll(reg: Registry, parts: seq<ParsedElement>): Result<(seq<string>, bool), string>
    requires WellKeyed(reg)
  {
    if parts == [] then Ok(([], false))
    else
      match SubstituteAll(reg, parts[..|parts| - 1])
      case Err(msg) => Err(msg)
      case Ok((out, dirty)) =>
        match SubstElement(reg, parts[|parts| - 1])
        case Err(msg) => Err(msg)
        case Ok((t, d)) => Ok((out + [t], dirty || d))
  }

  /** `join("")`. */
  function Concat(parts: seq<string>): string
  {
    if parts == [] then [] else Concat(parts[..|parts| - 1]) + parts[|parts| - 1]
  }

  /** What `annotate_string` makes of `s`: the new string and whether a resolver answered. */
  function AnnotateStringSpec(reg: Registry, s: string): Result<(string, bool), string>
    requires WellKeyed(reg)
  {
    match SubstituteAll(reg, Lex(s))
    case Err(msg) => Err(msg)
    case Ok((out, dirty)) => Ok((if dirty then Concat(out) else s, dirty))
  }

  /** An error part-way through is the error of the whole pass. */
  lemma {:induction false} SubstituteErrPersists(reg: Registry, parts: seq<ParsedElement>, i: nat)
    requires WellKeyed(reg)
    requires i <= |parts|
    requires SubstituteAll(reg, parts[..i]).Err?
    ensures SubstituteAll(reg, parts) == SubstituteAll(reg, parts[..i])
    decreases |parts| - i
  {
    if i < |parts| {
      assert parts[..i + 1][..i] == parts[..i];
      SubstituteErrPersists(reg, parts, i + 1);
    } else {
      assert parts[..i] == parts;
    }
  }

  /** One more element substituted: its output is appended, and its flag joins the others. */
  lemma SubstStepOk(reg: Registry, parts: seq<ParsedElement>, i: nat, out: seq<string>, dirty: bool, t: string, d: bool)
    requires WellKeyed(reg)
    requires i < |parts|
    requires SubstituteAll(reg, parts[..i]) == Ok((out, dirty))
    requires SubstElement(reg, parts[i]) == Ok((t, d))
    ensures SubstituteAll(reg, parts[..i + 1]) == Ok((out + [t], dirty || d))
  {
    assert parts[..i + 1][..i] == parts[..i];
  }

  /** An element whose resolver fails makes the substitution fail there. */
  lemma SubstStepErr(reg: Registry, parts: seq<ParsedElement>, i: nat)
    requires WellKeyed(reg)
    requires i < |parts|
    requires SubstituteAll(reg, parts[..i]).Ok? && SubstElement(reg, parts[i]).Err?
    ensures SubstituteAll(reg, parts[..i + 1]) == Err(SubstElement(reg, parts[i]).error)
  {
    assert parts[..i + 1][..i] == parts[..i];
  }

  /** `annotate_string`: returns whether a resolver answered, and the string as it is afterwards. */
  method AnnotateString(reg: Registry, s: string) returns (r: Result<bool, string>, s': string)
    requires WellKeyed(reg)
    ensures r.Err? ==> AnnotateStringSpec(reg, s) == Err(r.error) && s' == s
    ensures r.Ok? ==> AnnotateStringSpec(reg, s) == Ok((s', r.value))
  {
    var parts := ParseString(s);
    var processed: seq<string> := [];
    var didModify := false;
    for i := 0 to |parts|
      invariant SubstituteAll(reg, parts[..i]) == Ok((processed, didModify))
    {
      var piece := "";
      var answered := false;
      match parts[i] {
        case Text(t) =>
          piece := t;
        case Hole(p) =>
          if p.kind in reg {
            var res := ResolveNow(reg[p.kind], p);
            if res.Err? {
              SubstStepErr(reg, parts, i);
              SubstituteErrPersists(reg, parts, i + 1);
              return Err(res.error), s;
            }
            if res.value.Some? {
              piece, answered := res.value.value, true;
            } else {
              piece := p.value;
            }
          } else {
            piece := "$" + p.kind + ":" + p.value;
          }
      }
      SubstStepOk(reg, parts, i, processed, didModify, piece, answered);
      processed := processed + [piece];
      didModify := didModify || answered;
    }
    assert parts[..|parts|] == parts;
    if didModify {
      s' := Concat(processed);
    } else {
      s' := s;
    }
    return Ok(didModify), s';
  }

  /** A placeholder that some resolver answered. */
  predicate Answered(reg: Registry, e: ParsedElement)
    requires WellKeyed(reg)
  {
    e.Hole? && e.placeholder.kind in reg
    && var res := Resolve(reg[e.placeholder.kind], e.placeholder); res.Ok? && res.value.Some?
  }

  /**
   * The substitution keeps one output per element, each as the element's own
   * rule gives it; it fails exactly when some resolver fails, and reports a
   * change exactly when some resolver answered.
   */
  lemma SubstituteAllFacts(reg: Registry, parts: seq<ParsedElement>)
    requires WellKeyed(reg)
    ensures SubstituteAll(reg, parts).Err? <==> exists i :: 0 <= i < |parts| && SubstElement(reg, parts[i]).Err?
    ensures SubstituteAll(reg, parts).Ok? ==>
              var (out, dirty) := SubstituteAll(reg, parts).value;
              |out| == |parts|
              && (forall i :: 0 <= i < |parts| ==> SubstElement(reg, parts[i]).Ok? && SubstElement(reg, parts[i]).value.0 == out[i])
              && (dirty <==> exists i :: 0 <= i < |parts| && Answered(reg, parts[i]))
  {
    SubstituteFails(reg, parts);
    SubstituteOutputs(reg, parts);
    SubstituteDirty(reg, parts);
  }

  /** The substitution fails exactly when some element's rule fails. */
  lemma {:induction false} SubstituteFails(reg: Registry, parts: seq<ParsedElement>)
    requires WellKeyed(reg)
    ensures SubstituteAll(reg, parts).Err? <==> exists i :: 0 <= i < |parts| && SubstElement(reg, parts[i]).Err?
    decreases |parts|
  {
    if parts != [] {
      var n := |parts| - 1;
      var init := parts[..n];
      SubstituteFails(reg, init);
      var fails := (e: ParsedElement) => SubstElement(reg, e).Err?;
      SomeSplit(parts, fails);
    }
  }

  /** A substitution that succeeds gives one output per element, each as the element's rule gives it. */
  lemma {:induction false} SubstituteOutputs(reg: Registry, parts: seq<ParsedElement>)
    requires WellKeyed(reg)
    ensures SubstituteAll(reg, parts).Ok? ==>
              var out := SubstituteAll(reg, parts).value.0;
              |out| == |parts|
              && forall i :: 0 <= i < |parts| ==> SubstElement(reg, parts[i]).Ok? && SubstElement(reg, parts[i]).value.0 == out[i]
    decreases |parts|
  {
    if parts != [] && SubstituteAll(reg, parts).Ok? {
      var n := |parts| - 1;
      var init := parts[..n];
      SubstituteOutputs(reg, init);
      var out := SubstituteAll(reg, init).value.0;
      var t := SubstElement(reg, parts[n]).value.0;
      assert SubstituteAll(reg, parts).value.0 == out + [t];
      forall i | 0 <= i < |parts|
        ensures SubstElement(reg, parts[i]).Ok? && SubstElement(reg, parts[i]).value.0 == (out + [t])[i]
      {
        if i < n {
          assert parts[i] == init[i];
        }
      }
    }
  }

  /** A substitution that succeeds reports a change exactly when some resolver answered. */
  lemma {:induction false} SubstituteDirty(reg: Registry, parts: seq<ParsedElement>)
    requires WellKeyed(reg)
    ensures SubstituteAll(reg, parts).Ok? ==>
              (SubstituteAll(reg, parts).value.1 <==> exists i :: 0 <= i < |parts| && Answered(reg, parts[i]))
    decreases |parts|
  {
    if parts != [] && SubstituteAll(reg, parts).Ok? {
      var n := |parts| - 1;
      SubstituteDirty(reg, parts[..n]);
      assert SubstituteAll(reg, parts).value.1
          == (SubstituteAll(reg, parts[..n]).value.1 || SubstElement(reg, parts[n]).value.1);
      AnsweredFlag(reg, parts[n]);
      AnsweredSplit(reg, parts);
    }
  }

  /** The flag of one element's substitution says whether a resolver answered it. */
  lemma AnsweredFlag(reg: Registry, e: ParsedElement)
    requires WellKeyed(reg) && SubstElement(reg, e).Ok?
    ensures SubstElement(reg, e).value.1 <==> Answered(reg, e)
  {
  }

  /** Some element is answered when one before the last is, or the last one is. */
  lemma AnsweredSplit(reg: Registry, parts: seq<ParsedElement>)
    requires WellKeyed(reg) && parts != []
    ensures var n := |parts| - 1;
            (exists i :: 0 <= i < |parts| && Answered(reg, parts[i]))
            <==> (exists i :: 0 <= i < n && Answered(reg, parts[..n][i])) || Answered(reg, parts[n])
  {
    var answered := (e: ParsedElement) => Answered(reg, e);
    SomeSplit(parts, answered);
  }

  /** Some element satisfies `p` when one before the last does, or the last one does. */
  lemma SomeSplit<T>(s: seq<T>, p: T -> bool)
    requires s != []
    ensures var n := |s| - 1;
            (exists i :: 0 <= i < |s| && p(s[i])) <==> (exists i :: 0 <= i < n && p(s[..n][i])) || p(s[n])
  {
    var n := |s| - 1;
    if exists i :: 0 <= i < |s| && p(s[i]) {
      var i :| 0 <= i < |s| && p(s[i]);
      if i < n {
        assert s[..n][i] == s[i];
      }
    }
    if exists i :: 0 <= i < n && p(s[..n][i]) {
      var i :| 0 <= i < n && p(s[..n][i]);
      assert s[i] == s[..n][i];
    }
  }

  /** `annotate_string` reports a change exactly when some placeholder was answered by its resolver. */
  lemma ModifiedIffAnswered(reg: Registry, s: string)
    requires WellKeyed(reg)
    requires AnnotateStringSpec(reg, s).Ok?
    ensures AnnotateStringSpec(reg, s).value.1 <==> exists i :: 0 <= i < |Lex(s)| && Answered(reg, Lex(s)[i])
    ensures !AnnotateStringSpec(reg, s).value.1 ==> AnnotateStringSpec(reg, s).value.0 == s
  {
    SubstituteAllFacts(reg, Lex(s));
  }

  /** With no resolver registered for any of its kinds, a string is left as it is. */
  lemma UnknownKindsKeepString(reg: Registry, s: string)
    requires WellKeyed(reg)
    requires forall i :: 0 <= i < |Lex(s)| && Lex(s)[i].Hole? ==> Lex(s)[i].placeholder.kind !in reg
    ensures AnnotateStringSpec(reg, s) == Ok((s, false))
  {
    SubstituteAllFacts(reg, Lex(s));
  }

  /** A string without `$` is never changed, whatever the registry. */
  lemma PlainStringKept(reg: Registry, s: string)
    requires WellKeyed(reg)
    requires '$' !in s
    ensures AnnotateStringSpec(reg, s) == Ok((s, false))
  {
    LexNoPlaceholder(s);
    UnknownKindsKeepString(reg, s);
  }

  // ---- One packet ---------------------------------------------------------

  /** An optional string field, annotated when present. */
  function AnnotateOptional(reg: Registry, o: Option<string>): Result<(Option<string>, bool), string>
    requires WellKeyed(reg)
  {
    match o
    case None => Ok((None, false))
    case Some(s) =>
      match AnnotateStringSpec(reg, s)
      case Err(msg) => Err(msg)
      case Ok((s', d)) => Ok((Some(s'), d))
  }

  /** A list of strings, annotated in order; the first error ends the pass. */
  function AnnotateList(reg: Registry, parts: seq<string>): Result<(seq<string>, bool), string>
    requires WellKeyed(reg)
  {
    if parts == [] then Ok(([], false))
    else
      match AnnotateList(reg, parts[..|parts| - 1])
      case Err(msg) => Err(msg)
      case Ok((out, dirty)) =>
        match AnnotateStringSpec(reg, parts[|parts| - 1])
        case Err(msg) => Err(msg)
        case Ok((s', d)) => Ok((out + [s'], dirty || d))
  }

  /** The descriptor's dynamic name; a static or atrace name is not visited. */
  function AnnotateTrackName(reg: Registry, n: Option<Trace.TrackName>): Result<(Option<Trace.TrackName>, bool), string>
    requires WellKeyed(reg)
  {
    match n
    case Some(Name(s)) =>
      (match AnnotateStringSpec(reg, s)
       case Err(msg) => Err(msg)
       case Ok((s', d)) => Ok((Some(Trace.Name(s')), d)))
    case _ => Ok((n, false))
  }

  function AnnotateProcess(reg: Registry, p: Option<Trace.ProcessDescriptor>): Result<(Option<Trace.ProcessDescriptor>, bool), string>
    requires WellKeyed(reg)
  {
    match p
    case None => Ok((None, false))
    case Some(proc) =>
      match AnnotateOptional(reg, proc.processName)
      case Err(msg) => Err(msg)
      case Ok((name, d1)) =>
        match AnnotateList(reg, proc.cmdline)
        case Err(msg) => Err(msg)
        case Ok((cmdline, d2)) => Ok((Some(proc.(processName := name, cmdline := cmdline)), d1 || d2))
  }

  function AnnotateThread(reg: Registry, t: Option<Trace.ThreadDescriptor>): Result<(Option<Trace.ThreadDescriptor>, bool), string>
    requires WellKeyed(reg)
  {
    match t
    case None => Ok((None, false))
    case Some(thread) =>
      match AnnotateOptional(reg, thread.threadName)
      case Err(msg) => Err(msg)
      case Ok((name, d)) => Ok((Some(thread.(threadName := name)), d))
  }

  /** The descriptor fields in visiting order: description, dynamic name, process name and command line, thread name. */
  function AnnotateDescriptor(reg: Registry, desc: Trace.TrackDescriptor): Result<(Trace.TrackDescriptor, bool), string>
    requires WellKeyed(reg)
  {
    match AnnotateOptional(reg, desc.description)
    case Err(msg) => Err(msg)
    case Ok((description, d1)) =>
      match AnnotateTrackName(reg, desc.staticOrDynamicName)
      case Err(msg) => Err(msg)
      case Ok((name, d2)) =>
        match AnnotateProcess(reg, desc.process)
        case Err(msg) => Err(msg)
        case Ok((process, d3)) =>
          match AnnotateThread(reg, desc.thread)
          case Err(msg) => Err(msg)
          case Ok((thread, d4)) =>
            Ok((desc.(description := description, staticOrDynamicName := name, process := process, thread := thread),
                d1 || d2 || d3 || d4))
  }

  /** What `annotate_packet` gives: the new packet when some visited field was changed, `None` otherwise. */
  function AnnotatePacketSpec(reg: Registry, pkt: Trace.TracePacket): Result<Option<Trace.TracePacket>, string>
    requires WellKeyed(reg)
  {
    match pkt.data
    case Some(TrackEventData(evt)) =>
      (match evt.nameField
       case Some(EventName(name)) =>
         (match AnnotateStringSpec(reg, name)
          case Err(msg) => Err(msg)
          case Ok((name', d)) =>
            if d then Ok(Some(pkt.(data := Some(Trace.TrackEventData(evt.(nameField := Some(Trace.EventName(name'))))))))
            else Ok(None))
       case _ => Ok(None))
    case Some(TrackDescriptorData(desc)) =>
      (match AnnotateDescriptor(reg, desc)
       case Err(msg) => Err(msg)
       case Ok((desc', d)) => if d then Ok(Some(pkt.(data := Some(Trace.TrackDescriptorData(desc'))))) else Ok(None))
    case _ => Ok(None)
  }

  /** An optional field, annotated in place. */
  method AnnotateOptionalNow(reg: Registry, o: Option<string>) returns (r: Result<(Option<string>, bool), string>)
    requires WellKeyed(reg)
    ensures r == AnnotateOptional(reg, o)
  {
    if o.None? {
      return Ok((None, false));
    }
    var res, s' := AnnotateString(reg, o.value);
    if res.Err? {
      return Err(res.error);
    }
    return Ok((Some(s'), res.value));
  }

  /** The command-line loop of `annotate_packet`. */
  method AnnotateListNow(reg: Registry, parts: seq<string>) returns (r: Result<(seq<string>, bool), string>)
    requires WellKeyed(reg)
    ensures r == AnnotateList(reg, parts)
  {
    var out := parts;
    var didModify := false;
    for i := 0 to |parts|
      invariant |out| == |parts|
      invariant AnnotateList(reg, parts[..i]) == Ok((out[..i], didModify))
    {
      var res, s' := AnnotateString(reg, parts[i]);
      if res.Err? {
        ListStepErr(reg, parts, i);
        ListErrPersists(reg, parts, i + 1);
        return Err(res.error);
      }
      ListStepOk(reg, parts, i, out[..i], didModify, s', res.value);
      out := out[i := s'];
      assert out[..i + 1] == out[..i] + [s'];
      didModify := didModify || res.value;
    }
    assert parts[..|parts|] == parts && out[..|parts|] == out;
    return Ok((out, didModify));
  }

  /** One more string annotated: its result is appended, and its change flag joins the others. */
  lemma ListStepOk(reg: Registry, parts: seq<string>, i: nat, out: seq<string>, dirty: bool, s': string, d: bool)
    requires WellKeyed(reg)
    requires i < |parts|
    requires AnnotateList(reg, parts[..i]) == Ok((out, dirty))
    requires AnnotateStringSpec(reg, parts[i]) == Ok((s', d))
    ensures AnnotateList(reg, parts[..i + 1]) == Ok((out + [s'], dirty || d))
  {
    assert parts[..i + 1][..i] == parts[..i];
  }

  /** A string whose annotation fails makes the list fail there. */
  lemma ListStepErr(reg: Registry, parts: seq<string>, i: nat)
    requires WellKeyed(reg)
    requires i < |parts|
    requires AnnotateList(reg, parts[..i]).Ok? && AnnotateStringSpec(reg, parts[i]).Err?
    ensures AnnotateList(reg, parts[..i + 1]) == Err(AnnotateStringSpec(reg, parts[i]).error)
  {
    assert parts[..i + 1][..i] == parts[..i];
  }

  lemma {:induction false} ListErrPersists(reg: Registry, parts: seq<string>, i: nat)
    requires WellKeyed(reg)
    requires i <= |parts|
    requires AnnotateList(reg, parts[..i]).Err?
    ensures AnnotateList(reg, parts) == AnnotateList(reg, parts[..i])
    decreases |parts| - i
  {
    if i < |parts| {
      assert parts[..i + 1][..i] == parts[..i];
      ListErrPersists(reg, parts, i + 1);
    } else {
      assert parts[..i] == parts;
    }
  }

  /** The dynamic track name, when the descriptor has one. */
  method AnnotateTrackNameNow(reg: Registry, n: Option<Trace.TrackName>) returns (r: Result<(Option<Trace.TrackName>, bool), string>)
    requires WellKeyed(reg)
    ensures r == AnnotateTrackName(reg, n)
  {
    r := Ok((n, false));
    if n.Some? && n.value.Name? {
      var res, s' := AnnotateString(reg, n.value.name);
      if res.Err? {
        return Err(res.error);
      }
      r := Ok((Some(Trace.Name(s')), res.value));
    }
  }

  /** The process name, then the command line, of a process descriptor. */
  method AnnotateProcessNow(reg: Registry, p: Option<Trace.ProcessDescriptor>) returns (r: Result<(Option<Trace.ProcessDescriptor>, bool), string>)
    requires WellKeyed(reg)
    ensures r == AnnotateProcess(reg, p)
  {
    r := Ok((None, false));
    if p.Some? {
      var proc := p.value;
      var pname := AnnotateOptionalNow(reg, proc.processName);
      if pname.Err? {
        return Err(pname.error);
      }
      var cmdline := AnnotateListNow(reg, proc.cmdline);
      if cmdline.Err? {
        return Err(cmdline.error);
      }
      r := Ok((Some(proc.(processName := pname.value.0, cmdline := cmdline.value.0)), pname.value.1 || cmdline.value.1));
    }
  }

  /** The thread name of a thread descriptor. */
  method AnnotateThreadNow(reg: Registry, t: Option<Trace.ThreadDescriptor>) returns (r: Result<(Option<Trace.ThreadDescriptor>, bool), string>)
    requires WellKeyed(reg)
    ensures r == AnnotateThread(reg, t)
  {
    r := Ok((None, false));
    if t.Some? {
      var tname := AnnotateOptionalNow(reg, t.value.threadName);
      if tname.Err? {
        return Err(tname.error);
      }
      r := Ok((Some(t.value.(threadName := tname.value.0)), tname.value.1));
    }
  }

  /** The descriptor part of `annotate_packet`, field by field. */
  method AnnotateDescriptorNow(reg: Registry, desc: Trace.TrackDescriptor) returns (r: Result<(Trace.TrackDescriptor, bool), string>)
    requires WellKeyed(reg)
    ensures r == AnnotateDescriptor(reg, desc)
  {
    var d := desc;
    var didModify := false;
    var description := AnnotateOptionalNow(reg, d.description);
    if description.Err? {
      return Err(description.error);
    }
    d := d.(description := description.value.0);
    didModify := didModify || description.value.1;

    var name := AnnotateTrackNameNow(reg, d.staticOrDynamicName);
    if name.Err? {
      return Err(name.error);
    }
    d := d.(staticOrDynamicName := name.value.0);
    didModify := didModify || name.value.1;

    var process := AnnotateProcessNow(reg, d.process);
    if process.Err? {
      return Err(process.error);
    }
    d := d.(process := process.value.0);
    didModify := didModify || process.value.1;

    var thread := AnnotateThreadNow(reg, d.thread);
    if thread.Err? {
      return Err(thread.error);
    }
    d := d.(thread := thread.value.0);
    didModify := didModify || thread.value.1;
    return Ok((d, didModify));
  }

  /** `annotate_packet`: edits the visited fields in place and reports whether any of them changed. */
  method AnnotatePacket(reg: Registry, pkt: Trace.TracePacket) returns (r: Result<Option<Trace.TracePacket>, string>)
    requires WellKeyed(reg)
    ensures r == AnnotatePacketSpec(reg, pkt)
  {
    var p := pkt;
    var didModify := false;
    if p.data.Some? && p.data.value.TrackEventData? {
      var evt := p.data.value.event;
      if evt.nameField.Some? && evt.nameField.value.EventName? {
        var res, name' := AnnotateString(reg, evt.nameField.value.name);
        if res.Err? {
          return Err(res.error);
        }
        p := p.(data := Some(Trace.TrackEventData(evt.(nameField := Some(Trace.EventName(name'))))));
        didModify := didModify || res.value;
      }
    }
    if p.data.Some? && p.data.value.TrackDescriptorData? {
      var res := AnnotateDescriptorNow(reg, p.data.value.descriptor);
      if res.Err? {
        return Err(res.error);
      }
      p := p.(data := Some(Trace.TrackDescriptorData(res.value.0)));
      didModify := didModify || res.value.1;
    }
    if didModify {
      return Ok(Some(p));
    }
    return Ok(None);
  }

  // ---- What the packet visit promises --------------------------------------

  /** A packet with every visited string blanked out: what annotation must not touch. */
  function Skeleton(pkt: Trace.TracePacket): Trace.TracePacket
  {
    match pkt.data
    case Some(TrackEventData(evt)) =>
      (match evt.nameField
       case Some(EventName(_)) => pkt.(data := Some(Trace.TrackEventData(evt.(nameField := Some(Trace.EventName([]))))))
       case _ => pkt)
    case Some(TrackDescriptorData(desc)) => pkt.(data := Some(Trace.TrackDescriptorData(DescriptorSkeleton(desc))))
    case _ => pkt
  }

  /** A descriptor with its description, dynamic name, process name, command line and thread name blanked out. */
  function DescriptorSkeleton(desc: Trace.TrackDescriptor): Trace.TrackDescriptor
  {
    desc.(
      description := MapOption(desc.description, (s: string) => []),
      staticOrDynamicName := (match desc.staticOrDynamicName case Some(Name(_)) => Some(Trace.Name([])) case n => n),
      process := MapOption(desc.process, (proc: Trace.ProcessDescriptor) =>
        proc.(processName := MapOption(proc.processName, (s: string) => []), cmdline := Blanks(|proc.cmdline|))),
      thread := MapOption(desc.thread, (t: Trace.ThreadDescriptor) =>
        t.(threadName := MapOption(t.threadName, (s: string) => []))))
  }

  /** `n` empty strings. */
  function Blanks(n: nat): (r: seq<string>)
    ensures |r| == n && forall i :: 0 <= i < n ==> r[i] == []
  {
    seq(n, i => [])
  }

  lemma {:induction false} AnnotateListKeepsLength(reg: Registry, parts: seq<string>)
    requires WellKeyed(reg)
    requires AnnotateList(reg, parts).Ok?
    ensures |AnnotateList(reg, parts).value.0| == |parts|
    decreases |parts|
  {
    if parts != [] {
      AnnotateListKeepsLength(reg, parts[..|parts| - 1]);
    }
  }

  /** An annotated packet differs from the original only in the strings the visit reaches. */
  lemma OnlyVisitedFieldsChange(reg: Registry, pkt: Trace.TracePacket)
    requires WellKeyed(reg)
    requires AnnotatePacketSpec(reg, pkt).Ok? && AnnotatePacketSpec(reg, pkt).value.Some?
    ensures Skeleton(AnnotatePacketSpec(reg, pkt).value.value) == Skeleton(pkt)
  {
    if pkt.data.value.TrackDescriptorData? {
      DescriptorSkeletonKept(reg, pkt.data.value.descriptor);
    }
  }

  /** Annotating a descriptor changes only the strings the visit reaches. */
  lemma DescriptorSkeletonKept(reg: Registry, desc: Trace.TrackDescriptor)
    requires WellKeyed(reg)
    requires AnnotateDescriptor(reg, desc).Ok?
    ensures DescriptorSkeleton(AnnotateDescriptor(reg, desc).value.0) == DescriptorSkeleton(desc)
  {
    if desc.process.Some? {
      AnnotateListKeepsLength(reg, desc.process.value.cmdline);
    }
  }

  /** Packets other than track events and track descriptors are never rewritten. */
  lemma OtherPacketsKept(reg: Registry, pkt: Trace.TracePacket)
    requires WellKeyed(reg)
    requires pkt.data.None? || pkt.data.value.Other?
    ensures AnnotatePacketSpec(reg, pkt) == Ok(None)
  {
  }

  /** With no resolvers at all, every string annotation is a no-op. */
  lemma EmptyRegistryKeepsStrings(s: string)
    ensures AnnotateStringSpec(map[], s) == Ok((s, false))
  {
    UnknownKindsKeepString(map[], s);
  }

  lemma {:induction false} EmptyRegistryKeepsLists(parts: seq<string>)
    ensures AnnotateList(map[], parts) == Ok((parts, false))
    decreases |parts|
  {
    if parts != [] {
      EmptyRegistryKeepsLists(parts[..|parts| - 1]);
      EmptyRegistryKeepsStrings(parts[|parts| - 1]);
      assert parts[..|parts| - 1] + [parts[|parts| - 1]] == parts;
    }
  }

  /** With no resolvers at all, no packet is rewritten. */
  lemma EmptyRegistryKeepsPackets(pkt: Trace.TracePacket)
    ensures AnnotatePacketSpec(map[], pkt) == Ok(None)
  {
    match pkt.data {
      case Some(TrackEventData(evt)) =>
        if evt.nameField.Some? && evt.nameField.value.EventName? {
          EmptyRegistryKeepsStrings(evt.nameField.value.name);
        }
      case Some(TrackDescriptorData(desc)) =>
        if desc.description.Some? {
          EmptyRegistryKeepsStrings(desc.description.value);
        }
        if desc.staticOrDynamicName.Some? && desc.staticOrDynamicName.value.Name? {
          EmptyRegistryKeepsStrings(desc.staticOrDynamicName.value.name);
        }
        if desc.process.Some? {
          if desc.process.value.processName.Some? {
            EmptyRegistryKeepsStrings(desc.process.value.processName.value);
          }
          EmptyRegistryKeepsLists(desc.process.value.cmdline);
        }
        if desc.thread.Some? && desc.thread.value.threadName.Some? {
          EmptyRegistryKeepsStrings(desc.thread.value.threadName.value);
        }
      case _ =>
    }
  }
}
