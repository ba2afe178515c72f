/**
 * The `a2l` resolver: a code address is replaced by the chain of source
 * locations and function names that the debug information gives for it,
 * followed by the address in hexadecimal.
 *
 * The debug-information reader (frame lookup, symbol lookup, demangling) is
 * a foreign library; it enters the model as function-valued fields.
 */
module Addr2Line {
  import opened Wrappers
  import Format
  import Utils
  import opened Lexer

  /** What the debug information says about a source position; every part may be missing. */
  datatype Location = Location(file: Option<string>, line: Option<nat>, column: Option<nat>)

  /** A function entry: its raw name (absent when it cannot be read) and its source language. */
  datatype FunctionInfo = FunctionInfo(rawName: Option<string>, language: Option<int>)

  datatype Frame = Frame(func: Option<FunctionInfo>, location: Option<Location>)

  /** One answer of a frame iterator: a frame, the end, or a failure. */
  type Pull = Result<Option<Frame>, ()>

  /**
   * The frame iterator of one lookup, as the answers it gives to successive
   * `next` calls, innermost frame first; after the last answer it ends.
   */
  datatype FrameIter = FrameIter(pulls: seq<Pull>)

  /** The loaded debug information of one executable. */
  datatype Loader = Loader(findFrames: nat -> Option<FrameIter>, findSymbol: nat -> Option<string>)

  datatype Addr2LineAnnotator = Addr2LineAnnotator(
    loader: Loader,
    demangleAuto: (string, Option<int>) -> string,
    demangle: bool,
    doInlines: bool)

  const KEYS: seq<string> := ["a2l"]

  const LOAD_FAILED := "failed to load addr2line file!"

  /** `new`: a loaded file gives a resolver that demangles and follows inlined frames. */
  function New(loaded: Option<Loader>, demangleAuto: (string, Option<int>) -> string): (r: Result<Addr2LineAnnotator, string>)
    ensures r.Ok? <==> loaded.Some?
    ensures r.Ok? ==> r.value.loader == loaded.value && r.value.demangleAuto == demangleAuto
    ensures r.Ok? ==> r.value.demangle && r.value.doInlines
    ensures r.Err? ==> r.error == LOAD_FAILED
  {
    match loaded
    case None => Err(LOAD_FAILED)
    case Some(l) => Ok(Addr2LineAnnotator(l, demangleAuto, true, true))
  }

  // ---- File names ---------------------------------------------------------

  /** `path` cut at every `/`, with `cur` the part already read of the first piece. */
  function SplitFrom(path: string, cur: string): seq<string>
    decreases |path|
  {
    if path == [] then [cur]
    else if path[0] == '/' then [cur] + SplitFrom(path[1..], [])
    else SplitFrom(path[1..], cur + [path[0]])
  }

  /** The path components that name something: empty pieces and `.` are not components. */
  function Components(pieces: seq<string>): (r: seq<string>)
    ensures forall k :: 0 <= k < |r| ==> r[k] != [] && r[k] != "."
  {
    if pieces == [] then []
    else
      var p := pieces[|pieces| - 1];
      Components(pieces[..|pieces| - 1]) + (if p == [] || p == "." then [] else [p])
  }

  /** `Path::file_name`: the last component, unless the path has none or ends in `..`. */
  function FileName(path: string): (r: Option<string>)
    ensures r.Some? ==> r.value != [] && r.value != "." && r.value != ".."
  {
    var cs := Components(SplitFrom(path, []));
    if cs == [] || cs[|cs| - 1] == ".." then None else Some(cs[|cs| - 1])
  }

  /** The file part of a location: its last component, or the whole path when there is none. */
  function ShortFile(path: string): string
  {
    match FileName(path)
    case Some(name) => name
    case None => path
  }

  lemma {:induction false} SplitWord(w: string, cur: string)
    requires '/' !in w
    ensures SplitFrom(w, cur) == [cur + w]
    decreases |w|
  {
    if w == [] {
      assert cur + w == cur;
    } else {
      assert w[0] in w;
      assert w == [w[0]] + w[1..];
      SplitWord(w[1..], cur + [w[0]]);
      assert cur + [w[0]] + w[1..] == cur + w;
    }
  }

  /** A `/` closes the piece being read; what follows is split afresh. */
  lemma {:induction false} SplitAtSlash(a: string, b: string, cur: string)
    ensures SplitFrom(a + "/" + b, cur) == SplitFrom(a, cur) + SplitFrom(b, [])
    decreases |a|
  {
    if a == [] {
      assert a + "/" + b == "/" + b;
      assert ("/" + b)[1..] == b;
    } else {
      assert (a + "/" + b)[0] == a[0] && (a + "/" + b)[1..] == a[1..] + "/" + b;
      if a[0] == '/' {
        SplitAtSlash(a[1..], b, []);
      } else {
        SplitAtSlash(a[1..], b, cur + [a[0]]);
      }
    }
  }

  lemma ComponentsSnoc(pieces: seq<string>, p: string)
    ensures Components(pieces + [p]) == Components(pieces) + (if p == [] || p == "." then [] else [p])
  {
    assert (pieces + [p])[..|pieces + [p]| - 1] == pieces;
  }

  /** A file name after a directory is what remains of the path. */
  lemma FileNameAfterDirectory(dir: string, name: string)
    requires '/' !in name && name != [] && name != "." && name != ".."
    ensures FileName(dir + "/" + name) == Some(name)
    ensures ShortFile(dir + "/" + name) == name
  {
    SplitAtSlash(dir, name, []);
    SplitWord(name, []);
    assert [] + name == name;
    ComponentsSnoc(SplitFrom(dir, []), name);
  }

  /** A bare file name is its own file name. */
  lemma FileNameOfBareName(name: string)
    requires '/' !in name && name != [] && name != "." && name != ".."
    ensures FileName(name) == Some(name)
    ensures ShortFile(name) == name
  {
    SplitWord(name, []);
    assert [] + name == name;
    ComponentsSnoc([], name);
  }

  // ---- Rendering one frame --------------------------------------------------

  /** `source_loc_str`. */
  function SourceLocStr(loc: Option<Location>): (s: string)
    ensures loc.None? || loc.value.file.None? ==> s == "?"
    ensures loc.Some? && loc.value.file.Some? ==>
              var f := ShortFile(loc.value.file.value);
              match (loc.value.line, loc.value.column)
              case (None, _) => s == f
              case (Some(l), None) => s == f + ":" + Format.Decimal(l)
              case (Some(l), Some(c)) => s == f + ":" + Format.Decimal(l) + ":" + Format.Decimal(c)
  {
    match loc
    case None => "?"
    case Some(Location(file, line, column)) =>
      match file
      case None => "?"
      case Some(path) =>
        var f := ShortFile(path);
        match line
        case None => f
        case Some(l) =>
          match column
          case None => f + ":" + Format.Decimal(l)
          case Some(c) => f + ":" + Format.Decimal(l) + ":" + Format.Decimal(c)
  }

  /** `func_str`: a missing name is `?`; a present one is demangled when demangling is on. */
  function FuncStr(a: Addr2LineAnnotator, name: Option<string>, language: Option<int>): (s: string)
    ensures name.None? ==> s == "?"
    ensures name.Some? && !a.demangle ==> s == name.value
    ensures name.Some? && a.demangle ==> s == a.demangleAuto(name.value, language)
  {
    match name
    case None => "?"
    case Some(n) => if a.demangle then a.demangleAuto(n, language) else n
  }

  /** Frame `frame`'s function text: the symbol table's name when one was looked up and found, else the debug name. */
  function FrameFunc(a: Addr2LineAnnotator, frame: Frame, symbol: Option<string>): Option<string>
  {
    if symbol.Some? then Some(FuncStr(a, symbol, None))
    else match frame.func
      case None => None
      case Some(f) => Some(FuncStr(a, f.rawName, f.language))
  }

  /** A frame as it appears in the chain: `?`, the location, the function, or `location:function`. */
  function FrameText(a: Addr2LineAnnotator, frame: Frame, symbol: Option<string>): string
  {
    var loc := match frame.location
      case None => None
      case Some(l) => Some(SourceLocStr(Some(l)));
    match (loc, FrameFunc(a, frame, symbol))
    case (None, None) => "?"
    case (None, Some(f)) => f
    case (Some(l), None) => l
    case (Some(l), Some(f)) => l + ":" + f
  }

  /** Appending a frame's text: `->` separates it from a non-empty chain. */
  function Chain(acc: string, part: string): string
  {
    if acc == [] then part else acc + "->" + part
  }

  /** A frame the loop renders, with the symbol table's answer when the loop consulted it. */
  datatype Shown = Shown(frame: Frame, symbol: Option<string>)

  /** The chain of the rendered frames, in the order they were rendered. */
  function ChainOf(a: Addr2LineAnnotator, shown: seq<Shown>): string
  {
    if shown == [] then []
    else
      var last := shown[|shown| - 1];
      Chain(ChainOf(a, shown[..|shown| - 1]), FrameText(a, last.frame, last.symbol))
  }

  // ---- The frame iterator ---------------------------------------------------

  /** The `n`-th answer of the lookup's own iterator; once its answers are used up it keeps ending. */
  function InnerNext(it: FrameIter, n: nat): Pull
  {
    if n < |it.pulls| then it.pulls[n] else Ok(None)
  }

  /**
   * `frames.peekable()`: the lookup's iterator with room for one frame that
   * `peek` has pulled early. `peek` keeps a frame it pulls, but passes an end
   * or an error on without keeping it, so the next `next` asks the lookup's
   * iterator again.
   */
  class Peekable {
    const inner: FrameIter
    var pos: nat
    var peeked: Option<Frame>

    constructor (it: FrameIter)
      ensures inner == it && pos == 0 && peeked == None
    {
      inner := it;
      pos := 0;
      peeked := None;
    }

    /** `next`: the kept frame if there is one, else the lookup iterator's next answer. */
    method Next() returns (r: Pull)
      modifies this
      ensures old(peeked).Some? ==> r == Ok(Some(old(peeked).value)) && pos == old(pos)
      ensures old(peeked).None? ==> r == InnerNext(inner, old(pos)) && pos == old(pos) + 1
      ensures peeked == None
    {
      if peeked.Some? {
        r := Ok(Some(peeked.value));
        peeked := None;
      } else {
        r := InnerNext(inner, pos);
        pos := pos + 1;
      }
    }

    /** `peek`: the frame `next` will give, pulled and kept; an end or an error is answered once and dropped. */
    method Peek() returns (r: Pull)
      modifies this
      ensures old(peeked).Some? ==> r == Ok(Some(old(peeked).value)) && pos == old(pos) && peeked == old(peeked)
      ensures old(peeked).None? ==> r == InnerNext(inner, old(pos)) && pos == old(pos) + 1
      ensures old(peeked).None? ==> peeked == (if r.Ok? && r.value.Some? then Some(r.value.value) else None)
    {
      if peeked.Some? {
        r := Ok(Some(peeked.value));
      } else {
        r := InnerNext(inner, pos);
        pos := pos + 1;
        if r.Ok? && r.value.Some? {
          peeked := Some(r.value.value);
        }
      }
    }
  }

  /** The states a `Peekable` over `it` can reach: a kept frame was pulled from within the answers. */
  predicate Reachable(it: FrameIter, pos: nat, peeked: Option<Frame>)
  {
    pos <= |it.pulls| + 1 && (peeked.Some? ==> pos <= |it.pulls|)
  }

  /**
   * The loop of `frames_str` from a `Peekable` in state `pos`/`peeked`, with
   * `acc` the frames rendered so far: `None` when a `next` fails, else every
   * frame the loop renders.
   */
  function Walk(a: Addr2LineAnnotator, addr: nat, it: FrameIter, pos: nat, peeked: Option<Frame>, acc: seq<Shown>): Option<seq<Shown>>
    requires Reachable(it, pos, peeked)
    decreases |it.pulls| + 1 - pos
  {
    var next: Pull := if peeked.Some? then Ok(Some(peeked.value)) else InnerNext(it, pos);
    var afterNext := if peeked.Some? then pos else pos + 1;
    match next
    case Err(_) => None
    case Ok(None) => Some(acc)
    case Ok(Some(frame)) =>
      var peek := InnerNext(it, afterNext);
      var symbol := if peek == Ok(None) then a.loader.findSymbol(addr) else None;
      var shown := acc + [Shown(frame, symbol)];
      if !a.doInlines then Some(shown)
      else Walk(a, addr, it, afterNext + 1, if peek.Ok? && peek.value.Some? then Some(peek.value.value) else None, shown)
  }

  /** What `frames_str` gives for `addr`. */
  function FramesSpec(a: Addr2LineAnnotator, addr: nat): string
  {
    match a.loader.findFrames(addr)
    case None => "a2l err"
    case Some(it) =>
      match Walk(a, addr, it, 0, None, [])
      case None => "a2l err"
      case Some(shown) => var text := ChainOf(a, shown); if text == [] then "?" else text
  }

  /** `frames_str`: the chain of frames for `addr`, `?` when there is none, `a2l err` when the lookup or a `next` fails. */
  method FramesStr(a: Addr2LineAnnotator, addr: nat) returns (s: string)
    ensures s == FramesSpec(a, addr)
    ensures s != []
  {
    var found := a.loader.findFrames(addr);
    if found.None? {
      return "a2l err";
    }
    var failed, result := WalkFrames(a, addr, found.value);
    if failed {
      return "a2l err";
    }
    return if result == [] then "?" else result;
  }

  /** The loop of `frames_str`: pulls frames until there are none left, or after the first one when inlined frames are not followed. */
  method WalkFrames(a: Addr2LineAnnotator, addr: nat, it: FrameIter) returns (failed: bool, result: string)
    ensures failed <==> Walk(a, addr, it, 0, None, []).None?
    ensures !failed ==> result == ChainOf(a, Walk(a, addr, it, 0, None, []).value)
  {
    var frames := new Peekable(it);
    result := [];
    ghost var shown: seq<Shown> := [];
    while true
      invariant frames.inner == it && Reachable(it, frames.pos, frames.peeked)
      invariant Walk(a, addr, it, frames.pos, frames.peeked, shown) == Walk(a, addr, it, 0, None, [])
      invariant result == ChainOf(a, shown)
      decreases |it.pulls| + 1 - frames.pos
    {
      var next := frames.Next();
      if next.Err? {
        return true, result;
      }
      if next.value.None? {
        return false, result;
      }
      var peek := frames.Peek();
      var symbol := if peek == Ok(None) then a.loader.findSymbol(addr) else None;
      result := Chain(result, FrameText(a, next.value.value, symbol));
      ChainOfSnoc(a, shown, Shown(next.value.value, symbol));
      shown := shown + [Shown(next.value.value, symbol)];
      if !a.doInlines {
        return false, result;
      }
    }
  }

  /** One frame more extends the chain by that frame's text. */
  lemma ChainOfSnoc(a: Addr2LineAnnotator, shown: seq<Shown>, s: Shown)
    ensures ChainOf(a, shown + [s]) == Chain(ChainOf(a, shown), FrameText(a, s.frame, s.symbol))
  {
    assert (shown + [s])[..|shown|] == shown;
  }

  // ---- What the chain promises ----------------------------------------------

  /** The lookup's iterator answers with exactly `frames` and then ends, with no error on the way. */
  predicate Clean(it: FrameIter, frames: seq<Frame>)
  {
    |it.pulls| == |frames| && forall i :: 0 <= i < |frames| ==> it.pulls[i] == Ok(Some(frames[i]))
  }

  /** Every one of `frames`, the last with the symbol table's answer and the others without. */
  function AllShown(frames: seq<Frame>, symbol: Option<string>): (r: seq<Shown>)
    ensures |r| == |frames|
    ensures forall i :: 0 <= i < |frames| ==> r[i] == Shown(frames[i], if i == |frames| - 1 then symbol else None)
  {
    seq(|frames|, i requires 0 <= i < |frames| => Shown(frames[i], if i == |frames| - 1 then symbol else None))
  }

  /** The chain is never empty: a lookup that yields nothing is `?`. */
  lemma FramesNeverEmpty(a: Addr2LineAnnotator, addr: nat)
    ensures FramesSpec(a, addr) != []
  {
  }

  /** A walk in which no answer of the lookup's iterator is an error never fails. */
  lemma {:induction false} NoErrorNoFailure(a: Addr2LineAnnotator, addr: nat, it: FrameIter, pos: nat, peeked: Option<Frame>, acc: seq<Shown>)
    requires Reachable(it, pos, peeked)
    requires forall i :: 0 <= i < |it.pulls| ==> it.pulls[i].Ok?
    ensures Walk(a, addr, it, pos, peeked, acc).Some?
    decreases |it.pulls| + 1 - pos
  {
    var next: Pull := if peeked.Some? then Ok(Some(peeked.value)) else InnerNext(it, pos);
    var afterNext := if peeked.Some? then pos else pos + 1;
    if next.Ok? && next.value.Some? && a.doInlines {
      var peek := InnerNext(it, afterNext);
      var symbol := if peek == Ok(None) then a.loader.findSymbol(addr) else None;
      NoErrorNoFailure(a, addr, it, afterNext + 1, if peek.Ok? && peek.value.Some? then Some(peek.value.value) else None,
                       acc + [Shown(next.value.value, symbol)]);
    }
  }

  /** Past the iterator's last answer, the walk ends with the frames it has. */
  lemma WalkAtEnd(a: Addr2LineAnnotator, addr: nat, it: FrameIter, acc: seq<Shown>)
    ensures Walk(a, addr, it, |it.pulls| + 1, None, acc) == Some(acc)
  {
    assert InnerNext(it, |it.pulls| + 1) == Ok(None);
  }

  /** With inlined frames, the rest of a clean walk after `k` frames renders all of them. */
  lemma {:induction false} CleanWalkFrom(a: Addr2LineAnnotator, addr: nat, it: FrameIter, frames: seq<Frame>, k: nat)
    requires a.doInlines && Clean(it, frames) && 1 <= k <= |frames|
    ensures var all := AllShown(frames, a.loader.findSymbol(addr));
            Walk(a, addr, it, k + 1, if k < |frames| then Some(frames[k]) else None, all[..k]) == Some(all)
    decreases |frames| - k
  {
    var all := AllShown(frames, a.loader.findSymbol(addr));
    if k < |frames| {
      assert InnerNext(it, k + 1) == if k + 1 < |frames| then Ok(Some(frames[k + 1])) else Ok(None);
      assert all[..k] + [all[k]] == all[..k + 1];
      CleanWalkFrom(a, addr, it, frames, k + 1);
    } else {
      assert all[..k] == all;
      WalkAtEnd(a, addr, it, all);
    }
  }

  /** With inlined frames, a lookup without errors renders every frame in order, the symbol table consulted on the last. */
  lemma CleanLookupRendersAll(a: Addr2LineAnnotator, addr: nat, it: FrameIter, frames: seq<Frame>)
    requires a.doInlines && Clean(it, frames)
    ensures Walk(a, addr, it, 0, None, []) == Some(AllShown(frames, a.loader.findSymbol(addr)))
  {
    var all := AllShown(frames, a.loader.findSymbol(addr));
    if |frames| > 0 {
      assert InnerNext(it, 0) == Ok(Some(frames[0]));
      assert InnerNext(it, 1) == if 1 < |frames| then Ok(Some(frames[1])) else Ok(None);
      assert [] + [all[0]] == all[..1];
      assert Walk(a, addr, it, 0, None, []) == Walk(a, addr, it, 2, if 1 < |frames| then Some(frames[1]) else None, all[..1]);
      CleanWalkFrom(a, addr, it, frames, 1);
    } else {
      assert all == [];
    }
  }

  /** Without inlined frames only the first frame is rendered, and a failure after it goes unnoticed. */
  lemma OnlyFirstFrameWithoutInlines(a: Addr2LineAnnotator, addr: nat, it: FrameIter, frame: Frame)
    requires !a.doInlines
    requires a.loader.findFrames(addr) == Some(it) && |it.pulls| > 0 && it.pulls[0] == Ok(Some(frame))
    ensures var t := FrameText(a, frame, if InnerNext(it, 1) == Ok(None) then a.loader.findSymbol(addr) else None);
            FramesSpec(a, addr) == if t == [] then "?" else t
  {
    var symbol := if InnerNext(it, 1) == Ok(None) then a.loader.findSymbol(addr) else None;
    ChainOfSnoc(a, [], Shown(frame, symbol));
    assert [] + [Shown(frame, symbol)] == [Shown(frame, symbol)];
  }

  /** A failing answer is fatal when `next` meets it, as on the very first pull. */
  lemma FirstPullFails(a: Addr2LineAnnotator, addr: nat)
    requires a.loader.findFrames(addr).Some?
    requires var it := a.loader.findFrames(addr).value; |it.pulls| > 0 && it.pulls[0].Err?
    ensures FramesSpec(a, addr) == "a2l err"
  {
  }

  /** A failing answer met by `peek` is dropped: the frame before it is the whole chain, without the symbol table. */
  lemma PeekedErrorDropped(a: Addr2LineAnnotator, addr: nat, frame: Frame)
    requires a.doInlines
    requires a.loader.findFrames(addr) == Some(FrameIter([Ok(Some(frame)), Err(())]))
    ensures Walk(a, addr, a.loader.findFrames(addr).value, 0, None, []) == Some([Shown(frame, None)])
    ensures var t := FrameText(a, frame, None); FramesSpec(a, addr) == if t == [] then "?" else t
  {
    var it := a.loader.findFrames(addr).value;
    assert InnerNext(it, 1) == Err(());
    assert InnerNext(it, 2) == Ok(None);
    assert [] + [Shown(frame, None)] == [Shown(frame, None)];
    assert Walk(a, addr, it, 0, None, []) == Walk(a, addr, it, 2, None, [Shown(frame, None)]);
    ChainOfSnoc(a, [], Shown(frame, None));
  }

  /** After an error met by `peek` the walk goes on with the frames that follow. */
  lemma TransientErrorSurvived(a: Addr2LineAnnotator, addr: nat, first: Frame, second: Frame)
    requires a.doInlines
    requires a.loader.findFrames(addr) == Some(FrameIter([Ok(Some(first)), Err(()), Ok(Some(second))]))
    ensures Walk(a, addr, a.loader.findFrames(addr).value, 0, None, [])
            == Some([Shown(first, None), Shown(second, a.loader.findSymbol(addr))])
  {
    var it := a.loader.findFrames(addr).value;
    assert InnerNext(it, 0) == Ok(Some(first)) && InnerNext(it, 1) == Err(());
    assert InnerNext(it, 2) == Ok(Some(second)) && InnerNext(it, 3) == Ok(None);
    var both := [Shown(first, None), Shown(second, a.loader.findSymbol(addr))];
    assert [] + [Shown(first, None)] == [Shown(first, None)];
    assert [Shown(first, None)] + [Shown(second, a.loader.findSymbol(addr))] == both;
    WalkAtEnd(a, addr, it, both);
    assert Walk(a, addr, it, 2, None, [Shown(first, None)]) == Walk(a, addr, it, 4, None, both);
    assert Walk(a, addr, it, 0, None, []) == Walk(a, addr, it, 2, None, [Shown(first, None)]);
  }

  /** Two errors in a row: `peek` drops the first, and `next` fails on the second. */
  lemma RepeatedErrorFails(a: Addr2LineAnnotator, addr: nat, frame: Frame)
    requires a.doInlines
    requires a.loader.findFrames(addr) == Some(FrameIter([Ok(Some(frame)), Err(()), Err(())]))
    ensures FramesSpec(a, addr) == "a2l err"
  {
    var it := a.loader.findFrames(addr).value;
    assert InnerNext(it, 1) == Err(()) && InnerNext(it, 2) == Err(());
    assert Walk(a, addr, it, 0, None, []) == Walk(a, addr, it, 2, None, [] + [Shown(frame, None)]);
  }

  /** On a lookup without errors, every frame but the last is rendered without the symbol table. */
  lemma SymbolOnlyOnLastFrame(a: Addr2LineAnnotator, addr: nat, it: FrameIter, frames: seq<Frame>)
    requires a.doInlines && Clean(it, frames)
    ensures Walk(a, addr, it, 0, None, []).Some?
    ensures var shown := Walk(a, addr, it, 0, None, []).value;
            forall i :: 0 <= i < |shown| - 1 ==> shown[i].symbol.None?
  {
    CleanLookupRendersAll(a, addr, it, frames);
  }

  /** When the symbol table knows the address, its name wins over the debug information's. */
  lemma SymbolPreferred(a: Addr2LineAnnotator, frame: Frame, symbol: string)
    ensures FrameFunc(a, frame, Some(symbol)) == Some(FuncStr(a, Some(symbol), None))
  {
  }

  /** A single frame with a full location reads `file:line:column:function`, the file cut to its name. */
  lemma SingleFrameText(a: Addr2LineAnnotator, addr: nat, dir: string, name: string, line: nat, column: nat, func: string)
    requires '/' !in name && name != [] && name != "." && name != ".."
    requires a.loader.findFrames(addr) ==
             Some(FrameIter([Ok(Some(Frame(None, Some(Location(Some(dir + "/" + name), Some(line), Some(column))))))]))
    requires a.loader.findSymbol(addr) == Some(func)
    requires !a.demangle || a.demangleAuto(func, None) == func
    ensures FramesSpec(a, addr) == name + ":" + Format.Decimal(line) + ":" + Format.Decimal(column) + ":" + func
  {
    FileNameAfterDirectory(dir, name);
    var it := a.loader.findFrames(addr).value;
    var frame := it.pulls[0].value.value;
    assert InnerNext(it, 0) == it.pulls[0] && InnerNext(it, 1) == Ok(None);
    var shown := [Shown(frame, Some(func))];
    assert [] + shown == shown;
    if a.doInlines {
      WalkAtEnd(a, addr, it, shown);
      assert Walk(a, addr, it, 0, None, []) == Walk(a, addr, it, 2, None, shown);
    }
    ChainOfSnoc(a, [], shown[0]);
  }

  /** Two frames are joined with `->`, the inlined one first. */
  lemma TwoFramesJoined(a: Addr2LineAnnotator, addr: nat, first: Frame, second: Frame)
    requires a.doInlines
    requires a.loader.findFrames(addr) == Some(FrameIter([Ok(Some(first)), Ok(Some(second))]))
    requires FrameText(a, first, None) != []
    ensures FramesSpec(a, addr) == FrameText(a, first, None) + "->" + FrameText(a, second, a.loader.findSymbol(addr))
  {
    var it := a.loader.findFrames(addr).value;
    var frames := [first, second];
    assert Clean(it, frames);
    CleanLookupRendersAll(a, addr, it, frames);
    var all := AllShown(frames, a.loader.findSymbol(addr));
    assert all == [Shown(first, None)] + [Shown(second, a.loader.findSymbol(addr))];
    ChainOfSnoc(a, [], Shown(first, None));
    assert [] + [Shown(first, None)] == [Shown(first, None)];
    ChainOfSnoc(a, [Shown(first, None)], Shown(second, a.loader.findSymbol(addr)));
  }

  // ---- The resolver ---------------------------------------------------------

  /** `annotate`: an address that does not parse is skipped; otherwise the chain and the address. */
  function AnnotateSpec(a: Addr2LineAnnotator, p: Placeholder): Result<Option<string>, string>
  {
    match Utils.StringToU64(p.value)
    case Err(_) => Ok(None)
    case Ok(addr) => Ok(Some(FramesSpec(a, addr) + " (0x" + Format.Hex08(addr) + ")"))
  }

  method Annotate(a: Addr2LineAnnotator, p: Placeholder) returns (r: Result<Option<string>, string>)
    ensures r == AnnotateSpec(a, p)
    ensures r.Ok?
    ensures r.value.None? <==> Utils.StringToU64(p.value).Err?
    ensures r.value.Some? ==>
              var addr := Utils.StringToU64(p.value).value;
              r.value.value == FramesSpec(a, addr) + " (0x" + Format.Hex08(addr) + ")"
  {
    var parsed := Utils.StringToU64(p.value);
    if parsed.Err? {
      return Ok(None);
    }
    var addr := parsed.value;
    var frames := FramesStr(a, addr);
    return Ok(Some(frames + " (0x" + Format.Hex08(addr) + ")"));
  }

  /** The address written after the chain reads back as the address that was looked up. */
  lemma AnnotatedAddressReadsBack(a: Addr2LineAnnotator, p: Placeholder)
    requires AnnotateSpec(a, p).Ok? && AnnotateSpec(a, p).value.Some?
    ensures exists chain, hex :: AnnotateSpec(a, p).value.value == chain + " (0x" + hex + ")"
                              && Utils.StringToU64("0x" + hex) == Utils.StringToU64(p.value)
  {
    var addr := Utils.StringToU64(p.value).value;
    Utils.HexRoundTripU64(addr);
    var chain, hex := FramesSpec(a, addr), Format.Hex08(addr);
    assert AnnotateSpec(a, p).value.value == chain + " (0x" + hex + ")";
  }
}
