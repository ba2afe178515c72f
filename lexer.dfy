/**
 * The `$kind:value` placeholder syntax of the annotation pass.
 *
 * A string is cut into text runs and placeholders. After a `$` the scanner
 * collects a kind up to the first `:`, then a value, and stops at a blank,
 * a line break or the next `$`. A candidate without a kind, a `:` or a value
 * is rejected, and then only the `$` is kept as text: the characters the
 * failed attempt scanned are dropped.
 */
module Lexer {
  import opened Wrappers

  datatype Placeholder = Placeholder(kind: string, value: string)

  /** `ParsedElement`: a run of text or a placeholder. */
  datatype ParsedElement = Text(text: string) | Hole(placeholder: Placeholder)

  /** The characters that end a placeholder without being consumed. */
  predicate IsStop(c: char)
  {
    c == ' ' || c == '\t' || c == '\n' || c == '\r' || c == '$'
  }

  /** A word that a placeholder scan reads through without stopping. */
  predicate NoStop(w: string)
  {
    forall c :: c in w ==> !IsStop(c)
  }

  /** Where `parse_placeholder` stops: what it collected, whether it passed a `:`, and the unread input. */
  datatype Scan = Scan(kind: string, value: string, sawColon: bool, rest: string)

  /** The scanning loop of `parse_placeholder`, continued from the given state. */
  function ScanFrom(s: string, kind: string, value: string, sawColon: bool): (r: Scan)
    ensures |r.rest| <= |s|
    ensures r.rest == [] || IsStop(r.rest[0])
    decreases |s|
  {
    if s == [] || IsStop(s[0]) then Scan(kind, value, sawColon, s)
    else if s[0] == ':' && !sawColon then ScanFrom(s[1..], kind, value, true)
    else if !sawColon then ScanFrom(s[1..], kind + [s[0]], value, false)
    else ScanFrom(s[1..], kind, value + [s[0]], true)
  }

  /** A scan yields a placeholder exactly when it has a kind, a `:` and a value. */
  function Accept(sc: Scan): (p: Option<Placeholder>)
    ensures p.Some? <==> sc.kind != [] && sc.sawColon && sc.value != []
    ensures p.Some? ==> p.value == Placeholder(sc.kind, sc.value)
  {
    if sc.kind != [] && sc.sawColon && sc.value != [] then Some(Placeholder(sc.kind, sc.value)) else None
  }

  function Flush(cur: string): seq<ParsedElement>
  {
    if cur == [] then [] else [Text(cur)]
  }

  /** `parse_string` from some point on, with the pending text `cur`. */
  function LexFrom(s: string, cur: string): seq<ParsedElement>
    decreases |s|
  {
    if s == [] then Flush(cur)
    else if s[0] != '$' then LexFrom(s[1..], cur + [s[0]])
    else
      var sc := ScanFrom(s[1..], [], [], false);
      match Accept(sc)
      case Some(p) => Flush(cur) + [Hole(p)] + LexFrom(sc.rest, [])
      case None => Flush(cur) + LexFrom(sc.rest, "$")
  }

  function Lex(input: string): seq<ParsedElement>
  {
    LexFrom(input, [])
  }

  // ---- The loops ----------------------------------------------------------

  /** `parse_placeholder`, reading `input` from `start`; returns the position it stopped at. */
  method ParsePlaceholder(input: string, start: nat) returns (p: Option<Placeholder>, next: nat)
    requires start <= |input|
    ensures var sc := ScanFrom(input[start..], [], [], false);
            p == Accept(sc) && start <= next <= |input| && input[next..] == sc.rest
  {
    var kind: string := [];
    var value: string := [];
    var parsingKind := true;
    next := start;
    while next < |input|
      invariant start <= next <= |input|
      invariant ScanFrom(input[start..], [], [], false) == ScanFrom(input[next..], kind, value, !parsingKind)
      decreases |input| - next
    {
      var ch := input[next];
      assert input[next..][0] == ch && input[next..][1..] == input[next + 1..];
      if ch == ':' && parsingKind {
        next := next + 1;
        parsingKind := false;
      } else if IsStop(ch) {
        break;
      } else {
        next := next + 1;
        if parsingKind {
          kind := kind + [ch];
        } else {
          value := value + [ch];
        }
      }
    }
    if kind != [] && !parsingKind && value != [] {
      p := Some(Placeholder(kind, value));
    } else {
      p := None;
    }
  }

  /** One step of `LexFrom` at position `i` of `input`, on a `$`. */
  lemma LexStepDollar(input: string, i: nat, cur: string)
    requires i < |input| && input[i] == '$'
    ensures LexFrom(input[i..], cur) == Flush(cur) + match Accept(ScanFrom(input[i + 1..], [], [], false))
              case Some(p) => [Hole(p)] + LexFrom(ScanFrom(input[i + 1..], [], [], false).rest, [])
              case None => LexFrom(ScanFrom(input[i + 1..], [], [], false).rest, "$")
  {
    assert input[i..][0] == '$' && input[i..][1..] == input[i + 1..];
  }

  /** One step of `LexFrom` at position `i` of `input`, on any other character. */
  lemma LexStepText(input: string, i: nat, cur: string)
    requires i < |input| && input[i] != '$'
    ensures LexFrom(input[i..], cur) == LexFrom(input[i + 1..], cur + [input[i]])
  {
    assert input[i..][0] == input[i] && input[i..][1..] == input[i + 1..];
  }

  /** One turn of the `parse_string` loop: consumes the character at `i`, and a placeholder after a `$`. */
  method ParseStep(input: string, i: nat, result: seq<ParsedElement>, current: string)
    returns (i': nat, result': seq<ParsedElement>, current': string)
    requires i < |input|
    ensures i < i' <= |input|
    ensures result + LexFrom(input[i..], current) == result' + LexFrom(input[i'..], current')
  {
    var ch := input[i];
    if ch != '$' {
      LexStepText(input, i, current);
      return i + 1, result, current + [ch];
    }
    LexStepDollar(input, i, current);
    result' := result;
    if current != [] {
      result' := result' + [Text(current)];
    }
    assert result' == result + Flush(current);
    var p, next := ParsePlaceholder(input, i + 1);
    i' := next;
    if p.Some? {
      result' := result' + [Hole(p.value)];
      current' := [];
    } else {
      current' := "$";
    }
  }

  /** `parse_string`. */
  method ParseString(input: string) returns (result: seq<ParsedElement>)
    ensures result == Lex(input)
  {
    result := [];
    var current: string := [];
    var i := 0;
    while i < |input|
      invariant 0 <= i <= |input|
      invariant Lex(input) == result + LexFrom(input[i..], current)
      decreases |input| - i
    {
      i, result, current := ParseStep(input, i, result, current);
    }
    if current != [] {
      result := result + [Text(current)];
    }
  }

  // ---- What the syntax means ----------------------------------------------

  /** Text without a `$` is carried over as one run. */
  lemma {:induction false} LexText(t: string, s: string, cur: string)
    requires '$' !in t
    ensures LexFrom(t + s, cur) == LexFrom(s, cur + t)
    decreases |t|
  {
    if t == [] {
      assert t + s == s && cur + t == cur;
    } else {
      assert (t + s)[0] == t[0] && (t + s)[1..] == t[1..] + s;
      LexText(t[1..], s, cur + [t[0]]);
      assert cur + [t[0]] + t[1..] == cur + t;
    }
  }

  /** A string with no `$` is a single text element, or nothing when it is empty. */
  lemma LexNoPlaceholder(s: string)
    requires '$' !in s
    ensures Lex(s) == (if s == [] then [] else [Text(s)])
  {
    LexText(s, [], []);
    assert s + [] == s && [] + s == s;
  }

  /** A word with no stop characters is scanned whole, into the kind or into the value. */
  lemma {:induction false} ScanWord(w: string, s: string, kind: string, value: string, sawColon: bool)
    requires NoStop(w)
    requires !sawColon ==> ':' !in w
    ensures ScanFrom(w + s, kind, value, sawColon)
         == if sawColon then ScanFrom(s, kind, value + w, true) else ScanFrom(s, kind + w, value, false)
    decreases |w|
  {
    if w == [] {
      assert w + s == s && kind + w == kind && value + w == value;
    } else {
      assert (w + s)[0] == w[0] && (w + s)[1..] == w[1..] + s;
      assert w[0] in w;
      assert forall c :: c in w[1..] ==> c in w;
      if sawColon {
        ScanWord(w[1..], s, kind, value + [w[0]], true);
        assert value + [w[0]] + w[1..] == value + w;
      } else {
        ScanWord(w[1..], s, kind + [w[0]], value, false);
        assert kind + [w[0]] + w[1..] == kind + w;
      }
    }
  }

  /** The first `:` switches the scan from the kind to the value. */
  lemma ScanColon(x: string, kind: string)
    ensures ScanFrom(":" + x, kind, [], false) == ScanFrom(x, kind, [], true)
  {
    assert (":" + x)[0] == ':' && (":" + x)[1..] == x;
  }

  /** A kind and its `:` are scanned into the kind, which leaves the scan in the value. */
  lemma ScanKind(k: string, x: string)
    requires NoStop(k)
    requires ':' !in k
    ensures ScanFrom(k + ":" + x, [], [], false) == ScanFrom(x, k, [], true)
  {
    var none: string := [];
    assert k + ":" + x == k + (":" + x);
    ScanWord(k, ":" + x, none, none, false);
    assert none + k == k;
    ScanColon(x, k);
  }

  /** A value is scanned whole, up to the stop that follows it. */
  lemma ScanValue(k: string, v: string, rest: string)
    requires NoStop(v)
    requires rest == [] || IsStop(rest[0])
    ensures ScanFrom(v + rest, k, [], true) == Scan(k, v, true, rest)
  {
    var none: string := [];
    ScanWord(v, rest, k, none, true);
    assert none + v == v;
  }

  /** The kind ends at the first `:`; any later `:` belongs to the value. */
  lemma ScanPlaceholder(k: string, v: string, rest: string)
    requires NoStop(k)
    requires NoStop(v)
    requires ':' !in k
    requires rest == [] || IsStop(rest[0])
    ensures ScanFrom(k + ":" + v + rest, [], [], false) == Scan(k, v, true, rest)
  {
    assert k + ":" + v + rest == k + ":" + (v + rest);
    ScanKind(k, v + rest);
    ScanValue(k, v, rest);
  }

  /** A well-formed placeholder becomes one element; the pending text before it is emitted first. */
  lemma LexPlaceholder(cur: string, k: string, v: string, rest: string)
    requires k != [] && v != []
    requires NoStop(k)
    requires NoStop(v)
    requires ':' !in k
    requires rest == [] || IsStop(rest[0])
    ensures LexFrom("$" + k + ":" + v + rest, cur) == Flush(cur) + [Hole(Placeholder(k, v))] + LexFrom(rest, [])
  {
    var s := "$" + k + ":" + v + rest;
    assert s[0] == '$' && s[1..] == k + ":" + v + rest;
    ScanPlaceholder(k, v, rest);
  }

  /**
   * A candidate with no `:` is rejected: only its `$` survives, as the start of
   * the next text run, and the word it scanned is lost.
   */
  lemma LexRejected(cur: string, w: string, rest: string)
    requires NoStop(w)
    requires ':' !in w
    requires rest == [] || IsStop(rest[0])
    ensures LexFrom("$" + w + rest, cur) == Flush(cur) + LexFrom(rest, "$")
  {
    var s := "$" + w + rest;
    assert s[0] == '$' && s[1..] == w + rest;
    ScanWord(w, rest, [], [], false);
    assert [] + w == w;
  }

  /** The input `$kind:value` is exactly one placeholder. */
  lemma OnlyPlaceholderExample()
    ensures Lex("$kind:value") == [Hole(Placeholder("kind", "value"))]
  {
    assert "$kind:value" == "$" + "kind" + ":" + "value" + [];
    LexPlaceholder([], "kind", "value", []);
  }

  /** A text run followed by a well-formed placeholder gives a text element and then a placeholder element. */
  lemma LexTextThenPlaceholder(t: string, k: string, v: string, rest: string)
    requires '$' !in t && t != []
    requires k != [] && v != []
    requires NoStop(k)
    requires NoStop(v)
    requires ':' !in k
    requires rest == [] || IsStop(rest[0])
    ensures LexFrom(t + ("$" + k + ":" + v + rest), []) == [Text(t), Hole(Placeholder(k, v))] + LexFrom(rest, [])
  {
    var hole := "$" + k + ":" + v + rest;
    var none: string := [];
    var after := LexFrom(rest, []);
    calc {
      LexFrom(t + hole, none);
      { LexText(t, hole, none); assert none + t == t; }
      LexFrom(hole, t);
      { LexPlaceholder(t, k, v, rest); }
      Flush(t) + [Hole(Placeholder(k, v))] + after;
      { assert Flush(t) == [Text(t)]; }
      [Text(t)] + [Hole(Placeholder(k, v))] + after;
      [Text(t), Hole(Placeholder(k, v))] + after;
    }
  }

  /** Text, placeholder, text, placeholder: four elements, in input order. */
  lemma LexTwoPlaceholders(t1: string, k1: string, v1: string, t2: string, k2: string, v2: string)
    requires '$' !in t1 && t1 != [] && '$' !in t2 && t2 != []
    requires k1 != [] && v1 != [] && k2 != [] && v2 != []
    requires NoStop(k1)
    requires NoStop(v1)
    requires NoStop(k2)
    requires NoStop(v2)
    requires ':' !in k1 && ':' !in k2
    requires IsStop(t2[0])
    ensures Lex(t1 + ("$" + k1 + ":" + v1 + (t2 + ("$" + k2 + ":" + v2 + []))))
         == [Text(t1), Hole(Placeholder(k1, v1)), Text(t2), Hole(Placeholder(k2, v2))]
  {
    var tail := t2 + ("$" + k2 + ":" + v2 + []);
    assert tail[0] == t2[0];
    LexTextThenPlaceholder(t1, k1, v1, tail);
    LexTextThenPlaceholder(t2, k2, v2, []);
    assert LexFrom([], []) == [];
  }

  /** The mixed sentence alternates text and placeholders, the last one taking the `!` into its value. */
  lemma MixedContentExample(s: string)
    requires s == "Hello $name:Silvano and welcome to $place:ETH!"
    ensures Lex(s)
         == [ Text("Hello "), Hole(Placeholder("name", "Silvano")),
              Text(" and welcome to "), Hole(Placeholder("place", "ETH!")) ]
  {
    var k1, v1, k2, v2 := "name", "Silvano", "place", "ETH!";
    MixedContentPieces(k1, v1, k2, v2);
    MixedContentWords(k1, v1, k2, v2);
    LexTwoPlaceholders("Hello ", k1, v1, " and welcome to ", k2, v2);
  }

  /** The mixed sentence cut into its text runs and placeholders. */
  lemma MixedContentPieces(k1: string, v1: string, k2: string, v2: string)
    requires k1 == "name" && v1 == "Silvano" && k2 == "place" && v2 == "ETH!"
    ensures "Hello $name:Silvano and welcome to $place:ETH!"
         == "Hello " + ("$" + k1 + ":" + v1 + (" and welcome to " + ("$" + k2 + ":" + v2 + [])))
  {
  }

  /** The kinds and values of the mixed sentence hold no stop character. */
  lemma MixedContentWords(k1: string, v1: string, k2: string, v2: string)
    requires k1 == "name" && v1 == "Silvano" && k2 == "place" && v2 == "ETH!"
    ensures NoStop(k1)
    ensures NoStop(v1)
    ensures NoStop(k2)
    ensures NoStop(v2)
  {
  }

  /** `$ab cd` has no `:` after the `$`: the result is the text `$ cd`, without `ab`. */
  lemma RejectedExample()
    ensures Lex("$ab cd") == [Text("$ cd")]
  {
    assert "$ab cd" == "$" + "ab" + " cd";
    LexRejected([], "ab", " cd");
    LexText(" cd", [], "$");
    assert " cd" + [] == " cd" && "$" + " cd" == "$ cd";
  }
}
