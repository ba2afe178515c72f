/**
 * The string-annotation examples of the annotation pass, with a resolver
 * that capitalises the value of `cap` placeholders.
 */
module AnnotateExamples {
  import opened Wrappers
  import opened Lexer
  import opened Annotate

  /** ASCII upper case: the letters `a` to `z` and nothing else change. */
  function Upper(s: string): (r: string)
    ensures |r| == |s|
    ensures forall i :: 0 <= i < |s| ==> r[i] == (if 'a' <= s[i] <= 'z' then (s[i] as int - 32) as char else s[i])
  {
    if s == [] then []
    else [if 'a' <= s[0] <= 'z' then (s[0] as int - 32) as char else s[0]] + Upper(s[1..])
  }

  /** The test resolver: answers `cap` placeholders with the value in upper case, and nothing else. */
  function Capitalize(p: Placeholder): Result<Option<string>, string>
  {
    if p.kind == "cap" then Ok(Some(Upper(p.value))) else Ok(None)
  }

  /** A registry holding the test resolver under `cap`. */
  function CapRegistry(): (reg: Registry)
    ensures WellKeyed(reg)
    ensures reg.Keys == {"cap"}
  {
    map["cap" := Custom(["cap"], Capitalize)]
  }

  /** Substituting two runs of parts one after the other. */
  lemma {:induction false} SubstituteAppend(reg: Registry, xs: seq<ParsedElement>, ys: seq<ParsedElement>)
    requires WellKeyed(reg)
    requires SubstituteAll(reg, xs).Ok? && SubstituteAll(reg, ys).Ok?
    ensures SubstituteAll(reg, xs + ys)
         == Ok((SubstituteAll(reg, xs).value.0 + SubstituteAll(reg, ys).value.0,
                SubstituteAll(reg, xs).value.1 || SubstituteAll(reg, ys).value.1))
    decreases |ys|
  {
    if ys == [] {
      assert xs + ys == xs;
      assert SubstituteAll(reg, ys) == Ok(([], false));
      assert SubstituteAll(reg, xs).value.0 + [] == SubstituteAll(reg, xs).value.0;
    } else {
      var init, last := ys[..|ys| - 1], ys[|ys| - 1];
      assert SubstituteAll(reg, init).Ok? && SubstElement(reg, last).Ok?;
      assert (xs + ys)[..|xs + ys| - 1] == xs + init;
      assert (xs + ys)[|xs + ys| - 1] == last;
      SubstituteAppend(reg, xs, init);
      var (o1, d1) := SubstituteAll(reg, xs).value;
      var (oi, di) := SubstituteAll(reg, init).value;
      var (t, d) := SubstElement(reg, last).value;
      assert SubstituteAll(reg, ys) == Ok((oi + [t], di || d));
      assert SubstituteAll(reg, xs + ys) == Ok(((o1 + oi) + [t], (d1 || di) || d));
      assert (o1 + oi) + [t] == o1 + (oi + [t]);
    }
  }

  lemma {:induction false} ConcatAppend(a: seq<string>, b: seq<string>)
    ensures Concat(a + b) == Concat(a) + Concat(b)
    decreases |b|
  {
    if b == [] {
      assert a + b == a;
    } else {
      var init, last := b[..|b| - 1], b[|b| - 1];
      assert (a + b)[..|a + b| - 1] == a + init && (a + b)[|a + b| - 1] == last;
      ConcatAppend(a, init);
      calc {
        Concat(a + b);
        Concat(a + init) + last;
        (Concat(a) + Concat(init)) + last;
        Concat(a) + (Concat(init) + last);
        Concat(a) + Concat(b);
      }
    }
  }

  /** A text run followed by a placeholder, substituted. */
  lemma SubstTextHole(reg: Registry, t: string, p: Placeholder)
    requires WellKeyed(reg)
    requires SubstElement(reg, Hole(p)).Ok?
    ensures SubstituteAll(reg, [Text(t), Hole(p)])
         == Ok(([t, SubstElement(reg, Hole(p)).value.0], SubstElement(reg, Hole(p)).value.1))
  {
    var parts := [Text(t), Hole(p)];
    assert parts[..1] == [Text(t)] && parts[1] == Hole(p);
    assert SubstituteAll(reg, [Text(t)]) == Ok(([t], false)) by {
      assert [Text(t)][..0] == [];
      assert SubstituteAll(reg, []) == Ok(([], false));
      var empty: seq<string> := [];
      assert empty + [t] == [t];
    }
    var (r, d) := SubstElement(reg, Hole(p)).value;
    assert SubstituteAll(reg, parts) == Ok(([t] + [r], false || d));
    assert [t] + [r] == [t, r];
  }

  /** The parts of a text run, a `cap` placeholder and a text run. */
  lemma LexCapBetween(t1: string, w: string, t2: string)
    requires '$' !in t1 && t1 != [] && '$' !in t2 && t2 != []
    requires w != [] && NoStop(w)
    requires IsStop(t2[0])
    ensures Lex(t1 + ("$" + "cap" + ":" + w + t2)) == [Text(t1), Hole(Placeholder("cap", w)), Text(t2)]
  {
    assert NoStop("cap");
    LexTextThenPlaceholder(t1, "cap", w, t2);
    LexNoPlaceholder(t2);
  }

  /** Substituting those parts: the placeholder is answered with its value in upper case. */
  lemma SubstCapBetween(t1: string, w: string, t2: string)
    ensures SubstituteAll(CapRegistry(), [Text(t1), Hole(Placeholder("cap", w)), Text(t2)])
         == Ok(([t1, Upper(w), t2], true))
  {
    var reg := CapRegistry();
    var p := Placeholder("cap", w);
    assert Resolve(reg["cap"], p) == Ok(Some(Upper(w)));
    SubstTextHole(reg, t1, p);
    assert SubstituteAll(reg, [Text(t2)]) == Ok(([t2], false)) by {
      assert [Text(t2)][..0] == [];
      assert SubstituteAll(reg, []) == Ok(([], false));
      var empty: seq<string> := [];
      assert empty + [t2] == [t2];
    }
    SubstituteAppend(reg, [Text(t1), Hole(p)], [Text(t2)]);
    assert [Text(t1), Hole(p)] + [Text(t2)] == [Text(t1), Hole(p), Text(t2)];
    assert [t1, Upper(w)] + [t2] == [t1, Upper(w), t2];
  }

  lemma ConcatThree(a: string, b: string, c: string)
    ensures Concat([a, b, c]) == a + b + c
  {
    assert [a, b, c][..2] == [a, b] && [a, b][..1] == [a] && [a][..0] == [];
    assert Concat([a]) == a by {
      var empty: seq<string> := [];
      assert Concat(empty) == [];
    }
  }

  /** A text run, a `cap` placeholder and a text run: the placeholder is capitalised and the string rewritten. */
  lemma CapitalizeBetween(t1: string, w: string, t2: string)
    requires '$' !in t1 && t1 != [] && '$' !in t2 && t2 != []
    requires w != [] && NoStop(w)
    requires IsStop(t2[0])
    ensures AnnotateStringSpec(CapRegistry(), t1 + ("$" + "cap" + ":" + w + t2)) == Ok((t1 + Upper(w) + t2, true))
  {
    LexCapBetween(t1, w, t2);
    SubstCapBetween(t1, w, t2);
    ConcatThree(t1, Upper(w), t2);
  }

  /** `Hello, $cap:world !` becomes `Hello, WORLD !`, and the call reports a change. */
  lemma CapitalizeExample()
    ensures AnnotateStringSpec(CapRegistry(), "Hello, $cap:world !") == Ok(("Hello, WORLD !", true))
  {
    var t1, w, t2 := "Hello, ", "world", " !";
    CapitalizeExampleShape(t1, w, t2);
    CapitalizeExampleText(t1, w, t2);
    CapitalizeBetween(t1, w, t2);
  }

  lemma CapitalizeExampleShape(t1: string, w: string, t2: string)
    requires t1 == "Hello, " && w == "world" && t2 == " !"
    ensures "Hello, $cap:world !" == t1 + ("$" + "cap" + ":" + w + t2)
    ensures '$' !in t1 && '$' !in t2 && IsStop(t2[0])
    ensures NoStop(w)
  {
  }

  lemma CapitalizeExampleText(t1: string, w: string, t2: string)
    requires t1 == "Hello, " && w == "world" && t2 == " !"
    ensures t1 + Upper(w) + t2 == "Hello, WORLD !"
  {
    assert Upper(w) == "WORLD";
  }

  /** Text, `cap`, text, `other`, text, `cap`: six parts, in order. */
  lemma LexMixed(a: string, x: string, b: string, y: string, c: string, z: string)
    requires '$' !in a && a != [] && '$' !in b && b != [] && '$' !in c && c != []
    requires x != [] && NoStop(x)
    requires y != [] && NoStop(y)
    requires z != [] && NoStop(z)
    requires IsStop(b[0]) && IsStop(c[0])
    ensures Lex(a + ("$" + "cap" + ":" + x + (b + ("$" + "other" + ":" + y + (c + ("$" + "cap" + ":" + z + []))))))
         == [Text(a), Hole(Placeholder("cap", x)), Text(b), Hole(Placeholder("other", y)), Text(c), Hole(Placeholder("cap", z))]
  {
    assert NoStop("cap");
    assert NoStop("other");
    var rest2 := c + ("$" + "cap" + ":" + z + []);
    var rest1 := b + ("$" + "other" + ":" + y + rest2);
    assert rest1[0] == b[0] && rest2[0] == c[0];
    LexTextThenPlaceholder(a, "cap", x, rest1);
    LexTextThenPlaceholder(b, "other", y, rest2);
    LexTextThenPlaceholder(c, "cap", z, []);
    assert LexFrom([], []) == [];
  }

  /** A `cap` placeholder is answered with its value in upper case. */
  lemma CapAnswered(x: string)
    ensures SubstElement(CapRegistry(), Hole(Placeholder("cap", x))) == Ok((Upper(x), true))
  {
    assert Resolve(CapRegistry()["cap"], Placeholder("cap", x)) == Ok(Some(Upper(x)));
  }

  /** A placeholder of a kind with no resolver is written back as it was read. */
  lemma OtherWrittenBack(y: string)
    ensures SubstElement(CapRegistry(), Hole(Placeholder("other", y))) == Ok(("$" + "other" + ":" + y, false))
  {
    assert "other" !in CapRegistry();
  }

  /** Three runs of a text and a placeholder, substituted under any registry that answers all three. */
  lemma SubstThreePairs(reg: Registry, a: string, px: Placeholder, b: string, py: Placeholder, c: string, pz: Placeholder)
    requires WellKeyed(reg)
    requires SubstElement(reg, Hole(px)).Ok? && SubstElement(reg, Hole(py)).Ok? && SubstElement(reg, Hole(pz)).Ok?
    ensures var (rx, dx) := SubstElement(reg, Hole(px)).value;
            var (ry, dy) := SubstElement(reg, Hole(py)).value;
            var (rz, dz) := SubstElement(reg, Hole(pz)).value;
            SubstituteAll(reg, [Text(a), Hole(px), Text(b), Hole(py), Text(c), Hole(pz)])
              == Ok(([a, rx, b, ry, c, rz], dx || dy || dz))
  {
    SubstTextHole(reg, a, px);
    SubstTextHole(reg, b, py);
    SubstTextHole(reg, c, pz);
    SubstituteAppend(reg, [Text(a), Hole(px)], [Text(b), Hole(py)]);
    SubstituteAppend(reg, [Text(a), Hole(px)] + [Text(b), Hole(py)], [Text(c), Hole(pz)]);
    assert [Text(a), Hole(px)] + [Text(b), Hole(py)] + [Text(c), Hole(pz)]
        == [Text(a), Hole(px), Text(b), Hole(py), Text(c), Hole(pz)];
    var rx, ry, rz := SubstElement(reg, Hole(px)).value.0, SubstElement(reg, Hole(py)).value.0, SubstElement(reg, Hole(pz)).value.0;
    assert [a, rx] + [b, ry] + [c, rz] == [a, rx, b, ry, c, rz];
  }

  /** Substituting those six parts: both `cap` placeholders are answered, the `other` one is written back. */
  lemma SubstMixed(a: string, x: string, b: string, y: string, c: string, z: string)
    ensures SubstituteAll(CapRegistry(),
              [Text(a), Hole(Placeholder("cap", x)), Text(b), Hole(Placeholder("other", y)), Text(c), Hole(Placeholder("cap", z))])
         == Ok(([a, Upper(x), b, "$" + "other" + ":" + y, c, Upper(z)], true))
  {
    CapAnswered(x);
    OtherWrittenBack(y);
    CapAnswered(z);
    SubstThreePairs(CapRegistry(), a, Placeholder("cap", x), b, Placeholder("other", y), c, Placeholder("cap", z));
  }

  lemma ConcatSix(a: string, b: string, c: string, d: string, e: string, f: string)
    ensures Concat([a, b, c, d, e, f]) == a + b + c + d + e + f
  {
    ConcatThree(a, b, c);
    ConcatThree(d, e, f);
    ConcatAppend([a, b, c], [d, e, f]);
    assert [a, b, c] + [d, e, f] == [a, b, c, d, e, f];
  }

  /** The general shape of the mixed-placeholder case. */
  lemma CapitalizeMixed(a: string, x: string, b: string, y: string, c: string, z: string)
    requires '$' !in a && a != [] && '$' !in b && b != [] && '$' !in c && c != []
    requires x != [] && NoStop(x)
    requires y != [] && NoStop(y)
    requires z != [] && NoStop(z)
    requires IsStop(b[0]) && IsStop(c[0])
    ensures AnnotateStringSpec(CapRegistry(),
              a + ("$cap:" + x) + b + ("$other:" + y) + c + ("$cap:" + z))
         == Ok((a + Upper(x) + b + ("$other:" + y) + c + Upper(z), true))
  {
    assert "$cap:" == "$" + "cap" + ":" && "$other:" == "$" + "other" + ":";
    assert a + ("$cap:" + x) + b + ("$other:" + y) + c + ("$cap:" + z)
        == a + ("$" + "cap" + ":" + x + (b + ("$" + "other" + ":" + y + (c + ("$" + "cap" + ":" + z + [])))));
    LexMixed(a, x, b, y, c, z);
    SubstMixed(a, x, b, y, c, z);
    ConcatSix(a, Upper(x), b, "$" + "other" + ":" + y, c, Upper(z));
  }

  /** `Process $cap:main with $other:value and $cap:thread`: the unknown kind is written back as it was. */
  lemma MixedPlaceholdersExample()
    ensures AnnotateStringSpec(CapRegistry(), "Process " + "$cap:main" + " with " + "$other:value" + " and " + "$cap:thread")
         == Ok(("Process " + "MAIN" + " with " + "$other:value" + " and " + "THREAD", true))
  {
    var a, x, b, y, c, z := "Process ", "main", " with ", "value", " and ", "thread";
    MixedExampleWords(a, x, b, y, c, z);
    MixedExamplePieces(x, y, z);
    UpperWords();
    CapitalizeMixed(a, x, b, y, c, z);
  }

  lemma MixedExamplePieces(x: string, y: string, z: string)
    requires x == "main" && y == "value" && z == "thread"
    ensures "$cap:main" == "$cap:" + x && "$other:value" == "$other:" + y && "$cap:thread" == "$cap:" + z
  {
  }

  lemma MixedExampleWords(a: string, x: string, b: string, y: string, c: string, z: string)
    requires a == "Process " && x == "main" && b == " with " && y == "value" && c == " and " && z == "thread"
    ensures '$' !in a && '$' !in b && '$' !in c && IsStop(b[0]) && IsStop(c[0])
    ensures NoStop(x)
    ensures NoStop(y)
    ensures NoStop(z)
  {
  }

  lemma UpperWords()
    ensures Upper("main") == "MAIN"
    ensures Upper("thread") == "THREAD"
  {
  }

  /** `Hello $unknown:world` with no resolvers is left as it is, and no change is reported. */
  lemma NoMatchingAnnotatorExample()
    ensures AnnotateStringSpec(map[], "Hello $unknown:world") == Ok(("Hello $unknown:world", false))
  {
    EmptyRegistryKeepsStrings("Hello $unknown:world");
  }
}
