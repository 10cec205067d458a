module OutlineExample {
  import opened Wrappers
  import opened Document
  import opened Outline
  import opened Text

  /** The outline of the unit test in scenario_outline.rs. */
  const Template := [
    Step(Given, "some " + "<text>", None),
    Step(Then, "the following text", Some(DocString("The text " + "<extra_text>" + "\nwith some extra bass")))]

  const Blocks := [
    TaggedScenarios([], ["extra_text", "text"], [["extra hihi", "hihi"]]),
    TaggedScenarios([], ["text", "extra_text"], [["hehe", "extra hehe"]]),
    TaggedScenarios([], ["text", "extra_text"], [["hoho", "extra hoho"]])]

  function Expected(name: string): Scenario {
    Scenario([], None, None, [
      Step(Given, "some " + name, None),
      Step(Then, "the following text", Some(DocString(Doc("extra " + name))))])
  }

  /** The doc-string of the test with `x` in the middle. */
  function Doc(x: string): string {
    "The text " + x + Tail
  }

  lemma TemplateDoc()
    ensures Template[1].data == Some(DocString(Doc(ExtraText)))
  {
  }

  lemma DocFree(x: string)
    requires Free(x, '<')
    ensures Free(Doc(x), '<')
  {
  }

  /** `c` does not occur in `s`. */
  predicate Free(s: string, c: char) {
    forall i :: 0 <= i < |s| ==> s[i] != c
  }

  lemma Fill(p: string, from: string, to: string, s: string)
    requires from != [] && Free(p, from[0]) && Free(s, from[0])
    ensures Replace(p + from + s, from, to) == p + to + s
  {
    assert p + from + s == p + (from + s);
    ReplaceKeepsPrefix(p, from + s, from, to);
    ReplaceAtStart(s, from, to);
    Untouched(s, from, to);
  }

  lemma Untouched(s: string, from: string, to: string)
    requires from != [] && Free(s, from[0])
    ensures Replace(s, from, to) == s
  {
    ReplaceKeepsPrefix(s, [], from, to);
    assert s + [] == s;
  }

  /** With two placeholders the fold is two rounds of replacement. */
  lemma SubstituteTwo(step: Step, ph: seq<string>, row: seq<string>)
    requires |row| == 2 <= |ph|
    ensures Substitute(step, ph, row)
         == ReplaceInStep(ReplaceInStep(step, Marker(ph[0]), row[0]), Marker(ph[1]), row[1])
  {
    var s1 := ReplaceInStep(step, Marker(ph[0]), row[0]);
    var s2 := ReplaceInStep(s1, Marker(ph[1]), row[1]);
    assert SubstituteFrom(step, ph, row, 0) == SubstituteFrom(s1, ph, row, 1);
    assert SubstituteFrom(s1, ph, row, 1) == SubstituteFrom(s2, ph, row, 2);
  }

  const ExtraText := "<extra_text>"
  const TextMarker := "<text>"
  const Tail := "\nwith some extra bass"

  lemma Markers()
    ensures Marker("extra_text") == ExtraText && Marker("text") == TextMarker
  {
  }

  /** "some <text>": only the second marker occurs. */
  lemma GivenDescription(name: string, extra: string)
    requires Free(name, '<')
    ensures Replace(Replace("some " + TextMarker, ExtraText, extra), TextMarker, name) == "some " + name
    ensures Replace(Replace("some " + TextMarker, TextMarker, name), ExtraText, extra) == "some " + name
  {
    assert "some " + TextMarker == "some " + TextMarker + [];
    Fill("some ", TextMarker, name, []);
    assert "some " + name + [] == "some " + name;
    Untouched("some " + name, ExtraText, extra);
    ReplaceKeepsPrefix("some ", TextMarker, ExtraText, extra);
    ReplaceShort(TextMarker, ExtraText, extra);
  }

  /** The doc-string: "<text>" is not a prefix of "<extra_text>". */
  lemma DocText(name: string)
    requires Free(name, '<')
    ensures Replace(Doc(ExtraText), TextMarker, name) == Doc(ExtraText)
  {
    var rest := "extra_text>" + Tail;
    assert Doc(ExtraText) == "The text " + (['<'] + rest);
    ReplaceKeepsPrefix("The text ", ['<'] + rest, TextMarker, name);
    assert !StartsWith(['<'] + rest, TextMarker) by {
      assert (['<'] + rest)[..6][1] == 'e';
    }
    ReplaceSkipsMismatch('<', rest, TextMarker, name);
    Untouched(rest, TextMarker, name);
  }

  lemma DocExtra(extra: string)
    requires Free(extra, '<')
    ensures Replace(Doc(ExtraText), ExtraText, extra) == Doc(extra)
  {
    Fill("The text ", ExtraText, extra, Tail);
  }

  predicate RowFor(name: string, ph: seq<string>, row: seq<string>) {
    (ph == ["extra_text", "text"] && row == ["extra " + name, name])
    || (ph == ["text", "extra_text"] && row == [name, "extra " + name])
  }

  lemma RowGiven(name: string, ph: seq<string>, row: seq<string>)
    requires Free(name, '<') && RowFor(name, ph, row)
    ensures Substitute(Template[0], ph, row) == Expected(name).steps[0]
  {
    Markers();
    SubstituteTwo(Template[0], ph, row);
    GivenDescription(name, "extra " + name);
  }

  /** The doc-string after both rounds, in either placeholder order. */
  lemma FilledDoc(name: string, m0: string, r0: string, m1: string, r1: string)
    requires Free(name, '<')
    requires (m0, r0, m1, r1) == (ExtraText, "extra " + name, TextMarker, name)
          || (m0, r0, m1, r1) == (TextMarker, name, ExtraText, "extra " + name)
    ensures Replace(Replace(Doc(ExtraText), m0, r0), m1, r1) == Doc("extra " + name)
  {
    var extra := "extra " + name;
    assert Free(extra, '<');
    if m0 == ExtraText {
      DocExtra(extra);
      DocFree(extra);
      Untouched(Doc(extra), TextMarker, name);
    } else {
      DocText(name);
      DocExtra(extra);
    }
  }

  /** The second step's description holds no '<'. */
  lemma NoMarkerInDescription(from: string, to: string)
    requires from != [] && from[0] == '<'
    ensures Replace("the following text", from, to) == "the following text"
  {
    assert Free("the following text", '<');
    Untouched("the following text", from, to);
  }

  lemma RowThen(name: string, ph: seq<string>, row: seq<string>)
    requires Free(name, '<') && RowFor(name, ph, row)
    ensures Substitute(Template[1], ph, row) == Expected(name).steps[1]
  {
    var extra := "extra " + name;
    var m0, m1 := Marker(ph[0]), Marker(ph[1]);
    assert m0 == ExtraText || m0 == TextMarker by { Markers(); }
    var s1 := ReplaceInStep(Template[1], m0, row[0]);
    var s2 := ReplaceInStep(s1, m1, row[1]);
    assert Substitute(Template[1], ph, row) == s2 by {
      SubstituteTwo(Template[1], ph, row);
    }
    assert s2.data == Some(DocString(Doc(extra))) by {
      TemplateDoc();
      Markers();
      FilledDoc(name, m0, row[0], m1, row[1]);
    }
    assert s2.description == "the following text" by {
      NoMarkerInDescription(m0, row[0]);
      NoMarkerInDescription(m1, row[1]);
    }
  }

  /** A block of one row expands to the expected scenario. */
  lemma BlockExample(o: ScenarioOutline, b: TaggedScenarios, name: string)
    requires o.steps == Template && o.name == None && o.description == None
    requires b.tags == [] && |b.values| == 1 && Free(name, '<') && RowFor(name, b.placeholders, b.values[0])
    ensures b.WellFormed() && BlockScenarios(o, b) == [Expected(name)]
  {
    RowGiven(name, b.placeholders, b.values[0]);
    RowThen(name, b.placeholders, b.values[0]);
    assert RowScenario(o, b, b.values[0]).steps == Expected(name).steps;
  }

  /** The unit test of scenario_outline.rs: three blocks of one row each
      expand to the hihi, hehe and hoho scenarios, in block order. */
  lemma ExpansionExample()
    ensures Scenarios(ScenarioOutline([], None, None, Template, Blocks))
         == [Expected("hihi"), Expected("hehe"), Expected("hoho")]
  {
    var o := ScenarioOutline([], None, None, Template, Blocks);
    assert "extra " + "hihi" == "extra hihi" && "extra " + "hehe" == "extra hehe" && "extra " + "hoho" == "extra hoho";
    BlockExample(o, Blocks[0], "hihi");
    BlockExample(o, Blocks[1], "hehe");
    BlockExample(o, Blocks[2], "hoho");
    var e0, e1, e2 := Expected("hihi"), Expected("hehe"), Expected("hoho");
    assert ExpandBlocks(o, Blocks[2..]) == [e2] by {
      assert Blocks[2..][1..] == [];
    }
    assert ExpandBlocks(o, Blocks[1..]) == [e1, e2] by {
      assert Blocks[1..][1..] == Blocks[2..];
    }
    assert ExpandBlocks(o, Blocks) == [e0, e1, e2];
  }
}
