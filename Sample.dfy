/**
 * The three-state automaton of dfa/test/dfa_test.cc over the alphabet
 * {0, 1}: the description text is read back into the expected fields and
 * the listed words get their expected outcomes.
 */
module Sample {
  import opened Wrappers
  import opened DfaTypes
  import opened TextFormat
  import opened Description
  import opened Recognizer
  import Engine

  /** The lines of the description text of the tests. */
  const SampleLines: seq<string> := [
    "states: q1 q2 q3",
    "alphabet: 0 1",
    "startstate: q1",
    "finalstate: q2",
    "transition: q1 0 q1",
    "transition: q1 1 q2",
    "transition: q2 0 q3",
    "transition: q2 1 q2",
    "transition: q3 0 q2",
    "transition: q3 1 q2"
  ]

  /** The description text of the tests: its lines separated by newlines, with none at the end. */
  const SampleText: string := Join(SampleLines)

  /** The lines of the sample text, lexed. */
  const SampleDirectives: seq<Directive> := [
    Directive(States, ["q1", "q2", "q3"]),
    Directive(Alphabet, ["0", "1"]),
    Directive(StartState, ["q1"]),
    Directive(FinalState, ["q2"]),
    Directive(Transition, ["q1", "0", "q1"]),
    Directive(Transition, ["q1", "1", "q2"]),
    Directive(Transition, ["q2", "0", "q3"]),
    Directive(Transition, ["q2", "1", "q2"]),
    Directive(Transition, ["q3", "0", "q2"]),
    Directive(Transition, ["q3", "1", "q2"])
  ]

  /** The automaton the tests expect. */
  function SampleAutomaton(): Automaton {
    var q1, q2, q3 := Singleton("q1"), Singleton("q2"), Singleton("q3");
    Automaton(
      {q1, q2, q3},
      {"0", "1"},
      map[q1 := map["0" := q1, "1" := q2],
          q2 := map["0" := q3, "1" := q2],
          q3 := map["0" := q2, "1" := q2]],
      q1,
      {q2})
  }

  /** The fields after the first k lines of the sample text have been read. */
  function Stage(k: nat): Automaton
  {
    var q1, q2, q3 := Singleton("q1"), Singleton("q2"), Singleton("q3");
    var sections := Automaton({q1, q2, q3}, {"0", "1"}, map[], q1, {q2});
    match k
    case 0 => EmptyAutomaton()
    case 1 => EmptyAutomaton().(states := {q1, q2, q3})
    case 2 => EmptyAutomaton().(states := {q1, q2, q3}, alphabet := {"0", "1"})
    case 3 => sections.(finals := {})
    case 4 => sections
    case 5 => sections.(transitions := map[q1 := map["0" := q1]])
    case 6 => sections.(transitions := map[q1 := map["0" := q1, "1" := q2]])
    case 7 => sections.(transitions := map[q1 := map["0" := q1, "1" := q2], q2 := map["0" := q3]])
    case 8 => sections.(transitions := map[q1 := map["0" := q1, "1" := q2], q2 := map["0" := q3, "1" := q2]])
    case 9 => sections.(transitions := map[q1 := map["0" := q1, "1" := q2], q2 := map["0" := q3, "1" := q2],
                                        q3 := map["0" := q2]])
    case _ => SampleAutomaton()
  }

  /**
   * Line k is directive d written out, d is well formed, and reading it takes
   * the fields from before to after.
   */
  predicate ReadsAs(line: string, d: Directive, before: Automaton, after: Automaton) {
    Render(d) == line && d.tokens != [] && AllTokens(d.tokens) && Apply(before, d) == after
  }

  /** Parsing lines that each read as the next directive ends at the last stage. */
  lemma ParseThrough(ls: seq<string>, ds: seq<Directive>, stages: seq<Automaton>)
    requires |ls| == |ds| && |stages| == |ds| + 1 && stages[0] == EmptyAutomaton()
    requires forall k :: 0 <= k < |ds| ==> ReadsAs(ls[k], ds[k], stages[k], stages[k + 1])
    ensures Parse(Join(ls)) == Success(stages[|ds|])
  {
    forall k | 0 <= k < |ds|
      ensures Render(ds[k]) == ls[k] && ds[k].tokens != [] && AllTokens(ds[k].tokens)
      ensures Apply(stages[k], ds[k]) == stages[k + 1]
    {
      assert ReadsAs(ls[k], ds[k], stages[k], stages[k + 1]);
    }
    var rendered := RenderAll(ds);
    assert rendered == ls;
    ParseOfRendered(ds);
    ApplyAllThrough(EmptyAutomaton(), ds, stages);
  }

  /** The states line of the sample names three distinct singleton states. */
  lemma ThreeSingletons()
    ensures Singletons(["q1", "q2", "q3"]) == {Singleton("q1"), Singleton("q2"), Singleton("q3")}
  {
    var ts := ["q1", "q2", "q3"];
    var r := Singletons(ts);
    forall s | s in r ensures s in {Singleton("q1"), Singleton("q2"), Singleton("q3")} {
      var n :| n in ts && s == Singleton(n);
    }
  }

  lemma SampleLine0()
    ensures ReadsAs(SampleLines[0], SampleDirectives[0], Stage(0), Stage(1))
  {
    ThreeSingletons();
  }

  lemma SampleLine1()
    ensures ReadsAs(SampleLines[1], SampleDirectives[1], Stage(1), Stage(2))
  {
  }

  lemma SampleLine2()
    ensures ReadsAs(SampleLines[2], SampleDirectives[2], Stage(2), Stage(3))
  {
  }

  lemma SampleLine3()
    ensures ReadsAs(SampleLines[3], SampleDirectives[3], Stage(3), Stage(4))
  {
    var r := Singletons(["q2"]);
    forall s | s in r ensures s == Singleton("q2") {
      var n :| n in ["q2"] && s == Singleton(n);
    }
  }

  lemma SampleLine4()
    ensures ReadsAs(SampleLines[4], SampleDirectives[4], Stage(4), Stage(5))
  {
  }

  lemma SampleLine5()
    ensures ReadsAs(SampleLines[5], SampleDirectives[5], Stage(5), Stage(6))
  {
  }

  lemma SampleLine6()
    ensures ReadsAs(SampleLines[6], SampleDirectives[6], Stage(6), Stage(7))
  {
  }

  lemma SampleLine7()
    ensures ReadsAs(SampleLines[7], SampleDirectives[7], Stage(7), Stage(8))
  {
  }

  lemma SampleLine8()
    ensures ReadsAs(SampleLines[8], SampleDirectives[8], Stage(8), Stage(9))
  {
  }

  lemma SampleLine9()
    ensures ReadsAs(SampleLines[9], SampleDirectives[9], Stage(9), Stage(10))
  {
  }

  /** Reading the sample text gives exactly the expected states, alphabet, start, finals and table. */
  lemma SampleParses()
    ensures Parse(SampleText) == Success(SampleAutomaton())
  {
    var stages := seq(11, k requires 0 <= k < 11 => Stage(k));
    forall k | 0 <= k < 10
      ensures ReadsAs(SampleLines[k], SampleDirectives[k], stages[k], stages[k + 1])
    {
      if k == 0 { SampleLine0(); }
      else if k == 1 { SampleLine1(); }
      else if k == 2 { SampleLine2(); }
      else if k == 3 { SampleLine3(); }
      else if k == 4 { SampleLine4(); }
      else if k == 5 { SampleLine5(); }
      else if k == 6 { SampleLine6(); }
      else if k == 7 { SampleLine7(); }
      else if k == 8 { SampleLine8(); }
      else { SampleLine9(); }
    }
    ParseThrough(SampleLines, SampleDirectives, stages);
  }

  /** The expected automaton keeps its start, finals and table inside its states and alphabet. */
  lemma SampleWellFormed()
    ensures WellFormed(SampleAutomaton())
  {
  }

  /** The words the tests expect to be accepted. */
  lemma SampleAcceptsShort()
    ensures Classify(SampleAutomaton(), "11111") == Accepts
    ensures Classify(SampleAutomaton(), "00100") == Accepts
    ensures Classify(SampleAutomaton(), "11100") == Accepts
  {
  }

  lemma SampleAcceptsLong()
    ensures Classify(SampleAutomaton(), "110011") == Accepts
    ensures Classify(SampleAutomaton(), "001001") == Accepts
    ensures Classify(SampleAutomaton(), "0010001") == Accepts
  {
  }

  /** The words the tests expect to be rejected, and the empty word (q1 is not final). */
  lemma SampleRejects()
    ensures Classify(SampleAutomaton(), "00000") == Rejects
    ensures Classify(SampleAutomaton(), "01010") == Rejects
    ensures Classify(SampleAutomaton(), "001000") == Rejects
    ensures Classify(SampleAutomaton(), "") == Rejects
  {
  }

  /** The words the tests expect to contain a symbol outside the alphabet. */
  lemma SampleInvalidAlphabetEarly()
    ensures Classify(SampleAutomaton(), "a11111") == InvalidAlphabet
    ensures Classify(SampleAutomaton(), "111c00") == InvalidAlphabet
  {
  }

  lemma SampleInvalidAlphabetDash()
    ensures Classify(SampleAutomaton(), "1-11c00") == InvalidAlphabet
  {
  }

  lemma SampleInvalidAlphabetLate()
    ensures Classify(SampleAutomaton(), "00100b") == InvalidAlphabet
  {
  }

  lemma SampleInvalidAlphabetDigit()
    ensures Classify(SampleAutomaton(), "111020") == InvalidAlphabet
  {
  }

  /** A description naming a start state outside Q is read without complaint. */
  lemma StartOutsideStatesAccepted()
    ensures Parse("startstate: q9").Success?
    ensures !WellFormed(Parse("startstate: q9").value)
  {
    var d := Directive(StartState, ["q9"]);
    assert Render(d) == "startstate: q9";
    assert Join(RenderAll([d])) == "startstate: q9";
    assert Writable([d]);
    ParseOfRendered([d]);
  }

  /** A line without a space is malformed, the empty line included. */
  lemma LineWithoutSpace()
    ensures ParseLine("states:q1") == Failure(NoSpace)
    ensures ParseLine("") == Failure(NoSpace)
  {
  }

  /** A line with nothing but whitespace after its header is malformed. */
  lemma LineWithoutTokens()
    ensures ParseLine("states: \t") == Failure(NoTokens)
  {
  }

  /** A header other than the five exact ones is malformed. */
  lemma LineWithUnknownHeader()
    ensures ParseLine("state: q1") == Failure(InvalidSection)
  {
    IndexOfAfter("state:", ' ', "q1");
    assert "state:" + [' '] + "q1" == "state: q1";
    assert "state: q1"[..7] == "state: ";
    assert SectionOf("state: ") == None;
    assert !BlankAfter("state: q1", 6) by { assert !IsSpace("state: q1"[7]); }
  }

  /** A single token alone on what is left of a line. */
  lemma TokenAlone(t: string)
    requires IsToken(t)
    ensures Tokens(t) == [t]
  {
    TokensAfterToken(t, "");
    assert t + "" == t;
  }

  /** Leading blanks and tabs yield no token. */
  lemma LeadingBlanksSkipped()
    ensures Tokens(" \tq1") == ["q1"]
  {
    TokensSkipBlank(" \t", "q1");
    assert " \t" + "q1" == " \tq1";
    TokenAlone("q1");
  }

  /** A run of blanks and tabs between two tokens only separates them. */
  lemma MixedBlanksSeparate()
    ensures Tokens("q1 \t q2") == ["q1", "q2"]
  {
    TokensAroundBlank("q1", " \t ", "q2");
    assert "q1" + " \t " + "q2" == "q1 \t q2";
    TokenAlone("q2");
  }

  /** A one-state line is read as such. */
  lemma OneStateLine()
    ensures ParseLine("states: q1") == Success(Directive(States, ["q1"]))
  {
    ParseRender(Directive(States, ["q1"]));
    assert Render(Directive(States, ["q1"])) == "states: q1";
  }

  /** An empty line between two good ones aborts the description. */
  lemma EmptyInteriorLineRejected()
    ensures Parse(Join(["states: q1", "", "alphabet: 0"])) == Failure(NoSpace)
  {
    var ls := ["states: q1", "", "alphabet: 0"];
    LinesOfJoin(ls);
    OneStateLine();
    assert ParseLine(ls[1]) == Failure(NoSpace);
    assert forall j :: 0 <= j < 1 ==> ParseLine(ls[j]).Success?;
    FirstMalformedLine(Join(ls), 1);
  }

  /** The test scenario replayed through the class: construct from the text, then classify. */
  method SampleSession() {
    var r := Engine.Dfa.FromText(SampleText);
    SampleParses();
    var dfa := r.value;
    assert dfa.Model() == SampleAutomaton();
    SampleAcceptsShort();
    SampleRejects();
    var outcome := dfa.AcceptsString("11111");
    assert outcome == Accepts;
    outcome := dfa.AcceptsString("00000");
    assert outcome == Rejects;
    SampleInvalidAlphabetEarly();
    outcome := dfa.AcceptsString("a11111");
    assert outcome == InvalidAlphabet;
  }
}
