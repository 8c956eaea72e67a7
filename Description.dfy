/**
 * The meaning of a line-oriented description (the text constructor in
 * dfa/dfa.cc): lines are lexed in order, the first malformed line aborts
 * the whole construction, and every accepted line updates one field of the
 * automaton. This module states that behaviour as functions on values and
 * proves what it promises; the class in module Engine runs it in place.
 */
module Description {
  import opened Wrappers
  import opened DfaTypes
  import opened TextFormat
  import opened Recognizer

  /** The singleton states named by a list of tokens. */
  function Singletons(ts: seq<Name>): (r: set<State>)
    ensures forall n :: Singleton(n) in r <==> n in ts
    ensures forall s :: s in r ==> |s.names| == 1
    ensures forall s :: s in r ==> exists n :: n in ts && s == Singleton(n)
  {
    var r := set t | t in ts :: Singleton(t);
    assert forall n :: Singleton(n) in r ==> n in ts by {
      forall n | Singleton(n) in r ensures n in ts {
        var t :| t in ts && Singleton(t) == Singleton(n);
        SingletonInjective(t, n);
      }
    }
    r
  }

  /**
   * The effect of one accepted line. Set sections insert their tokens, a
   * start line takes its first token, and a transition line with exactly
   * three tokens p c q sets the entry for (p, c) to q; a transition line of
   * any other arity changes nothing.
   */
  function Apply(a: Automaton, d: Directive): (r: Automaton)
    ensures d.section != States ==> r.states == a.states
    ensures d.section != Alphabet ==> r.alphabet == a.alphabet
    ensures d.section != FinalState ==> r.finals == a.finals
    ensures d.section != StartState ==> r.start == a.start
    ensures d.section != Transition ==> r.transitions == a.transitions
    ensures a.states <= r.states && a.alphabet <= r.alphabet && a.finals <= r.finals
  {
    match d.section
    case States => a.(states := a.states + Singletons(d.tokens))
    case Alphabet => a.(alphabet := a.alphabet + set t | t in d.tokens)
    case StartState => if d.tokens != [] then a.(start := Singleton(d.tokens[0])) else a
    case FinalState => a.(finals := a.finals + Singletons(d.tokens))
    case Transition =>
      if |d.tokens| == 3 then
        var from := Singleton(d.tokens[0]);
        var row := if from in a.transitions then a.transitions[from] else map[];
        a.(transitions := a.transitions[from := row[d.tokens[1] := Singleton(d.tokens[2])]])
      else a
  }

  /** The effect of a sequence of accepted lines, applied first to last. */
  function ApplyAll(a: Automaton, ds: seq<Directive>): (r: Automaton)
    ensures a.states <= r.states && a.alphabet <= r.alphabet && a.finals <= r.finals
    decreases |ds|
  {
    if ds == [] then a else Apply(ApplyAll(a, ds[..|ds| - 1]), ds[|ds| - 1])
  }

  /**
   * Folding through given intermediate automata: when each directive takes
   * one stage to the next, the fold ends at the last stage.
   */
  lemma {:induction false} ApplyAllThrough(a: Automaton, ds: seq<Directive>, stages: seq<Automaton>)
    requires |stages| == |ds| + 1 && stages[0] == a
    requires forall k :: 0 <= k < |ds| ==> Apply(stages[k], ds[k]) == stages[k + 1]
    ensures ApplyAll(a, ds) == stages[|ds|]
    decreases |ds|
  {
    if ds != [] {
      var n := |ds| - 1;
      ApplyAllThrough(a, ds[..n], stages[..n + 1]);
    }
  }

  /** Every line lexed on its own. */
  function LexAll(ls: seq<string>): (rs: seq<Result<Directive, ParseError>>)
    ensures |rs| == |ls| && forall i :: 0 <= i < |ls| ==> rs[i] == ParseLine(ls[i])
  {
    seq(|ls|, i requires 0 <= i < |ls| => ParseLine(ls[i]))
  }

  /**
   * Results taken in order, as a thrown exception would take them: all the
   * values when every result is a success, otherwise the first failure.
   */
  function Collect<T, E>(rs: seq<Result<T, E>>): (r: Result<seq<T>, E>)
    ensures r.Success? <==> forall i :: 0 <= i < |rs| ==> rs[i].Success?
    ensures r.Success? ==> |r.value| == |rs| && forall i :: 0 <= i < |rs| ==> rs[i] == Success(r.value[i])
    decreases |rs|
  {
    if rs == [] then Success([])
    else
      var init := rs[..|rs| - 1];
      assert forall i :: 0 <= i < |init| ==> init[i] == rs[i];
      match Collect(init)
      case Failure(e) => Failure(e)
      case Success(vs) =>
        match rs[|rs| - 1]
        case Failure(e) => Failure(e)
        case Success(v) => Success(vs + [v])
  }

  /**
   * The reported failure is the first one, whatever the results after it
   * hold: nothing after it is looked at.
   */
  lemma {:induction false} FirstErrorWins<T, E>(rs: seq<Result<T, E>>, k: nat)
    requires k < |rs| && rs[k].Failure?
    requires forall j :: 0 <= j < k ==> rs[j].Success?
    ensures Collect(rs) == Failure(rs[k].error)
    decreases |rs|
  {
    var init := rs[..|rs| - 1];
    if k < |rs| - 1 {
      assert init[k] == rs[k];
      assert forall j :: 0 <= j < k ==> init[j] == rs[j];
      FirstErrorWins(init, k);
    } else {
      assert forall j :: 0 <= j < |init| ==> init[j] == rs[j];
    }
  }

  /** One more success extends the collected values by its value. */
  lemma CollectSnoc<T, E>(rs: seq<Result<T, E>>, vs: seq<T>, v: T)
    requires Collect(rs) == Success(vs)
    ensures Collect(rs + [Success(v)]) == Success(vs + [v])
  {
    var rs' := rs + [Success(v)];
    assert rs'[..|rs'| - 1] == rs;
  }

  /** One more successful result extends the values of a prefix. */
  lemma CollectPrefixStep<T, E>(rs: seq<Result<T, E>>, i: nat, vs: seq<T>, v: T)
    requires i < |rs| && Collect(rs[..i]) == Success(vs) && rs[i] == Success(v)
    ensures Collect(rs[..i + 1]) == Success(vs + [v])
  {
    assert rs[..i + 1] == rs[..i] + [Success(v)];
    CollectSnoc(rs[..i], vs, v);
  }

  /** Applying one more directive after a sequence of them. */
  lemma ApplyAllSnoc(a: Automaton, ds: seq<Directive>, d: Directive)
    ensures ApplyAll(a, ds + [d]) == Apply(ApplyAll(a, ds), d)
  {
    assert (ds + [d])[..|ds|] == ds;
  }

  /**
   * Lexing every line: the directives of all lines when each is well formed,
   * otherwise the error of the first malformed line.
   */
  function ParseLines(ls: seq<string>): (r: Result<seq<Directive>, ParseError>)
    ensures r.Success? <==> forall i :: 0 <= i < |ls| ==> ParseLine(ls[i]).Success?
    ensures r.Success? ==> |r.value| == |ls| && forall i :: 0 <= i < |ls| ==> ParseLine(ls[i]) == Success(r.value[i])
  {
    var rs := LexAll(ls);
    assert forall i :: 0 <= i < |ls| ==> rs[i] == ParseLine(ls[i]);
    Collect(rs)
  }

  /** The automaton a description text denotes, or the error that aborts its construction. */
  function Parse(text: string): Result<Automaton, ParseError> {
    match ParseLines(Lines(text))
    case Failure(e) => Failure(e)
    case Success(ds) => Success(ApplyAll(EmptyAutomaton(), ds))
  }

  // ---------------------------------------------------------------------
  // Reading a description line by line

  /** The lines before i are well formed and denote ds. */
  ghost predicate PrefixLexedAs(lines: seq<string>, i: nat, ds: seq<Directive>)
    requires i <= |lines|
  {
    Collect(LexAll(lines)[..i]) == Success(ds)
  }

  /** Reading one more well-formed line extends the directives read so far. */
  lemma PrefixStep(lines: seq<string>, i: nat, ds: seq<Directive>, d: Directive)
    requires i < |lines| && PrefixLexedAs(lines, i, ds) && ParseLine(lines[i]) == Success(d)
    ensures PrefixLexedAs(lines, i + 1, ds + [d])
    ensures ApplyAll(EmptyAutomaton(), ds + [d]) == Apply(ApplyAll(EmptyAutomaton(), ds), d)
  {
    var lexed := LexAll(lines);
    assert lexed[i] == Success(d);
    CollectPrefixStep(lexed, i, ds, d);
    ApplyAllSnoc(EmptyAutomaton(), ds, d);
  }

  /** A malformed line i after well-formed ones decides the outcome of the whole text. */
  lemma PrefixError(text: string, i: nat, ds: seq<Directive>)
    requires i < |Lines(text)| && PrefixLexedAs(Lines(text), i, ds) && ParseLine(Lines(text)[i]).Failure?
    ensures Parse(text) == Failure(ParseLine(Lines(text)[i]).error)
  {
    var lexed := LexAll(Lines(text));
    assert forall j :: 0 <= j < i ==> lexed[..i][j] == lexed[j];
    FirstErrorWins(lexed, i);
  }

  /** When every line is well formed the text denotes the automaton of its directives. */
  lemma PrefixComplete(text: string, ds: seq<Directive>)
    requires PrefixLexedAs(Lines(text), |Lines(text)|, ds)
    ensures Parse(text) == Success(ApplyAll(EmptyAutomaton(), ds))
  {
    var lexed := LexAll(Lines(text));
    assert lexed[..|lexed|] == lexed;
  }

  // ---------------------------------------------------------------------
  // Errors

  /**
   * A description is rejected with the error of its first malformed line k,
   * whatever the lines after k hold.
   */
  lemma FirstMalformedLine(text: string, k: nat)
    requires k < |Lines(text)| && ParseLine(Lines(text)[k]).Failure?
    requires forall j :: 0 <= j < k ==> ParseLine(Lines(text)[j]).Success?
    ensures Parse(text) == Failure(ParseLine(Lines(text)[k]).error)
  {
    FirstErrorWins(LexAll(Lines(text)), k);
  }

  /** A description is accepted exactly when every one of its lines is well formed. */
  lemma AcceptedIffAllLinesWellFormed(text: string)
    ensures Parse(text).Success? <==> forall i :: 0 <= i < |Lines(text)| ==> ParseLine(Lines(text)[i]).Success?
  {
    var ls := Lines(text);
    var rs := LexAll(ls);
    assert Parse(text).Success? <==> Collect(rs).Success?;
    if forall i :: 0 <= i < |ls| ==> ParseLine(ls[i]).Success? {
      assert forall i :: 0 <= i < |rs| ==> rs[i].Success?;
    } else {
      var i :| 0 <= i < |ls| && !ParseLine(ls[i]).Success?;
      assert !rs[i].Success?;
      assert !Collect(rs).Success?;
      assert !Parse(text).Success?;
      assert !ParseLine(Lines(text)[i]).Success?;
    }
  }

  // ---------------------------------------------------------------------
  // Updates

  /** d is a line of set section sec that names the state s. */
  predicate DeclaresState(d: Directive, sec: Section, s: State) {
    d.section == sec && s in Singletons(d.tokens)
  }

  /** d is an alphabet line that names the symbol x. */
  predicate DeclaresSymbol(d: Directive, x: Symbol) {
    d.section == Alphabet && x in d.tokens
  }

  /**
   * The set sections accumulate: after a run of lines, a state, symbol or
   * final state is present exactly when it was present before or some line
   * of its section names it.
   */
  lemma {:induction false} SetSectionsAccumulate(a: Automaton, ds: seq<Directive>)
    ensures forall s :: s in ApplyAll(a, ds).states <==>
              s in a.states || exists i :: 0 <= i < |ds| && DeclaresState(ds[i], States, s)
    ensures forall x :: x in ApplyAll(a, ds).alphabet <==>
              x in a.alphabet || exists i :: 0 <= i < |ds| && DeclaresSymbol(ds[i], x)
    ensures forall s :: s in ApplyAll(a, ds).finals <==>
              s in a.finals || exists i :: 0 <= i < |ds| && DeclaresState(ds[i], FinalState, s)
    decreases |ds|
  {
    if ds != [] {
      var init := ds[..|ds| - 1];
      SetSectionsAccumulate(a, init);
      assert forall i :: 0 <= i < |init| ==> init[i] == ds[i];
    }
  }

  /** d is a start line that takes effect. */
  predicate SetsStart(d: Directive) {
    d.section == StartState && d.tokens != []
  }

  /** Without a start line the start state is left as it was. */
  lemma {:induction false} StartUnset(a: Automaton, ds: seq<Directive>)
    requires forall i :: 0 <= i < |ds| ==> !SetsStart(ds[i])
    ensures ApplyAll(a, ds).start == a.start
    decreases |ds|
  {
    if ds != [] {
      var init := ds[..|ds| - 1];
      assert forall i :: 0 <= i < |init| ==> init[i] == ds[i];
      StartUnset(a, init);
    }
  }

  /**
   * The start state is last-write-wins: it is the first token of the last
   * start line k.
   */
  lemma {:induction false} StartLastWins(a: Automaton, ds: seq<Directive>, k: nat)
    requires k < |ds| && SetsStart(ds[k])
    requires forall j :: k < j < |ds| ==> !SetsStart(ds[j])
    ensures ApplyAll(a, ds).start == Singleton(ds[k].tokens[0])
    decreases |ds|
  {
    var init := ds[..|ds| - 1];
    if k < |ds| - 1 {
      assert init[k] == ds[k];
      assert forall j :: k < j < |init| ==> init[j] == ds[j];
      StartLastWins(a, init, k);
    }
  }

  /** d is a transition line with exactly three tokens whose first two are p and c. */
  predicate RecordsFor(d: Directive, p: Name, c: Symbol) {
    d.section == Transition && |d.tokens| == 3 && d.tokens[0] == p && d.tokens[1] == c
  }

  /** Without a transition line for (p, c) the entry for (p, c) is left as it was. */
  lemma {:induction false} TransitionUnset(a: Automaton, ds: seq<Directive>, p: Name, c: Symbol)
    requires forall i :: 0 <= i < |ds| ==> !RecordsFor(ds[i], p, c)
    ensures Lookup(ApplyAll(a, ds).transitions, Singleton(p), c) == Lookup(a.transitions, Singleton(p), c)
    decreases |ds|
  {
    if ds != [] {
      var init := ds[..|ds| - 1];
      assert forall i :: 0 <= i < |init| ==> init[i] == ds[i];
      TransitionUnset(a, init, p, c);
      ApplyKeepsOtherEntries(ApplyAll(a, init), ds[|ds| - 1], p, c);
    }
  }

  /**
   * The table stays single-valued and later lines win: the entry for (p, c)
   * is the target of the last three-token transition line k for p and c.
   */
  lemma {:induction false} TransitionLastWins(a: Automaton, ds: seq<Directive>, p: Name, c: Symbol, k: nat)
    requires k < |ds| && RecordsFor(ds[k], p, c)
    requires forall j :: k < j < |ds| ==> !RecordsFor(ds[j], p, c)
    ensures Lookup(ApplyAll(a, ds).transitions, Singleton(p), c) == Some(Singleton(ds[k].tokens[2]))
    decreases |ds|
  {
    var init := ds[..|ds| - 1];
    if k < |ds| - 1 {
      assert init[k] == ds[k];
      assert forall j :: k < j < |init| ==> init[j] == ds[j];
      TransitionLastWins(a, init, p, c, k);
      ApplyKeepsOtherEntries(ApplyAll(a, init), ds[|ds| - 1], p, c);
    }
  }

  /** A line that is not a transition line for (p, c) leaves the entry for (p, c) as it was. */
  lemma ApplyKeepsOtherEntries(a: Automaton, d: Directive, p: Name, c: Symbol)
    requires !RecordsFor(d, p, c)
    ensures Lookup(Apply(a, d).transitions, Singleton(p), c) == Lookup(a.transitions, Singleton(p), c)
  {
    if d.section == Transition && |d.tokens| == 3 {
      SingletonInjective(d.tokens[0], p);
    }
  }

  /**
   * Every line writes the table at a singleton key only, so the entries at
   * any other key (the empty start state in particular) keep their values.
   */
  lemma {:induction false} TransitionsAtOtherKeys(a: Automaton, ds: seq<Directive>, s: State, c: Symbol)
    requires |s.names| != 1
    ensures Lookup(ApplyAll(a, ds).transitions, s, c) == Lookup(a.transitions, s, c)
    decreases |ds|
  {
    if ds != [] {
      TransitionsAtOtherKeys(a, ds[..|ds| - 1], s, c);
    }
  }

  /**
   * A description without a start line is accepted with the empty start
   * state, which has no row and is not final: every word whose first
   * character is in the alphabet halts with NO_TRANSITION, and the empty
   * word is rejected.
   */
  lemma NoStartLine(text: string, c: char, w: string)
    requires Parse(text).Success?
    requires forall i :: 0 <= i < |Lines(text)| ==> ParseLine(Lines(text)[i]).value.section != StartState
    ensures Parse(text).value.start == State({})
    ensures [c] in Parse(text).value.alphabet ==> Classify(Parse(text).value, [c] + w) == NoTransition
    ensures Classify(Parse(text).value, []) == Rejects
  {
    var ls := Lines(text);
    var ds := ParseLines(ls).value;
    var a := ApplyAll(EmptyAutomaton(), ds);
    assert Parse(text) == Success(a);
    assert forall i :: 0 <= i < |ds| ==> !SetsStart(ds[i]) by {
      forall i | 0 <= i < |ds| ensures !SetsStart(ds[i]) {
        assert ParseLine(ls[i]) == Success(ds[i]);
      }
    }
    StartUnset(EmptyAutomaton(), ds);
    TransitionsAtOtherKeys(EmptyAutomaton(), ds, State({}), [c]);
    SetSectionsAccumulate(EmptyAutomaton(), ds);
    assert State({}) !in a.finals;
    assert ([c] + w)[0] == c;
  }

  /** Reading the same line twice has the effect of reading it once. */
  lemma ApplyIdempotent(a: Automaton, d: Directive)
    ensures Apply(Apply(a, d), d) == Apply(a, d)
  {
    if d.section == Transition && |d.tokens| == 3 {
      var from := Singleton(d.tokens[0]);
      var once := Apply(a, d);
      assert from in once.transitions;
      assert once.transitions[from][d.tokens[1] := Singleton(d.tokens[2])] == once.transitions[from];
    }
  }

  /** In a set section only which tokens occur matters: repeats and order do not. */
  lemma SetSectionTokensAsSet(a: Automaton, sec: Section, ts: seq<string>, us: seq<string>)
    requires sec == States || sec == Alphabet || sec == FinalState
    requires forall t :: t in ts <==> t in us
    ensures Apply(a, Directive(sec, ts)) == Apply(a, Directive(sec, us))
  {
    assert Singletons(ts) == Singletons(us);
    assert (set t | t in ts) == (set t | t in us);
  }

  // ---------------------------------------------------------------------
  // Writing a description out and reading it back

  /** Directives whose token lists could have come out of the lexer. */
  predicate Writable(ds: seq<Directive>) {
    forall i :: 0 <= i < |ds| ==>
      ds[i].tokens != [] && AllTokens(ds[i].tokens)
  }

  /** The lines that write the directives out, one per directive. */
  function RenderAll(ds: seq<Directive>): (ls: seq<string>)
    ensures |ls| == |ds| && forall i :: 0 <= i < |ds| ==> ls[i] == Render(ds[i])
    decreases |ds|
  {
    if ds == [] then [] else [Render(ds[0])] + RenderAll(ds[1..])
  }

  /** A written-out directive is one non-empty line. */
  lemma RenderIsOneLine(d: Directive)
    requires AllTokens(d.tokens)
    ensures Render(d) != "" && '\n' !in Render(d)
  {
    UnwordsNoNewline(d.tokens);
    var h := Header(d.section);
    assert '\n' !in h;
    assert Render(d)[0] == h[0];
  }

  lemma {:induction false} UnwordsNoNewline(ts: seq<string>)
    requires AllTokens(ts)
    ensures '\n' !in Unwords(ts)
    decreases |ts|
  {
    if |ts| == 1 {
      assert IsToken(ts[0]);
    } else if |ts| > 1 {
      UnwordsNoNewline(ts[1..]);
      assert IsToken(ts[0]);
      assert Unwords(ts) == ts[0] + " " + Unwords(ts[1..]);
    }
  }

  /** Each written-out directive is one non-empty line that lexes back to the directive. */
  lemma RenderedLinesLex(ds: seq<Directive>)
    requires Writable(ds)
    ensures forall i :: 0 <= i < |ds| ==> RenderAll(ds)[i] != "" && '\n' !in RenderAll(ds)[i]
    ensures forall i :: 0 <= i < |ds| ==> ParseLine(RenderAll(ds)[i]) == Success(ds[i])
  {
    forall i | 0 <= i < |ds| ensures Render(ds[i]) != "" && '\n' !in Render(ds[i]) {
      RenderIsOneLine(ds[i]);
    }
    forall i | 0 <= i < |ds| ensures ParseLine(Render(ds[i])) == Success(ds[i]) {
      ParseRender(ds[i]);
    }
  }

  /** Results that are all successes collect to their values. */
  lemma CollectSuccesses<T, E>(rs: seq<Result<T, E>>, vs: seq<T>)
    requires |rs| == |vs| && forall i :: 0 <= i < |rs| ==> rs[i] == Success(vs[i])
    ensures Collect(rs) == Success(vs)
  {
    var r := Collect(rs);
    assert r.Success?;
    forall i | 0 <= i < |vs| ensures r.value[i] == vs[i] {
      assert rs[i] == Success(r.value[i]);
    }
    assert r.value == vs;
  }

  /**
   * Reading back a written-out description gives the automaton its
   * directives denote: the text format loses nothing.
   */
  lemma ParseOfRendered(ds: seq<Directive>)
    requires Writable(ds)
    ensures Parse(Join(RenderAll(ds))) == Success(ApplyAll(EmptyAutomaton(), ds))
  {
    var ls := RenderAll(ds);
    RenderedLinesLex(ds);
    LinesOfJoin(ls);
    var rs := LexAll(ls);
    CollectSuccesses(rs, ds);
  }
}
