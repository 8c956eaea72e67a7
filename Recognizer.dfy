/**
 * The meaning of Dfa::AcceptsString (dfa/dfa.cc): the word is read one
 * character at a time, each character standing for the one-character
 * symbol; at each position the alphabet is checked before the table, and
 * the first halt met is the outcome. This module states that behaviour as
 * functions and proves what it promises; Engine.Dfa.AcceptsString runs it
 * as a loop.
 */
module Recognizer {
  import opened Wrappers
  import opened DfaTypes

  /** What reading one character from a state does: move on, or halt with an outcome. */
  datatype Move = Next(state: State) | Halt(outcome: Acceptance)

  /** One step: the alphabet check, then the state's row, then the symbol's entry. */
  function Step(a: Automaton, s: State, c: char): (m: Move)
    ensures m.Halt? ==> m.outcome == InvalidAlphabet || m.outcome == NoTransition
    ensures m == Halt(InvalidAlphabet) <==> [c] !in a.alphabet
    ensures m == Halt(NoTransition) <==> [c] in a.alphabet && Lookup(a.transitions, s, [c]).None?
    ensures m.Next? ==> Lookup(a.transitions, s, [c]) == Some(m.state)
  {
    var symbol := [c];
    if symbol !in a.alphabet then Halt(InvalidAlphabet)
    else if s !in a.transitions then Halt(NoTransition)
    else if symbol !in a.transitions[s] then Halt(NoTransition)
    else Next(a.transitions[s][symbol])
  }

  /** The outcome once the whole word has been read and s is the current state. */
  function AtEnd(a: Automaton, s: State): (r: Acceptance)
    ensures r == Accepts || r == Rejects
    ensures r == Accepts <==> s in a.finals
  {
    if s in a.finals then Accepts else Rejects
  }

  /** Reading w from s, left to right, stopping at the first halt. */
  function Run(a: Automaton, s: State, w: string): (r: Acceptance)
    ensures r == InvalidAlphabet ==> exists k :: 0 <= k < |w| && [w[k]] !in a.alphabet
    ensures (r == Accepts || r == Rejects) ==> forall k :: 0 <= k < |w| ==> [w[k]] in a.alphabet
    decreases |w|
  {
    if w == [] then AtEnd(a, s)
    else
      assert forall k :: 1 <= k < |w| ==> w[1..][k - 1] == w[k];
      match Step(a, s, w[0])
      case Halt(o) => o
      case Next(t) =>
        var r := Run(a, t, w[1..]);
        assert r == InvalidAlphabet ==> [w[1..][0]] !in a.alphabet || exists k :: 1 <= k < |w| && [w[k]] !in a.alphabet;
        r
  }

  /**
   * The outcome of a word: reading it from the start state. The empty word
   * is accepted exactly when the start state is final.
   */
  function Classify(a: Automaton, w: string): (r: Acceptance)
    ensures w == [] ==> (r == Accepts <==> a.start in a.finals) && r != InvalidAlphabet && r != NoTransition
    ensures r == InvalidAlphabet ==> exists k :: 0 <= k < |w| && [w[k]] !in a.alphabet
  {
    Run(a, a.start, w)
  }

  /**
   * The state reached after reading all of w from s, if no step halts; an
   * independent reference that extends a run at its end.
   */
  function Reach(a: Automaton, s: State, w: string): (r: Option<State>)
    ensures r.Some? ==> forall k :: 0 <= k < |w| ==> [w[k]] in a.alphabet
    decreases |w|
  {
    if w == [] then Some(s)
    else match Reach(a, s, w[..|w| - 1])
      case None => None
      case Some(t) =>
        match Step(a, t, w[|w| - 1])
        case Halt(_) => None
        case Next(u) => Some(u)
  }

  /** A halted run stays halted with the same outcome, however the word is extended. */
  lemma {:induction false} HaltIsFinal(a: Automaton, s: State, w: string, v: string)
    requires Run(a, s, w) == InvalidAlphabet || Run(a, s, w) == NoTransition
    ensures Run(a, s, w + v) == Run(a, s, w)
    decreases |w|
  {
    if w != [] {
      assert (w + v)[0] == w[0];
      assert (w + v)[1..] == w[1..] + v;
      match Step(a, s, w[0])
      case Halt(o) =>
      case Next(t) => HaltIsFinal(a, t, w[1..], v);
    }
  }

  /** Reading u and then v is reading v from wherever u leads, when u does not halt. */
  lemma {:induction false} RunAfterPrefix(a: Automaton, s: State, u: string, v: string)
    requires Reach(a, s, u).Some?
    ensures Run(a, s, u + v) == Run(a, Reach(a, s, u).value, v)
    decreases |u|
  {
    if u != [] {
      var init := u[..|u| - 1];
      var c := u[|u| - 1];
      var t := Reach(a, s, init).value;
      assert u + v == init + ([c] + v);
      RunAfterPrefix(a, s, init, [c] + v);
      var m := Step(a, t, c);
      assert m == Next(Reach(a, s, u).value);
      assert ([c] + v)[0] == c && ([c] + v)[1..] == v;
      assert Run(a, t, [c] + v) == Run(a, m.state, v);
    } else {
      assert u + v == v;
    }
  }

  /**
   * Run and Reach agree: a word that can be read to its end is accepted
   * exactly when it ends in a final state and rejected otherwise, and a
   * word halts with the outcome of the first step that halts.
   */
  lemma RunReachesEnd(a: Automaton, s: State, w: string)
    requires Reach(a, s, w).Some?
    ensures Run(a, s, w) == AtEnd(a, Reach(a, s, w).value)
    ensures Run(a, s, w) == Accepts <==> Reach(a, s, w).value in a.finals
  {
    RunAfterPrefix(a, s, w, []);
    assert w + [] == w;
  }

  /** A word whose prefix w[..k] can be read and whose k-th character halts gets that halt's outcome. */
  lemma RunHaltsAt(a: Automaton, s: State, w: string, k: nat)
    requires k < |w| && Reach(a, s, w[..k]).Some?
    requires Step(a, Reach(a, s, w[..k]).value, w[k]).Halt?
    ensures Run(a, s, w) == Step(a, Reach(a, s, w[..k]).value, w[k]).outcome
  {
    assert w == w[..k] + w[k..];
    RunAfterPrefix(a, s, w[..k], w[k..]);
  }

  /** The run ends in Accepts or Rejects exactly when the whole word can be read. */
  lemma {:induction false} CompletesIffReachable(a: Automaton, s: State, w: string)
    ensures (Run(a, s, w) == Accepts || Run(a, s, w) == Rejects) <==> Reach(a, s, w).Some?
    decreases |w|
  {
    if Reach(a, s, w).Some? {
      RunReachesEnd(a, s, w);
    } else {
      var init := w[..|w| - 1];
      if Reach(a, s, init).None? {
        CompletesIffReachable(a, s, init);
        HaltIsFinal(a, s, init, [w[|w| - 1]]);
        assert init + [w[|w| - 1]] == w;
      } else {
        RunHaltsAt(a, s, w, |w| - 1);
      }
    }
  }

  /** Only the one-character entries of the alphabet can ever match a character of the word. */
  function ShortSymbols(alphabet: set<Symbol>): (r: set<Symbol>)
    ensures r <= alphabet && forall x :: x in r ==> |x| == 1
    ensures forall c: char :: [c] in alphabet <==> [c] in r
  {
    set x | x in alphabet && |x| == 1
  }

  /** Dropping the alphabet entries longer than one character changes no outcome. */
  lemma {:induction false} LongSymbolsNeverMatch(a: Automaton, s: State, w: string)
    ensures Run(a, s, w) == Run(a.(alphabet := ShortSymbols(a.alphabet)), s, w)
    decreases |w|
  {
    var b := a.(alphabet := ShortSymbols(a.alphabet));
    if w != [] {
      assert Step(a, s, w[0]) == Step(b, s, w[0]);
      match Step(a, s, w[0])
      case Halt(o) =>
      case Next(t) => LongSymbolsNeverMatch(a, t, w[1..]);
    }
  }

  /** A character outside the alphabet makes the word fail, never accept or reject. */
  lemma UnknownCharacterFails(a: Automaton, w: string, k: nat)
    requires k < |w| && [w[k]] !in a.alphabet
    ensures Classify(a, w) == InvalidAlphabet || Classify(a, w) == NoTransition
  {
    CompletesIffReachable(a, a.start, w);
  }

  /** In a well-formed automaton, reading never leaves Q. */
  lemma {:induction false} ReachStaysInStates(a: Automaton, s: State, w: string)
    requires WellFormed(a) && s in a.states && Reach(a, s, w).Some?
    ensures Reach(a, s, w).value in a.states
    decreases |w|
  {
    if w != [] {
      ReachStaysInStates(a, s, w[..|w| - 1]);
    }
  }
}
