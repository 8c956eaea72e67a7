/**
 * The Dfa class of dfa/dfa.h and dfa/dfa.cc: five fields that the text
 * constructor fills in place line by line, and a recognizer that walks a
 * cursor state over the word without changing any field.
 */
module Engine {
  import opened Wrappers
  import opened DfaTypes
  import opened TextFormat
  import opened Description
  import opened Recognizer

  class Dfa {
    /** Q: all states. */
    var states: set<State>
    /** Sigma: the input symbols. */
    var alphabet: set<Symbol>
    /** Delta: Q x Sigma -> Q, partial. */
    var transitions: TransitionTable
    /** q0. */
    var start: State
    /** F. */
    var finals: set<State>

    /** The five fields as one value. */
    function Model(): Automaton
      reads this
    {
      Automaton(states, alphabet, transitions, start, finals)
    }

    /** A Dfa whose fields are all empty, as the constructor finds them before the first line. */
    constructor ()
      ensures Model() == EmptyAutomaton()
    {
      states := {};
      alphabet := {};
      transitions := map[];
      start := State({});
      finals := {};
    }

    /**
     * The text constructor: reads the description line by line, updating the
     * fields after each line, and gives up with the error of the first
     * malformed line. On success the fields are exactly the automaton the
     * text denotes.
     */
    static method FromText(text: string) returns (r: Result<Dfa, ParseError>)
      ensures r.Failure? ==> Parse(text) == Failure(r.error)
      ensures r.Success? ==> fresh(r.value) && Parse(text) == Success(r.value.Model())
    {
      var dfa := new Dfa();
      var lines := Lines(text);
      ghost var ds: seq<Directive> := [];
      var i := 0;
      while i < |lines|
        invariant 0 <= i <= |lines|
        invariant PrefixLexedAs(lines, i, ds)
        invariant dfa.Model() == ApplyAll(EmptyAutomaton(), ds)
      {
        var parsed := ParseLine(lines[i]);
        if parsed.Failure? {
          PrefixError(text, i, ds);
          return Failure(parsed.error);
        }
        dfa.Update(parsed.value);
        PrefixStep(lines, i, ds, parsed.value);
        ds := ds + [parsed.value];
        i := i + 1;
      }
      PrefixComplete(text, ds);
      return Success(dfa);
    }

    /**
     * The update one accepted line makes: set sections insert their tokens,
     * a start line takes its first token, and a three-token transition line
     * p c q sets the entry for (p, c) to q.
     */
    method Update(d: Directive)
      modifies this
      ensures Model() == Apply(old(Model()), d)
    {
      var tokens := d.tokens;
      match d.section {
        case States =>
          states := states + Singletons(tokens);
        case Alphabet =>
          alphabet := alphabet + set t | t in tokens;
        case StartState =>
          if tokens != [] {
            start := Singleton(tokens[0]);
          }
        case FinalState =>
          finals := finals + Singletons(tokens);
        case Transition =>
          if |tokens| == 3 {
            var from := Singleton(tokens[0]);
            var row := if from in transitions then transitions[from] else map[];
            transitions := transitions[from := row[tokens[1] := Singleton(tokens[2])]];
          }
      }
    }

    /**
     * Classifies a word: walks the cursor from the start state one character
     * at a time and reports the first halt, or whether the last state is
     * final. Reads the fields and changes none of them.
     */
    method AcceptsString(input: string) returns (r: Acceptance)
      ensures r == Classify(Model(), input)
    {
      var current := start;
      var i := 0;
      while i < |input|
        invariant 0 <= i <= |input|
        invariant Run(Model(), current, input[i..]) == Classify(Model(), input)
      {
        var symbol := [input[i]];
        if symbol !in alphabet {
          return InvalidAlphabet;
        }
        if current !in transitions {
          return NoTransition;
        }
        var row := transitions[current];
        if symbol !in row {
          return NoTransition;
        }
        assert input[i..][1..] == input[i + 1..];
        current := row[symbol];
        i := i + 1;
      }
      r := if current in finals then Accepts else Rejects;
    }
  }
}
