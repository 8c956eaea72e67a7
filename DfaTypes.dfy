/**
 * The data model of dfa/dfa.h: state identities, symbols, the transition
 * table, the four recognition outcomes and the automaton tuple.
 */
module DfaTypes {
  import opened Wrappers

  /** The name of one underlying state, as written in a description. */
  type Name = string

  /** An element of the alphabet: an opaque string token. */
  type Symbol = string

  /** A DFA state: an unordered set of underlying state names. */
  datatype State = State(names: set<Name>)

  /** The singleton state built from one name (the explicit constructor State(id)). */
  function Singleton(id: Name): (s: State)
    ensures id in s.names && |s.names| == 1
    ensures forall n :: n in s.names ==> n == id
  {
    State({id})
  }

  /** Two names give the same singleton state exactly when they are equal. */
  lemma SingletonInjective(x: Name, y: Name)
    ensures Singleton(x) == Singleton(y) <==> x == y
  {
    if Singleton(x) == Singleton(y) {
      assert x in Singleton(y).names;
    }
  }

  /**
   * The state built from a list of names, inserted one after the other
   * (the range constructor State inherits from its set base).
   */
  function FromNames(ns: seq<Name>): (s: State)
    ensures forall n :: n in s.names <==> n in ns
    decreases |ns|
  {
    if ns == [] then State({})
    else State(FromNames(ns[..|ns| - 1]).names + {ns[|ns| - 1]})
  }

  /** Building a state does not depend on the order in which its names are inserted. */
  lemma FromNamesOrderInsensitive(ns: seq<Name>, ms: seq<Name>)
    requires multiset(ns) == multiset(ms)
    ensures FromNames(ns) == FromNames(ms)
  {
    forall n ensures n in FromNames(ns).names <==> n in FromNames(ms).names {
      assert n in ns <==> n in multiset(ns);
      assert n in ms <==> n in multiset(ms);
    }
  }

  /** State equality (operator==): element-set equality, whatever the iteration order. */
  function StateEquals(a: State, b: State): (r: bool)
    ensures r <==> a == b
    ensures r <==> forall n :: n in a.names <==> n in b.names
  {
    a.names == b.names
  }

  /** The result of classifying a word. */
  datatype Acceptance = Accepts | Rejects | InvalidAlphabet | NoTransition

  /** Delta: for each state, a map from symbols to the single next state. */
  type TransitionTable = map<State, map<Symbol, State>>

  /** The five fields of an automaton (Q, Sigma, Delta, q0, F). */
  datatype Automaton = Automaton(
    states: set<State>,
    alphabet: set<Symbol>,
    transitions: TransitionTable,
    start: State,
    finals: set<State>)

  /** The automaton before any description line has been read: all fields empty. */
  function EmptyAutomaton(): (a: Automaton)
    ensures a.states == {} && a.alphabet == {} && a.finals == {}
    ensures a.transitions == map[] && a.start.names == {}
  {
    Automaton({}, {}, map[], State({}), {})
  }

  /** The entry of the table for (s, sym), if there is one. */
  function Lookup(t: TransitionTable, s: State, sym: Symbol): (r: Option<State>)
    ensures r.Some? <==> s in t && sym in t[s]
    ensures r.Some? ==> r.value == t[s][sym]
  {
    if s in t && sym in t[s] then Some(t[s][sym]) else None
  }

  /**
   * What the field comments promise but the parser does not check: q0 is in Q,
   * F is a subset of Q, and every table entry goes between states of Q on a
   * symbol of Sigma.
   */
  predicate WellFormed(a: Automaton) {
    && a.start in a.states
    && a.finals <= a.states
    && forall s :: s in a.transitions ==>
         && s in a.states
         && forall x :: x in a.transitions[s] ==> x in a.alphabet && a.transitions[s][x] in a.states
  }
}
