# A verified model of the dfa text reader and recognizer

This project models the core of aokellermann/dfa, a small C++ library for
deterministic finite automata. The core has two parts:

- **The text constructor** `Dfa::Dfa(const std::string&)`. It reads a
  line-oriented description (`states:`, `alphabet:`, `startstate:`,
  `finalstate:`, `transition:`) into the five fields Q, Sigma, Delta, q0 and F.
- **The recognizer** `Dfa::AcceptsString`. It classifies a word as ACCEPTS,
  REJECTS, INVALID_ALPHABET or NO_TRANSITION.

Each part is modelled twice:

- **As values.** Functions on values state what the code means, and lemmas
  prove its properties.
- **In place.** The imperative class `Engine.Dfa` keeps the five fields and
  updates them the way the C++ object does. Its methods are proved equal to
  the functions.

Modules:

- `Wrappers` holds the `Option` and `Result` datatypes.
- `DfaTypes` (dfa/dfa.h) holds the data model:
  - a `State` is a set of names, built by the explicit singleton constructor;
  - state equality is set equality;
  - it defines the four `Acceptance` outcomes, the transition table
    `map<State, map<Symbol, State>>` and the five-field `Automaton`;
  - it defines the `WellFormed` conditions that the field comments promise
    but the code never checks.
- `TextFormat` is the lexical layer:
  - lines are split as `std::getline` splits them, so a final `'\n'` does not
    open an empty line;
  - tokens are split as `istream >> std::string` splits them in the C locale
    (space, `\t`, `\n`, `\v`, `\f`, `\r`);
  - the header of a line is everything up to and including its first space,
    and the five exact headers are recognised;
  - `ParseLine` makes the three checks in the source's order: no space, then
    no tokens, then an unknown header.
- `Description` gives the meaning of a whole description:
  - every line is lexed in order, and the first malformed line aborts the
    construction, as the thrown exception does;
  - every accepted line updates one field (`Apply`), and `Parse` is the fold.
- `Recognizer` gives the meaning of `AcceptsString`:
  - `Step` is one character: the alphabet check, then the state's row, then
    the symbol's entry;
  - `Run` / `Classify` read a whole word and stop at the first halt;
  - `Reach` is an independent reference that extends a run at its end.
- `Engine` holds the class `Dfa`:
  - five mutable fields;
  - `FromText`, the constructor, a loop over the lines that updates the
    fields in place and returns `Failure` where the C++ throws;
  - `Update`, the body of that loop for one line;
  - `AcceptsString`, a loop that walks a cursor state over the word.
- `Sample` holds the description of dfa/test/dfa_test.cc:
  - the text is read into exactly the expected automaton;
  - every word the tests list gets its expected outcome;
  - further lemmas show how malformed lines are treated.

Where the code and the header's doc comments (dfa/dfa.h:65, :109, :159-172)
differ, the model follows the code:

- **NFA input (dfa/dfa.h:109).** The comment says an NFA is converted to a
  DFA. The text constructor never performs that conversion: a later
  `transition:` line for the same (state, symbol) overwrites the earlier
  entry, so the table is always single-valued.
- **q0 in Q, F a subset of Q, Delta on Q x Sigma (dfa/dfa.h:159-172).**
  Nothing checks that the start state, the final states or the table entries
  are declared states, or that table symbols are in the alphabet.
  `Sample.StartOutsideStatesAccepted` shows a description that is accepted
  yet not `WellFormed`. If no start line appears, the start state stays the
  empty `State`; this is not an error (`Description.NoStartLine`).
- **"epsilon" as the empty string (dfa/dfa.h:65).** The word `"epsilon"`
  gets no special treatment: it is seven characters.

The code also has these behaviours, which the comments do not describe:

- Set-valued sections may appear on several lines and accumulate, and the
  start state is last-write-wins.
- A `transition:` line with other than three tokens is silently ignored,
  not rejected.
- `AcceptsString` looks up each character as a one-character symbol, so
  alphabet entries longer than one character can never match
  (`Recognizer.LongSymbolsNeverMatch`).

## Model

| member | source | states |
|---|---|---|
| DfaTypes.Singleton | dfa/dfa.h:29 | The state built from one name contains that name and nothing else. |
| DfaTypes.SingletonInjective | dfa/dfa.h:29 | Two names give the same singleton state exactly when the names are equal. |
| DfaTypes.FromNames | dfa/dfa.h:25-27 | The state built by inserting a list of names holds exactly the names of the list. |
| DfaTypes.FromNamesOrderInsensitive | dfa/dfa.h:25-27 | Insertion order and repetition do not change the state built. |
| DfaTypes.StateEquals | dfa/dfa.h:33-37 | State equality holds exactly when both states hold the same names, whatever the order. |
| DfaTypes.EmptyAutomaton | dfa/dfa.h:152-172 | Definition: the value of the five fields before any line is read, all empty, the start state included. |
| DfaTypes.Lookup | dfa/dfa.cc:136-146 | Definition: the two-level table lookup, the state's row and then the symbol's entry; its contract only spells out that lookup. |
| DfaTypes.WellFormed | dfa/dfa.h:159-172 | Definition (no contract): q0 is in Q, F is a subset of Q, and every table entry goes from a state of Q on a symbol of Sigma to a state of Q. |
| TextFormat.IndexOf | dfa/dfa.cc:28 | The first occurrence of the character: it is at the result, and not before it. |
| TextFormat.IndexOfAfter | dfa/dfa.cc:28 | Searching past a prefix without the character finds the character right after the prefix. |
| TextFormat.Lines | dfa/dfa.cc:26 | No extracted line contains a newline. |
| TextFormat.JoinLines | dfa/dfa.cc:26 | Splitting into lines loses nothing: the text is its lines joined, plus a final newline if it had one. |
| TextFormat.LinesAfterFirst | dfa/dfa.cc:26 | A first line ended by a newline is extracted whole, and extraction continues after the newline. |
| TextFormat.LinesEmpty | dfa/dfa.cc:26 | A text yields no lines exactly when it is empty. |
| TextFormat.LinesOfJoin | dfa/dfa.cc:26 | Lines without newlines whose last one is not empty are extracted back unchanged from their join. |
| TextFormat.IsSpace | dfa/dfa.cc:36-40 | Definition (no contract): the six characters that separate tokens in the C locale: space, tab, newline, vertical tab, form feed and carriage return. |
| TextFormat.Word | dfa/dfa.cc:36-40 | The token at the head of a string is its longest whitespace-free prefix. |
| TextFormat.Tokens | dfa/dfa.cc:36-40 | Every token extracted is non-empty and whitespace-free; there are none exactly when the string is all whitespace. |
| TextFormat.TokensSkipBlank | dfa/dfa.cc:36-40 | Any run of whitespace (spaces, tabs and the other four) in front of a string adds no token and changes none. |
| TextFormat.TokensAroundBlank | dfa/dfa.cc:36-40 | A token followed by any non-empty run of whitespace is extracted alone, and extraction continues after the run. |
| TextFormat.TokensOfUnwords | dfa/dfa.cc:36-40 | Tokens written out with single spaces are extracted back in order. |
| TextFormat.TokensAfterToken | dfa/dfa.cc:36-40 | A token followed by whitespace or the end is extracted first, and extraction continues after it. |
| TextFormat.Header | dfa/dfa.cc:21-25 | Each section header ends in its only space. |
| TextFormat.HeaderInjective | dfa/dfa.cc:21-25 | The five headers are pairwise different, so a header names at most one section. |
| TextFormat.SectionOf | dfa/dfa.cc:47-77 | A header names a section exactly when it equals that section's header string. |
| TextFormat.ParseLine | dfa/dfa.cc:28-47 | A line fails with the no-space error exactly when it has no space. It fails with the no-tokens error exactly when it has a space and only whitespace after it. An accepted line has at least one token. |
| TextFormat.ParseLineAccepts | dfa/dfa.cc:47-77 | A line is accepted as section sec exactly when it starts with sec's header and has tokens after it; its tokens are those of the rest. Any other header is rejected. |
| TextFormat.ParseRender | dfa/dfa.cc:28-77 | Lexing a directive written out as a line gives the directive back. |
| Description.Singletons | dfa/dfa.cc:50 | The states inserted by a set line are exactly the singletons of its tokens. |
| Description.Apply | dfa/dfa.cc:48-73 | One accepted line changes only the field its section names; the set fields only grow. |
| Description.ApplyAll | dfa/dfa.cc:26-78 | Reading lines in order only grows Q, Sigma and F. |
| Description.ApplyAllThrough | dfa/dfa.cc:26-78 | When each line takes one state of the fields to the next, reading all lines ends at the last. |
| Description.LexAll | dfa/dfa.cc:26-40 | Definition: each line lexed on its own, in order; its contract only spells this out. |
| Description.Collect | dfa/dfa.cc:29-45 | Reading succeeds exactly when every line is accepted, with the lines' directives in order. |
| Description.FirstErrorWins | dfa/dfa.cc:29-45 | The reported failure is that of the first failing line, whatever follows it. |
| Description.CollectSnoc | dfa/dfa.cc:26-45 | One more accepted line extends the directives read so far. |
| Description.ApplyAllSnoc | dfa/dfa.cc:26-78 | Reading one more line applies its update after the earlier ones. |
| Description.ParseLines | dfa/dfa.cc:26-45 | The lines are read exactly when every one is accepted; then there is one directive per line, each the one its line lexes to. |
| Description.Parse | dfa/dfa.cc:17-79 | Definition (no contract): the first malformed line's error, or else every directive applied in order to the empty fields. Its properties are the lemmas below. |
| Description.FirstMalformedLine | dfa/dfa.cc:26-77 | A description fails with the error of its first malformed line, whatever the later lines hold. |
| Description.AcceptedIffAllLinesWellFormed | dfa/dfa.cc:26-77 | A description is accepted exactly when every line is well formed. |
| Description.SetSectionsAccumulate | dfa/dfa.cc:48-55 | A state, symbol or final state is present after reading exactly when it was before or some line of its section names it. |
| Description.StartUnset | dfa/dfa.cc:56-62 | With no start line, the start state is left as it was. |
| Description.StartLastWins | dfa/dfa.cc:56-62 | The start state is the first token of the last start line. |
| Description.TransitionUnset | dfa/dfa.cc:67-73 | Without a three-token transition line for (p, c), the entry for (p, c) is left as it was. |
| Description.TransitionLastWins | dfa/dfa.cc:67-73 | The entry for (p, c) is the target of the last three-token transition line for p and c. |
| Description.TransitionsAtOtherKeys | dfa/dfa.cc:67-73 | Lines only write the table at keys built from one name, so the entries at every other state, the empty one included, stay as they were. |
| Description.NoStartLine | dfa/dfa.cc:56-62 | A description without a start line is accepted with the empty start state; a word whose first character is in the alphabet then halts with NO_TRANSITION, and the empty word is rejected. |
| Description.ApplyKeepsOtherEntries | dfa/dfa.cc:67-73 | A line that is not a three-token transition for (p, c) leaves the entry for (p, c) alone. This includes lines of other arity. |
| Description.ApplyIdempotent | dfa/dfa.cc:48-73 | Reading the same line twice has the effect of reading it once. |
| Description.SetSectionTokensAsSet | dfa/dfa.cc:48-66 | In a set section, only which tokens occur matters, not their order or repetition. |
| Description.RenderAll | dfa/dfa.cc:26-47 | Writing directives out gives one line per directive, in order. |
| Description.RenderIsOneLine | dfa/dfa.cc:26-47 | A written-out directive is one non-empty line. |
| Description.RenderedLinesLex | dfa/dfa.cc:26-47 | Each written-out directive is one line that lexes back to the directive. |
| Description.CollectSuccesses | dfa/dfa.cc:26-45 | Lines that are all accepted read as their directives. |
| Description.ParseOfRendered | dfa/dfa.cc:17-79 | Reading a written-out description gives the automaton its directives denote. |
| Recognizer.AtEnd | dfa/dfa.cc:157 | A fully read word is accepted exactly when its state is final, and rejected otherwise. |
| Recognizer.Run | dfa/dfa.cc:128-157 | INVALID_ALPHABET is returned only when some character is outside the alphabet; ACCEPTS and REJECTS only when every character is in it. |
| Recognizer.Classify | dfa/dfa.cc:119-121 | The empty word is accepted exactly when the start state is final and never halts; INVALID_ALPHABET implies a character outside the alphabet. |
| Recognizer.Reach | dfa/dfa.cc:128-155 | A word can be read to its end only when every character is in the alphabet. |
| Recognizer.Step | dfa/dfa.cc:130-154 | One character halts with INVALID_ALPHABET exactly when its symbol is not in the alphabet. Otherwise it halts with NO_TRANSITION exactly when there is no entry, and else moves to the entry's target. |
| Recognizer.HaltIsFinal | dfa/dfa.cc:131-146 | A halted run keeps its outcome however the word is extended. |
| Recognizer.RunAfterPrefix | dfa/dfa.cc:128-155 | Reading u then v is reading v from where u leads, when u does not halt. |
| Recognizer.RunReachesEnd | dfa/dfa.cc:157 | A word read to its end is accepted exactly when its last state is final, and rejected otherwise. |
| Recognizer.RunHaltsAt | dfa/dfa.cc:131-146 | A word whose prefix reads and whose next character halts gets that halt's outcome. |
| Recognizer.CompletesIffReachable | dfa/dfa.cc:128-157 | The outcome is ACCEPTS or REJECTS exactly when the whole word can be read. |
| Recognizer.ShortSymbols | dfa/dfa.cc:130-131 | The one-character entries of the alphabet are the only ones a character can match. |
| Recognizer.LongSymbolsNeverMatch | dfa/dfa.cc:130-131 | Removing alphabet entries longer than one character changes no outcome. |
| Recognizer.UnknownCharacterFails | dfa/dfa.cc:131-134 | A word with a character outside the alphabet is never accepted or rejected. |
| Recognizer.ReachStaysInStates | dfa/dfa.h:159-167 | In a well-formed automaton, reading from a state of Q never leaves Q. |
| Engine.Dfa.Model | dfa/dfa.h:132-140 | Definition (no contract): the five fields as one value, which is what the getters return. |
| Engine.Dfa.constructor | dfa/dfa.h:152-172 | A new object has all five fields empty. |
| Engine.Dfa.FromText | dfa/dfa.cc:17-79 | Construction fails with the error of the first malformed line, as the description's meaning does. On success the new object's fields are exactly the automaton the text denotes. |
| Engine.Dfa.Update | dfa/dfa.cc:47-77 | Updating the fields for one accepted line gives the automaton its meaning prescribes. |
| Engine.Dfa.AcceptsString | dfa/dfa.cc:119-158 | The loop returns the classification of the word by the object's fields. |
| Sample.ThreeSingletons | dfa/test/dfa_test.cc:26 | The states line of the tests declares three distinct singleton states. |
| Sample.ParseThrough | dfa/dfa.cc:26-78 | Lines that each lex to the next directive and take the fields from one stage to the next are read as the last stage. |
| Sample.SampleLine0 | dfa/test/dfa_test.cc:26 | The line "states: q1 q2 q3" lexes to its directive and adds the three states. |
| Sample.SampleLine1 | dfa/test/dfa_test.cc:27 | The alphabet line adds the symbols 0 and 1. |
| Sample.SampleLine2 | dfa/test/dfa_test.cc:28 | The start line sets the start state to q1. |
| Sample.SampleLine3 | dfa/test/dfa_test.cc:29 | The final line adds q2 to F. |
| Sample.SampleLine4 | dfa/test/dfa_test.cc:30 | The transition line q1 0 q1 adds its entry. |
| Sample.SampleLine5 | dfa/test/dfa_test.cc:31 | The transition line q1 1 q2 adds its entry. |
| Sample.SampleLine6 | dfa/test/dfa_test.cc:32 | The transition line q2 0 q3 adds its entry. |
| Sample.SampleLine7 | dfa/test/dfa_test.cc:33 | The transition line q2 1 q2 adds its entry. |
| Sample.SampleLine8 | dfa/test/dfa_test.cc:34 | The transition line q3 0 q2 adds its entry. |
| Sample.SampleLine9 | dfa/test/dfa_test.cc:35 | The transition line q3 1 q2 adds its entry. |
| Sample.SampleParses | dfa/test/dfa_test.cc:23-74 | The test description is read into exactly the expected states, alphabet, start, finals and six-entry table. |
| Sample.SampleWellFormed | dfa/test/dfa_test.cc:23-74 | The expected automaton is well formed. |
| Sample.SampleAcceptsShort | dfa/test/dfa_test.cc:92-94 | 11111, 00100 and 11100 are accepted. |
| Sample.SampleAcceptsLong | dfa/test/dfa_test.cc:95-97 | 110011, 001001 and 0010001 are accepted. |
| Sample.SampleRejects | dfa/test/dfa_test.cc:116-118 | 00000, 01010 and 001000, and the empty word, are rejected. |
| Sample.SampleInvalidAlphabetEarly | dfa/test/dfa_test.cc:137-139 | a11111 and 111c00 give INVALID_ALPHABET. |
| Sample.SampleInvalidAlphabetDash | dfa/test/dfa_test.cc:141 | 1-11c00 gives INVALID_ALPHABET. |
| Sample.SampleInvalidAlphabetLate | dfa/test/dfa_test.cc:138 | 00100b gives INVALID_ALPHABET. |
| Sample.SampleInvalidAlphabetDigit | dfa/test/dfa_test.cc:140 | 111020 gives INVALID_ALPHABET at the 2. |
| Sample.StartOutsideStatesAccepted | dfa/dfa.cc:56-62 | A start line naming an undeclared state is accepted; the result is not well formed. |
| Sample.LineWithoutSpace | dfa/dfa.cc:28-33 | A line without a space, the empty line included, fails with the no-space error. |
| Sample.LineWithoutTokens | dfa/dfa.cc:42-45 | A header followed only by whitespace fails with the no-tokens error. |
| Sample.LineWithUnknownHeader | dfa/dfa.cc:74-77 | A header other than the five fails with the invalid-section error. |
| Sample.TokenAlone | dfa/dfa.cc:36-40 | A single token with no whitespace around it is extracted as itself. |
| Sample.LeadingBlanksSkipped | dfa/dfa.cc:36-40 | Leading blanks and tabs before a token add nothing: " \tq1" gives just q1. |
| Sample.MixedBlanksSeparate | dfa/dfa.cc:36-40 | A run of spaces and a tab only separates: "q1 \t q2" gives q1 and q2. |
| Sample.OneStateLine | dfa/dfa.cc:47-51 | "states: q1" lexes to a states line with the one token q1. |
| Sample.EmptyInteriorLineRejected | dfa/dfa.cc:26-33 | An empty line between two good ones aborts the whole description. |

## Left out

- The JSON constructor (dfa/dfa.cc:81-117) is not part of this model, nor is the JSON library it uses.
- The `verbose` parameter of `AcceptsString` and its trace output go to standard output; they change no result.
- The NFA conversion helpers (`ExpandNfaIfNeeded`, `AggregateEpsilonClosure`, `AggregateTransitions`) are declared in dfa/dfa.h. The text constructor never calls them, and their bodies are not part of this model.
- `StateHasher` and `operator<<` are left out. A Dafny set needs no hash function, and printing is output only.
- dfa/main.cc is not part of this model: it handles command-line flags, reads the file and prints.
- The getters `GetStates` … `GetFinalStates` return the fields unchanged. They are represented by reading the fields of `Engine.Dfa` (or `Model()`).
- Strings are sequences of `char`. Each `char` stands for one byte of a `std::string`, and no encoding is modelled.
- Engine.Dfa.FromText: allocation failure and the other exceptions the standard library could throw are not modelled. Only the three parse errors are.
