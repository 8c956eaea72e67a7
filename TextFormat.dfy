/**
 * The lexical layer of the line-oriented description format read by the
 * text constructor in dfa/dfa.cc: splitting the text into lines the way
 * std::getline does, splitting the rest of a line into whitespace-separated
 * tokens the way an istream_iterator<std::string> does, and recognising the
 * five section headers. A `char` stands for one byte of the std::string.
 */
module TextFormat {
  import opened Wrappers

  // ---------------------------------------------------------------------
  // Searching

  /** The position of the first occurrence of c in s (std::string::find). */
  function IndexOf(s: string, c: char): (k: nat)
    requires c in s
    ensures k < |s| && s[k] == c && c !in s[..k]
  {
    if s[0] == c then 0 else 1 + IndexOf(s[1..], c)
  }

  /** Searching past a prefix that does not contain c finds the first c after it. */
  lemma {:induction false} IndexOfAfter(p: string, c: char, rest: string)
    requires c !in p
    ensures IndexOf(p + [c] + rest, c) == |p|
  {
    var s := p + [c] + rest;
    assert s[|p|] == c;
    assert s[..|p|] == p;
  }

  // ---------------------------------------------------------------------
  // Lines

  /**
   * The lines std::getline extracts from a text: the pieces between '\n'
   * characters, where a '\n' at the very end does not start another line.
   */
  function Lines(text: string): (ls: seq<string>)
    ensures forall i :: 0 <= i < |ls| ==> '\n' !in ls[i]
    decreases |text|
  {
    if text == [] then []
    else if '\n' !in text then [text]
    else
      var k := IndexOf(text, '\n');
      [text[..k]] + Lines(text[k + 1..])
  }

  /** Lines glued back together with '\n' between them. */
  function Join(ls: seq<string>): string
    decreases |ls|
  {
    if ls == [] then ""
    else if |ls| == 1 then ls[0]
    else ls[0] + "\n" + Join(ls[1..])
  }

  /** Splitting a first line off a text at its newline. */
  lemma LinesAfterFirst(first: string, rest: string)
    requires '\n' !in first
    ensures Lines(first + "\n" + rest) == [first] + Lines(rest)
  {
    var text := first + "\n" + rest;
    IndexOfAfter(first, '\n', rest);
    assert text == first + ['\n'] + rest;
    assert text[..|first|] == first;
    assert text[|first| + 1..] == rest;
  }

  /** Joining a first line in front of further lines. */
  lemma JoinCons(first: string, tail: seq<string>)
    requires tail != []
    ensures Join([first] + tail) == first + "\n" + Join(tail)
  {
    assert ([first] + tail)[1..] == tail;
  }

  /** Only the empty text has no lines. */
  lemma LinesEmpty(text: string)
    ensures Lines(text) == [] <==> text == []
  {
    if text != [] && '\n' !in text {
      assert Lines(text) == [text];
    }
  }

  /** The step of JoinLines: a first line in front of a text that already has the property. */
  lemma JoinLinesAfterFirst(first: string, rest: string)
    requires '\n' !in first
    requires rest == Join(Lines(rest)) || rest == Join(Lines(rest)) + "\n"
    ensures var text := first + "\n" + rest;
      text == Join(Lines(text)) || text == Join(Lines(text)) + "\n"
  {
    LinesAfterFirst(first, rest);
    var tail := Lines(rest);
    LinesEmpty(rest);
    if tail != [] {
      JoinCons(first, tail);
    }
  }

  /** A text is its lines joined, followed by a newline if it ended with one. */
  lemma {:induction false} JoinLines(text: string)
    ensures text == Join(Lines(text)) || text == Join(Lines(text)) + "\n"
    decreases |text|
  {
    if text != [] && '\n' in text {
      var k := IndexOf(text, '\n');
      var first, rest := text[..k], text[k + 1..];
      assert text == first + "\n" + rest;
      JoinLines(rest);
      JoinLinesAfterFirst(first, rest);
    } else if text != [] {
      assert Lines(text) == [text];
    }
  }

  /** Joining lines that hold no '\n' and do not end in an empty line gives those lines back. */
  lemma {:induction false} LinesOfJoin(ls: seq<string>)
    requires forall i :: 0 <= i < |ls| ==> '\n' !in ls[i]
    requires ls != [] ==> ls[|ls| - 1] != ""
    ensures Lines(Join(ls)) == ls
    decreases |ls|
  {
    if |ls| == 1 {
      assert Join(ls) == ls[0];
    } else if |ls| > 1 {
      LinesOfJoin(ls[1..]);
      LinesAfterFirst(ls[0], Join(ls[1..]));
      assert ls == [ls[0]] + ls[1..];
    }
  }

  // ---------------------------------------------------------------------
  // Tokens

  /** Whitespace for formatted string extraction in the C locale. */
  predicate IsSpace(c: char) {
    c == ' ' || c == '\t' || c == '\n' || c == '\U{B}' || c == '\U{C}' || c == '\r'
  }

  /** A token: a non-empty run of non-whitespace characters. */
  predicate IsToken(t: string) {
    t != [] && forall i :: 0 <= i < |t| ==> !IsSpace(t[i])
  }

  /** The longest prefix of s that holds no whitespace. */
  function Word(s: string): (w: string)
    ensures |w| <= |s| && w == s[..|w|]
    ensures forall i :: 0 <= i < |w| ==> !IsSpace(w[i])
    ensures |w| == |s| || IsSpace(s[|w|])
    decreases |s|
  {
    if s == [] || IsSpace(s[0]) then [] else [s[0]] + Word(s[1..])
  }

  /** The whitespace-separated tokens of s, in order. */
  function Tokens(s: string): (ts: seq<string>)
    ensures forall i :: 0 <= i < |ts| ==> IsToken(ts[i])
    ensures ts == [] <==> forall i :: 0 <= i < |s| ==> IsSpace(s[i])
    decreases |s|
  {
    if s == [] then []
    else if IsSpace(s[0]) then
      var ts := Tokens(s[1..]);
      assert forall i :: 1 <= i < |s| ==> s[i] == s[1..][i - 1];
      ts
    else
      var w := Word(s);
      [w] + Tokens(s[|w|..])
  }

  /** Tokens written out with a single space between them. */
  function Unwords(ts: seq<string>): string
    decreases |ts|
  {
    if ts == [] then ""
    else if |ts| == 1 then ts[0]
    else ts[0] + " " + Unwords(ts[1..])
  }

  /** Splitting tokens written out with single spaces gives the tokens back. */
  lemma {:induction false} TokensOfUnwords(ts: seq<string>)
    requires forall i :: 0 <= i < |ts| ==> IsToken(ts[i])
    ensures Tokens(Unwords(ts)) == ts
    decreases |ts|
  {
    if |ts| == 1 {
      TokensAfterToken(ts[0], "");
      assert ts[0] + "" == ts[0];
    } else if |ts| > 1 {
      TokensOfUnwords(ts[1..]);
      TokensBeforeSpace(ts[0], Unwords(ts[1..]));
      assert Unwords(ts) == ts[0] + (" " + Unwords(ts[1..]));
      assert ts == [ts[0]] + ts[1..];
    }
  }

  /** Whitespace before a text, however much and of whatever kind, only separates: it yields no token. */
  lemma {:induction false} TokensSkipBlank(ws: string, s: string)
    requires forall i :: 0 <= i < |ws| ==> IsSpace(ws[i])
    ensures Tokens(ws + s) == Tokens(s)
    decreases |ws|
  {
    if ws != [] {
      var t := ws + s;
      TokensSkipBlank(ws[1..], s);
      assert IsSpace(ws[0]) && t[0] == ws[0];
      assert t[1..] == ws[1..] + s;
      assert Tokens(t) == Tokens(t[1..]);
    } else {
      assert ws + s == s;
    }
  }

  /** A token, then a run of whitespace of any kind and length: the token comes first, then the tokens after the run. */
  lemma TokensAroundBlank(t: string, ws: string, rest: string)
    requires IsToken(t) && ws != [] && forall i :: 0 <= i < |ws| ==> IsSpace(ws[i])
    ensures Tokens(t + ws + rest) == [t] + Tokens(rest)
  {
    TokensSkipBlank(ws, rest);
    TokensAfterToken(t, ws + rest);
    assert t + ws + rest == t + (ws + rest);
  }

  /** A token, a space and a text: the token comes first, then the tokens of the text. */
  lemma TokensBeforeSpace(t: string, rest: string)
    requires IsToken(t)
    ensures Tokens(t + (" " + rest)) == [t] + Tokens(rest)
  {
    TokensAfterToken(t, " " + rest);
    assert Tokens(" " + rest) == Tokens(rest) by {
      assert (" " + rest)[1..] == rest;
    }
  }

  /** A token followed by whitespace or the end is the first token, and the rest follows. */
  lemma TokensAfterToken(t: string, rest: string)
    requires IsToken(t)
    requires rest == [] || IsSpace(rest[0])
    ensures Tokens(t + rest) == [t] + Tokens(rest)
  {
    WordOfToken(t, rest);
    assert (t + rest)[|t|..] == rest;
  }

  /** The word at the head of a token followed by a break is that token. */
  lemma WordOfToken(t: string, rest: string)
    requires IsToken(t)
    requires rest == [] || IsSpace(rest[0])
    ensures Word(t + rest) == t
  {
    var s := t + rest;
    assert s[..|t|] == t;
    assert |t| < |s| ==> s[|t|] == rest[0];
  }

  // ---------------------------------------------------------------------
  // Sections and lines

  /** The five kinds of description line. */
  datatype Section = States | Alphabet | StartState | FinalState | Transition

  /** The exact header of each section, ending in the space that separates it from the tokens. */
  function Header(sec: Section): (h: string)
    ensures |h| > 0 && h[|h| - 1] == ' ' && ' ' !in h[..|h| - 1]
  {
    match sec
    case States => "states: "
    case Alphabet => "alphabet: "
    case StartState => "startstate: "
    case FinalState => "finalstate: "
    case Transition => "transition: "
  }

  /** The five headers are pairwise different. */
  lemma HeaderInjective(x: Section, y: Section)
    ensures Header(x) == Header(y) <==> x == y
  {
    if x != y {
      var hx, hy := Header(x), Header(y);
      if |hx| == |hy| {
        // The headers of equal length differ in their first character.
        assert hx[0] != hy[0];
      }
    }
  }

  /** The section a header names, if it is one of the five. */
  function SectionOf(header: string): (r: Option<Section>)
    ensures forall sec :: r == Some(sec) <==> header == Header(sec)
  {
    if header == Header(States) then Some(States)
    else if header == Header(Alphabet) then Some(Alphabet)
    else if header == Header(StartState) then Some(StartState)
    else if header == Header(FinalState) then Some(FinalState)
    else if header == Header(Transition) then Some(Transition)
    else None
  }

  /** One description line after lexing: its section and its tokens. */
  datatype Directive = Directive(section: Section, tokens: seq<string>)

  /** The ways a description line can be malformed. */
  datatype ParseError =
    | NoSpace         // no space to end the header
    | NoTokens        // nothing but whitespace after the header
    | InvalidSection  // a header other than the five

  /** Every character of line after position k is whitespace. */
  predicate BlankAfter(line: string, k: nat) {
    forall i :: k < i < |line| ==> IsSpace(line[i])
  }

  /** Every element of ts is a token. */
  predicate AllTokens(ts: seq<string>) {
    forall i :: 0 <= i < |ts| ==> IsToken(ts[i])
  }

  /**
   * Lexing one line: the header is everything up to and including the first
   * space, the tokens are what follows it. The checks come in the source's
   * order: the space, then the tokens, then the header.
   */
  function ParseLine(line: string): (r: Result<Directive, ParseError>)
    ensures r == Failure(NoSpace) <==> ' ' !in line
    ensures r == Failure(NoTokens) <==> ' ' in line && BlankAfter(line, IndexOf(line, ' '))
    ensures r.Success? ==> r.value.tokens != [] && AllTokens(r.value.tokens)
  {
    if ' ' !in line then Failure(NoSpace)
    else
      var k := IndexOf(line, ' ');
      var ts := Tokens(line[k + 1..]);
      assert forall i :: k < i < |line| ==> line[i] == line[k + 1..][i - k - 1];
      if ts == [] then Failure(NoTokens)
      else match SectionOf(line[..k + 1])
        case None => Failure(InvalidSection)
        case Some(sec) => Success(Directive(sec, ts))
  }

  /**
   * A line is accepted as a line of section sec exactly when it starts with
   * that section's header and has at least one token after it; its tokens are
   * then the tokens of what follows the header.
   */
  lemma ParseLineAccepts(line: string, sec: Section)
    ensures (ParseLine(line).Success? && ParseLine(line).value.section == sec) <==>
              (|Header(sec)| <= |line| && line[..|Header(sec)|] == Header(sec)
                 && Tokens(line[|Header(sec)|..]) != [])
    ensures ParseLine(line).Success? && ParseLine(line).value.section == sec ==>
              ParseLine(line).value.tokens == Tokens(line[|Header(sec)|..])
  {
    var h := Header(sec);
    if |h| <= |line| && line[..|h|] == h {
      assert line == h[..|h| - 1] + [' '] + line[|h|..];
      IndexOfAfter(h[..|h| - 1], ' ', line[|h|..]);
    }
  }

  /** A directive written out as a description line. */
  function Render(d: Directive): string {
    Header(d.section) + Unwords(d.tokens)
  }

  /** Lexing a written-out directive gives the directive back. */
  lemma ParseRender(d: Directive)
    requires d.tokens != [] && AllTokens(d.tokens)
    ensures ParseLine(Render(d)) == Success(d)
  {
    var h := Header(d.section);
    var line := Render(d);
    TokensOfUnwords(d.tokens);
    assert line[..|h|] == h;
    assert line[|h|..] == Unwords(d.tokens);
    ParseLineAccepts(line, d.section);
  }
}
