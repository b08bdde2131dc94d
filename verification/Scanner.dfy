/**
  The three hand-written scanners of McpBuilderService: where a parameter list ends, where it
  splits, and what comes before the first `=` or `:`. They share one automaton, which skips
  string literals with escapes and counts brackets.
 */
module Scanner {
  import opened Base
  import opened Text

  predicate IsQuote(c: char) { c == '"' || c == '\'' || c == '`' }
  predicate IsOpen(c: char) { c == '(' || c == '[' || c == '{' }
  predicate IsClose(c: char) { c == ')' || c == ']' || c == '}' }

  /** A character the automaton passes over. */
  predicate IsPlain(c: char) { !IsQuote(c) && !IsOpen(c) && !IsClose(c) }

  /** Bracket depth (negative when unbalanced), the open literal, and whether the next character is escaped. */
  datatype Mode = Mode(depth: int, quote: Option<char>, escaped: bool) {
    predicate Outside() { quote.None? && !escaped }
  }

  const START := Mode(0, None, false)

  function Advance(m: Mode, c: char): Mode {
    if m.escaped then m.(escaped := false)
    else if m.quote.Some? then
      if c == '\\' then m.(escaped := true)
      else if c == m.quote.value then m.(quote := None)
      else m
    else if IsQuote(c) then m.(quote := Some(c))
    else if IsOpen(c) then m.(depth := m.depth + 1)
    else if IsClose(c) then m.(depth := m.depth - 1)
    else m
  }

  function After(m: Mode, s: string): Mode
    decreases s
  {
    if s == "" then m else After(Advance(m, s[0]), s[1..])
  }

  /** Whether `c` is a separator here: outside literals, at depth 0. */
  predicate Cuts(m: Mode, c: char, sep: char) {
    m.Outside() && m.depth == 0 && c == sep
  }

  /** `head` put in front of the first of `pieces`. */
  function Glue(head: string, pieces: seq<string>): seq<string>
    requires pieces != []
  {
    [head + pieces[0]] + pieces[1..]
  }

  /** What `s`, entered in mode `m`, is cut into. */
  function Pieces(m: Mode, s: string, sep: char): (pieces: seq<string>)
    ensures pieces != []
    decreases s
  {
    if s == "" then [""]
    else
      var rest := Pieces(Advance(m, s[0]), s[1..], sep);
      if Cuts(m, s[0], sep) then [""] + rest else Glue([s[0]], rest)
  }

  /** Without a last piece that is blank. */
  function DropBlank(pieces: seq<string>): seq<string>
    requires pieces != []
  {
    if Blank(pieces[|pieces| - 1]) then pieces[..|pieces| - 1] else pieces
  }

  // ---------------------------------------------------------------------------
  // The scanners
  // ---------------------------------------------------------------------------

  lemma GlueGlue(a: string, b: string, pieces: seq<string>)
    requires pieces != []
    ensures Glue(a, Glue(b, pieces)) == Glue(a + b, pieces)
  {
    assert a + (b + pieces[0]) == a + b + pieces[0];
  }

  /** One turn of a loop: the character at `i` is passed over. */
  lemma PassOver(m: Mode, s: string, i: nat, sep: char, current: string)
    requires i < |s| && !Cuts(m, s[i], sep)
    ensures Glue(current, Pieces(m, s[i..], sep))
      == Glue(current + [s[i]], Pieces(Advance(m, s[i]), s[i + 1..], sep))
  {
    assert s[i..][1..] == s[i + 1..];
    GlueGlue(current, [s[i]], Pieces(Advance(m, s[i]), s[i + 1..], sep));
  }

  /** One turn of a loop: the character at `i` is a separator. */
  lemma CutAt(m: Mode, s: string, i: nat, sep: char, current: string)
    requires i < |s| && Cuts(m, s[i], sep) && IsPlain(sep)
    ensures Glue(current, Pieces(m, s[i..], sep)) == [current] + Glue("", Pieces(m, s[i + 1..], sep))
  {
    assert s[i..][1..] == s[i + 1..];
    var rest := Pieces(m, s[i + 1..], sep);
    GlueNothing(rest);
    assert Advance(m, sep) == m;
    assert ([""] + rest)[1..] == rest && current + "" == current;
  }

  method SplitTopLevel(input: string, sep: char) returns (parts: seq<string>)
    requires IsPlain(sep)
    ensures parts == DropBlank(Pieces(START, input, sep))
  {
    hide Pieces, Glue;
    parts := [];
    var depth, quote, current, i := 0, None, "", 0;
    ghost var m := START;
    assert input[0..] == input;
    GlueNothing(Pieces(START, input, sep));
    while i < |input|
      invariant 0 <= i <= |input|
      invariant i < |input| ==> m == Mode(depth, quote, false)
      invariant Pieces(START, input, sep) == parts + Glue(current, Pieces(m, input[i..], sep))
    {
      var ch := input[i];
      if quote.None? && IsPlain(ch) && ch == sep && depth == 0 {
        CutAt(m, input, i, sep, current);
        assert parts + ([current] + Glue("", Pieces(m, input[i + 1..], sep)))
          == (parts + [current]) + Glue("", Pieces(m, input[i + 1..], sep));
        parts := parts + [current];
        current := "";
        i := i + 1;
        continue;
      }
      PassOver(m, input, i, sep, current);
      m := Advance(m, ch);
      current := current + [ch];
      if quote.Some? {
        if ch == '\\' && i + 1 < |input| {
          i := i + 1;
          PassOver(m, input, i, sep, current);
          m := Advance(m, input[i]);
          current := current + [input[i]];
        } else if Some(ch) == quote {
          quote := None;
        }
      } else if IsQuote(ch) {
        quote := Some(ch);
      } else if IsOpen(ch) {
        depth := depth + 1;
      } else if IsClose(ch) {
        depth := depth - 1;
      }
      i := i + 1;
    }
    LastPiece(m, sep, current, input[i..]);
    TrimOfBlank(current);
    if Trim(current) != "" {
      parts := parts + [current];
    }
  }

  lemma GlueNothing(pieces: seq<string>)
    requires pieces != []
    ensures Glue("", pieces) == pieces
  {
    assert "" + pieces[0] == pieces[0];
  }

  lemma LastPiece(m: Mode, sep: char, current: string, rest: string)
    requires rest == ""
    ensures Glue(current, Pieces(m, rest, sep)) == [current]
  {
    assert current + "" == current;
  }

  /** On every input, balanced or not: what comes before the first separator is the first piece. */
  method SliceBeforeTopLevel(input: string, c: char) returns (before: string)
    requires IsPlain(c)
    ensures before == Pieces(START, input, c)[0]
  {
    hide Pieces;
    var depth, quote, i := 0, None, 0;
    ghost var m := START;
    assert input[0..] == input;
    GlueNothing(Pieces(START, input, c));
    while i < |input|
      invariant 0 <= i <= |input| + 1
      invariant i < |input| ==> m == Mode(depth, quote, false)
      invariant i <= |input| ==> Pieces(START, input, c) == Glue(input[..i], Pieces(m, input[i..], c))
      invariant i > |input| ==> Pieces(START, input, c) == [input]
    {
      var ch := input[i];
      if quote.None? && IsPlain(ch) && ch == c && depth == 0 {
        CutAt(m, input, i, c, input[..i]);
        return input[..i];
      }
      PassOver(m, input, i, c, input[..i]);
      assert input[..i] + [ch] == input[..i + 1];
      m := Advance(m, ch);
      if quote.Some? {
        if ch == '\\' {
          i := i + 1;
          if i < |input| {
            PassOver(m, input, i, c, input[..i]);
            assert input[..i] + [input[i]] == input[..i + 1];
            m := Advance(m, input[i]);
          } else {
            LastPiece(m, c, input[..i], input[i..]);
            assert input[..i] == input;
          }
        } else if Some(ch) == quote {
          quote := None;
        }
      } else if IsQuote(ch) {
        quote := Some(ch);
      } else if IsOpen(ch) {
        depth := depth + 1;
      } else if IsClose(ch) {
        depth := depth - 1;
      }
      i := i + 1;
    }
    if i == |input| {
      LastPiece(m, c, input[..i], input[i..]);
      assert input[..i] == input;
    }
    return input;
  }

  /** The closing bracket that brings the depth back to 0. */
  function MatchEnd(m: Mode, s: string): (end: Option<nat>)
    ensures end.Some? ==> end.value < |s| && IsClose(s[end.value])
    decreases s
  {
    if s == "" then None
    else if m.Outside() && IsClose(s[0]) && m.depth == 1 then Some(0)
    else match MatchEnd(Advance(m, s[0]), s[1..])
      case None => None
      case Some(k) => Some(k + 1)
  }

  function Shift(end: Option<nat>, offset: nat): Option<nat> {
    if end.Some? then Some(end.value + offset) else None
  }

  /** The loop of parseParameterList: the closing bracket of the one at `start`, or None. */
  method FindEnd(source: string, start: nat) returns (end: Option<nat>)
    requires start < |source|
    ensures end == Shift(MatchEnd(START, source[start..]), start)
  {
    hide MatchEnd;
    var depth, quote, i := 0, None, start;
    ghost var m := START;
    while i < |source|
      invariant start <= i <= |source| + 1
      invariant i < |source| ==> m == Mode(depth, quote, false)
      invariant Shift(MatchEnd(START, source[start..]), start)
        == if i <= |source| then Shift(MatchEnd(m, source[i..]), i) else None
    {
      var ch := source[i];
      MatchStep(m, source, i);
      m := Advance(m, ch);
      if quote.Some? {
        if ch == '\\' {
          i := i + 1;
          if i < |source| {
            MatchStep(m, source, i);
            m := Advance(m, source[i]);
          } else {
            MatchNothing(m, source[i..]);
          }
        } else if Some(ch) == quote {
          quote := None;
        }
      } else if IsQuote(ch) {
        quote := Some(ch);
      } else if IsOpen(ch) {
        depth := depth + 1;
      } else if IsClose(ch) {
        depth := depth - 1;
        if depth == 0 { return Some(i); }
      }
      i := i + 1;
    }
    if i == |source| { MatchNothing(m, source[i..]); }
    return None;
  }

  lemma MatchStep(m: Mode, s: string, i: nat)
    requires i < |s|
    ensures Shift(MatchEnd(m, s[i..]), i)
      == if m.Outside() && IsClose(s[i]) && m.depth == 1 then Some(i)
         else Shift(MatchEnd(Advance(m, s[i]), s[i + 1..]), i + 1)
  {
    assert s[i..][1..] == s[i + 1..];
  }

  lemma MatchNothing(m: Mode, s: string)
    requires s == ""
    ensures MatchEnd(m, s) == None
  {}

  // ---------------------------------------------------------------------------
  // Names
  // ---------------------------------------------------------------------------

  /** The last of s.split(/\s+/).filter(Boolean), or nothing. */
  function LastWord(s: string): string {
    TrailingWord(TrimEnd(s))
  }

  function TrailingWord(s: string): string {
    if s == "" || IsSpace(s[|s| - 1]) then "" else TrailingWord(s[..|s| - 1]) + [s[|s| - 1]]
  }

  function NameOf(param: string): string {
    var p := Trim(Pieces(START, Trim(param), '=')[0]);
    if p == "" || p[0] == '{' || p[0] == '[' || StartsWith(p, "...") then ""
    else LastWord(Trim(Pieces(START, p, ':')[0]))
  }

  method ParameterName(param: string) returns (name: string)
    ensures name == NameOf(param)
  {
    var p := SliceBeforeTopLevel(Trim(param), '=');
    p := Trim(p);
    if p == "" || p[0] == '{' || p[0] == '[' || StartsWith(p, "...") { return ""; }
    p := SliceBeforeTopLevel(p, ':');
    name := LastWord(Trim(p));
  }

  function Names(params: seq<string>): seq<string> {
    if params == [] then []
    else (if NameOf(params[0]) == "" then [] else [NameOf(params[0])]) + Names(params[1..])
  }

  function NamesOf(source: string): seq<string> {
    if '(' !in source then []
    else
      var start := IndexOf(source, '(');
      match MatchEnd(START, source[start..])
      case None => []
      case Some(k) => Names(DropBlank(Pieces(START, source[start + 1..start + k], ',')))
  }

  function IndexOf(s: string, c: char): (i: nat)
    requires c in s
    ensures i < |s| && s[i] == c && c !in s[..i]
  {
    if s[0] == c then 0 else 1 + IndexOf(s[1..], c)
  }

  method ParseParameterList(source: string) returns (names: seq<string>)
    ensures names == NamesOf(source)
  {
    hide NameOf, MatchEnd, Pieces, Blank;
    if '(' !in source { return []; }
    var start := IndexOf(source, '(');
    var end := FindEnd(source, start);
    if end.None? { return []; }
    var params := SplitTopLevel(source[start + 1..end.value], ',');
    names := [];
    for i := 0 to |params|
      invariant Names(params) == names + Names(params[i..])
    {
      var name := ParameterName(params[i]);
      assert params[i..][1..] == params[i + 1..];
      if name != "" { names := names + [name]; }
    }
    assert params[|params|..] == [];
  }
}
