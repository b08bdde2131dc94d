/**
  Serialized policies. Parse is "parse a serialized CSP", section 2.2.1 of Content Security
  Policy Level 3; Print is the form the generator uses. The main theorem says what a browser
  reads back from a printed policy: every directive whose text is ASCII, exactly as meant,
  and none of the others.
 */
module CspParser {
  import opened Base
  import opened Text

  datatype Directive = Directive(name: string, value: seq<string>)

  // ---------------------------------------------------------------------------
  // The parser
  // ---------------------------------------------------------------------------

  predicate AsciiSpace(c: char) { c == '\t' || c == '\n' || c == '\U{000C}' || c == '\r' || c == ' ' }

  predicate Ascii(s: string) { forall c :: c in s ==> c <= '\U{007F}' }

  function StripStart(s: string): (r: string)
    ensures |r| <= |s|
  {
    if s != "" && AsciiSpace(s[0]) then StripStart(s[1..]) else s
  }

  function StripEnd(s: string): (r: string)
    ensures |r| <= |s|
  {
    if s != "" && AsciiSpace(s[|s| - 1]) then StripEnd(s[..|s| - 1]) else s
  }

  /** The longest prefix without ASCII whitespace. */
  function Word(s: string): (r: string)
    ensures r <= s
  {
    if s == "" || AsciiSpace(s[0]) then "" else [s[0]] + Word(s[1..])
  }

  /** Split on ASCII whitespace. */
  function Words(s: string): seq<string>
    decreases |s|
  {
    var t := StripStart(s);
    if t == "" then [] else
      assert !AsciiSpace(t[0]) by { StripStartHead(s); }
      assert Word(t) == [t[0]] + Word(t[1..]);
      [Word(t)] + Words(t[|Word(t)|..])
  }

  lemma {:induction false} StripStartHead(s: string)
    ensures StripStart(s) != "" ==> !AsciiSpace(StripStart(s)[0])
  {
    if s != "" && AsciiSpace(s[0]) { StripStartHead(s[1..]); }
  }

  /** One token between semicolons: nothing if it is empty or not ASCII. */
  function ParseToken(token: string): Option<Directive> {
    var t := StripEnd(StripStart(token));
    if t == "" || !Ascii(t) then None
    else Some(Directive(Lower(Word(t)), Words(t[|Word(t)|..])))
  }

  predicate Defines(policy: seq<Directive>, name: string) {
    exists i :: 0 <= i < |policy| && policy[i].name == name
  }

  /** A directive whose name is already there is ignored. */
  function ParseTokens(tokens: seq<string>, policy: seq<Directive>): seq<Directive> {
    if tokens == [] then policy
    else match ParseToken(tokens[0])
      case Some(d) => ParseTokens(tokens[1..], if Defines(policy, d.name) then policy else policy + [d])
      case None => ParseTokens(tokens[1..], policy)
  }

  function Parse(serialized: string): seq<Directive> {
    ParseTokens(Split(serialized, ';'), [])
  }

  // ---------------------------------------------------------------------------
  // The printer
  // ---------------------------------------------------------------------------

  function PrintDirective(d: Directive): string {
    if d.value == [] then d.name else d.name + " " + Join(d.value, " ")
  }

  function PrintDirectives(policy: seq<Directive>): (parts: seq<string>)
    ensures |parts| == |policy| && forall i :: 0 <= i < |parts| ==> parts[i] == PrintDirective(policy[i])
  {
    seq(|policy|, i requires 0 <= i < |policy| => PrintDirective(policy[i]))
  }

  function Print(policy: seq<Directive>): string {
    Join(PrintDirectives(policy), "; ")
  }

  // ---------------------------------------------------------------------------
  // What can be read back
  // ---------------------------------------------------------------------------

  /** A word that cannot end a value or a directive. */
  predicate Safe(s: string) {
    s != "" && forall c :: c in s ==> !AsciiSpace(c) && c != ';'
  }

  predicate SafeDirective(d: Directive) {
    && Safe(d.name) && Ascii(d.name) && Lower(d.name) == d.name
    && forall i :: 0 <= i < |d.value| ==> Safe(d.value[i])
  }

  predicate AsciiDirective(d: Directive) {
    forall i :: 0 <= i < |d.value| ==> Ascii(d.value[i])
  }

  function AsciiOnly(policy: seq<Directive>): seq<Directive> {
    if policy == [] then []
    else (if AsciiDirective(policy[0]) then [policy[0]] else []) + AsciiOnly(policy[1..])
  }

  lemma {:induction false} WordOfSafe(s: string, rest: string)
    requires Safe(s) && (rest == "" || AsciiSpace(rest[0]))
    ensures Word(s + rest) == s
  {
    assert (s + rest)[0] == s[0] && (s + rest)[1..] == s[1..] + rest;
    if |s| == 1 {
      assert (s + rest)[1..] == rest;
    } else {
      WordOfSafe(s[1..], rest);
    }
    assert s == [s[0]] + s[1..];
  }

  /** A list of words with one blank before each. */
  function Spaced(words: seq<string>): string {
    if words == [] then "" else " " + words[0] + Spaced(words[1..])
  }

  lemma {:induction false} SpacedJoin(words: seq<string>)
    requires words != []
    ensures " " + Join(words, " ") == Spaced(words)
  {
    if |words| > 1 {
      SpacedJoin(words[1..]);
      assert " " + (words[0] + " " + Join(words[1..], " ")) == " " + words[0] + (" " + Join(words[1..], " "));
    } else {
      assert Spaced(words) == " " + words[0] + Spaced([]);
    }
  }

  lemma {:induction false} WordsOfSpaced(words: seq<string>)
    requires forall i :: 0 <= i < |words| ==> Safe(words[i])
    ensures Words(Spaced(words)) == words
  {
    if words != [] {
      var s, rest := Spaced(words), Spaced(words[1..]);
      assert s[1..] == words[0] + rest;
      assert words[0][0] in words[0];
      assert StripStart(s[1..]) == s[1..];
      WordOfSafe(words[0], rest);
      assert (words[0] + rest)[|words[0]|..] == rest;
      WordsOfSpaced(words[1..]);
    }
  }

  /** A printed directive: its characters, its ends, and when it is ASCII. */
  lemma {:induction false} SpacedChars(words: seq<string>)
    requires forall i :: 0 <= i < |words| ==> Safe(words[i])
    ensures ';' !in Spaced(words)
    ensures Ascii(Spaced(words)) <==> forall i :: 0 <= i < |words| ==> Ascii(words[i])
    ensures words != [] ==> Spaced(words) != "" && !AsciiSpace(Spaced(words)[|Spaced(words)| - 1])
  {
    if words != [] {
      SpacedChars(words[1..]);
      var w, rest := words[0], Spaced(words[1..]);
      var s := " " + w + rest;
      assert w[|w| - 1] in w;
      if Ascii(s) {
        assert forall c :: c in w ==> c in s;
        assert forall c :: c in rest ==> c in s;
        forall i | 0 <= i < |words| ensures Ascii(words[i]) {
          if i > 0 { assert words[i] == words[1..][i - 1]; }
        }
      } else {
        var c :| c in s && !(c <= '\U{007F}');
        assert c in w || c in rest;
        if Ascii(w) {
          var i :| 0 <= i < |words[1..]| && !Ascii(words[1..][i]);
          assert words[i + 1] == words[1..][i];
        }
      }
    }
  }

  lemma PrintedDirective(d: Directive)
    requires SafeDirective(d)
    ensures PrintDirective(d) == d.name + Spaced(d.value)
    ensures ';' !in PrintDirective(d)
    ensures Ascii(PrintDirective(d)) <==> AsciiDirective(d)
    ensures StripStart(PrintDirective(d)) == PrintDirective(d) && StripEnd(PrintDirective(d)) == PrintDirective(d)
  {
    var s := PrintDirective(d);
    if d.value != [] {
      SpacedJoin(d.value);
      assert d.name + " " + Join(d.value, " ") == d.name + (" " + Join(d.value, " "));
    }
    SpacedChars(d.value);
    assert s == d.name + Spaced(d.value);
    assert d.name[0] in d.name && d.name[|d.name| - 1] in d.name;
    assert forall c :: c in s <==> c in d.name || c in Spaced(d.value);
  }

  /** The parser reads a printed directive back, or drops it when it is not ASCII. */
  lemma TokenRoundTrip(d: Directive, pad: string)
    requires SafeDirective(d) && (pad == "" || pad == " ")
    ensures ParseToken(pad + PrintDirective(d)) == if AsciiDirective(d) then Some(d) else None
  {
    var s := PrintDirective(d);
    PrintedDirective(d);
    if pad == "" { assert pad + s == s; } else { assert (pad + s)[1..] == s; }
    assert StripStart(pad + s) == s;
    SpacedChars(d.value);
    WordOfSafe(d.name, Spaced(d.value));
    assert s[|d.name|..] == Spaced(d.value);
    WordsOfSpaced(d.value);
  }

  /** The tokens of a printed policy: every part after the first keeps the blank of its "; ". */
  function Tokens(parts: seq<string>): seq<string> {
    if parts == [] then [] else [" " + parts[0]] + Tokens(parts[1..])
  }

  lemma {:induction false} SplitPrinted(parts: seq<string>)
    requires parts != [] && forall i :: 0 <= i < |parts| ==> ';' !in parts[i]
    ensures Split(Join(parts, "; "), ';') == [parts[0]] + Tokens(parts[1..])
  {
    SplitFree(parts[0], ';');
    if |parts| > 1 {
      var rest := Join(parts[1..], "; ");
      assert Join(parts, "; ") == parts[0] + [';'] + (" " + rest);
      SplitConcat(parts[0], ';', " " + rest);
      SplitPrinted(parts[1..]);
      assert (" " + rest)[1..] == rest;
      assert [" " + parts[1..][0]] + Tokens(parts[1..][1..]) == Tokens(parts[1..]);
    }
  }

  ghost predicate Distinct(policy: seq<Directive>) {
    forall i, j :: 0 <= i < j < |policy| ==> policy[i].name != policy[j].name
  }

  /** The policy after one more token. */
  function Extend(policy: seq<Directive>, token: string): seq<Directive> {
    match ParseToken(token)
    case Some(d) => if Defines(policy, d.name) then policy else policy + [d]
    case None => policy
  }

  lemma ParseOne(token: string, rest: seq<string>, before: seq<Directive>)
    ensures ParseTokens([token] + rest, before) == ParseTokens(rest, Extend(before, token))
  {
    hide ParseToken, Defines;
    assert ([token] + rest)[1..] == rest;
  }

  lemma ExtendPrinted(d: Directive, pad: string, before: seq<Directive>)
    requires SafeDirective(d) && (pad == "" || pad == " ")
    requires forall i :: 0 <= i < |before| ==> before[i].name != d.name
    ensures Extend(before, pad + PrintDirective(d)) == before + AsciiOnly([d])
  {
    hide ParseToken, PrintDirective;
    TokenRoundTrip(d, pad);
    assert [d][1..] == [];
  }

  lemma AsciiOnlyCons(d: Directive, policy: seq<Directive>)
    ensures AsciiOnly([d] + policy) == AsciiOnly([d]) + AsciiOnly(policy)
  {
    assert ([d] + policy)[1..] == policy && [d][1..] == [];
  }

  lemma {:induction false} ParseRest(policy: seq<Directive>, before: seq<Directive>)
    requires forall i :: 0 <= i < |policy| ==> SafeDirective(policy[i])
    requires Distinct(policy)
    requires forall i, j :: 0 <= i < |before| && 0 <= j < |policy| ==> before[i].name != policy[j].name
    ensures ParseTokens(Tokens(PrintDirectives(policy)), before) == before + AsciiOnly(policy)
  {
    hide ParseToken, PrintDirective, SafeDirective, AsciiDirective, ParseTokens, Extend;
    if policy == [] {
      assert ParseTokens([], before) == before by { ParseNone(before); }
    } else {
      var parts, next := PrintDirectives(policy), before + AsciiOnly([policy[0]]);
      assert parts[1..] == PrintDirectives(policy[1..]);
      ParseOne(" " + parts[0], Tokens(parts[1..]), before);
      ExtendPrinted(policy[0], " ", before);
      assert [policy[0]][1..] == [];
      ParseRest(policy[1..], next);
      assert [policy[0]] + policy[1..] == policy;
      AsciiOnlyCons(policy[0], policy[1..]);
    }
  }

  lemma ParseNone(before: seq<Directive>)
    ensures ParseTokens([], before) == before
  {}

  lemma {:induction false} ParseTokensOfPrint(policy: seq<Directive>)
    requires policy != [] && forall i :: 0 <= i < |policy| ==> SafeDirective(policy[i])
    ensures Parse(Print(policy))
      == ParseTokens([PrintDirective(policy[0])] + Tokens(PrintDirectives(policy[1..])), [])
  {
    var parts := PrintDirectives(policy);
    forall i | 0 <= i < |parts| ensures ';' !in parts[i] { PrintedDirective(policy[i]); }
    SplitPrinted(parts);
    assert parts[1..] == PrintDirectives(policy[1..]);
  }

  /** A printed policy parses to its ASCII directives, in order and unchanged. */
  lemma {:induction false} ParsePrint(policy: seq<Directive>)
    requires policy != [] && Distinct(policy)
    requires forall i :: 0 <= i < |policy| ==> SafeDirective(policy[i])
    ensures Parse(Print(policy)) == AsciiOnly(policy)
  {
    hide Parse, Print, PrintDirective, SafeDirective, AsciiOnly, ParseTokens, Extend, Tokens;
    ParseTokensOfPrint(policy);
    var first, rest := policy[0], policy[1..];
    assert "" + PrintDirective(first) == PrintDirective(first);
    ExtendPrinted(first, "", []);
    assert [] + AsciiOnly([first]) == AsciiOnly([first]);
    ParseOne(PrintDirective(first), Tokens(PrintDirectives(rest)), []);
    NamesOfOne(first);
    ParseRest(rest, AsciiOnly([first]));
    assert [first] + rest == policy;
    AsciiOnlyCons(first, rest);
  }

  lemma NamesOfOne(d: Directive)
    ensures forall i :: 0 <= i < |AsciiOnly([d])| ==> AsciiOnly([d])[i] == d
  {
    assert [d][1..] == [];
  }

  /** Nothing is lost exactly when every directive is ASCII. */
  lemma {:induction false} AsciiOnlyIsAll(policy: seq<Directive>)
    ensures |AsciiOnly(policy)| <= |policy|
    ensures AsciiOnly(policy) == policy <==> forall i :: 0 <= i < |policy| ==> AsciiDirective(policy[i])
  {
    if policy != [] {
      AsciiOnlyIsAll(policy[1..]);
      if AsciiDirective(policy[0]) {
        assert [policy[0]] + policy[1..] == policy;
        if AsciiOnly(policy) == policy { assert AsciiOnly(policy)[1..] == AsciiOnly(policy[1..]); }
      }
    }
  }
}
