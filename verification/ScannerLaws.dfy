/** What the scanners guarantee: conservation, agreement, and the round trip of a parameter list. */
module ScannerLaws {
  import opened Base
  import opened Text
  import opened Scanner

  // ---------------------------------------------------------------------------
  // Cutting
  // ---------------------------------------------------------------------------

  /** Read from mode `m`, `s` holds no separator at depth 0 outside a literal. */
  predicate Uncut(m: Mode, s: string, sep: char) {
    Pieces(m, s, sep) == [s]
  }

  lemma {:induction false} AfterConcat(m: Mode, a: string, b: string)
    ensures After(m, a + b) == After(After(m, a), b)
    decreases a
  {
    if a == "" {
      assert a + b == b;
    } else {
      assert (a + b)[1..] == a[1..] + b;
      AfterConcat(Advance(m, a[0]), a[1..], b);
    }
  }

  lemma {:induction false} UncutStep(m: Mode, s: string, sep: char)
    requires s != ""
    ensures Uncut(m, s, sep) <==> !Cuts(m, s[0], sep) && Uncut(Advance(m, s[0]), s[1..], sep)
  {
    var rest := Pieces(Advance(m, s[0]), s[1..], sep);
    assert s == [s[0]] + s[1..];
    if !Cuts(m, s[0], sep) && Uncut(m, s, sep) {
      var glued := [s[0]] + rest[0];
      assert Pieces(m, s, sep)[0] == glued && |Pieces(m, s, sep)| == |rest|;
      assert glued[1..] == rest[0];
    }
  }

  lemma {:induction false} PiecesConcat(m: Mode, a: string, b: string, sep: char)
    requires Uncut(m, a, sep)
    ensures Pieces(m, a + b, sep) == Glue(a, Pieces(After(m, a), b, sep))
    decreases a
  {
    if a == "" {
      assert a + b == b;
      GlueNothing(Pieces(m, b, sep));
    } else {
      assert (a + b)[0] == a[0] && (a + b)[1..] == a[1..] + b && a == [a[0]] + a[1..];
      UncutStep(m, a, sep);
      PiecesConcat(Advance(m, a[0]), a[1..], b, sep);
      GlueGlue([a[0]], a[1..], Pieces(After(m, a), b, sep));
    }
  }

  lemma UncutConcat(m: Mode, a: string, b: string, sep: char)
    requires Uncut(m, a, sep) && Uncut(After(m, a), b, sep)
    ensures Uncut(m, a + b, sep)
  {
    PiecesConcat(m, a, b, sep);
  }

  /** Conservation: the pieces joined by the separator are the input. */
  lemma {:induction false} PiecesJoin(m: Mode, s: string, sep: char)
    ensures Join(Pieces(m, s, sep), [sep]) == s
    decreases s
  {
    if s != "" {
      var rest := Pieces(Advance(m, s[0]), s[1..], sep);
      PiecesJoin(Advance(m, s[0]), s[1..], sep);
      assert s == [s[0]] + s[1..];
      if Cuts(m, s[0], sep) {
        assert ([""] + rest)[1..] == rest;
      } else {
        JoinGlue([s[0]], rest, sep);
      }
    }
  }

  lemma JoinGlue(head: string, pieces: seq<string>, sep: char)
    requires pieces != []
    ensures Join(Glue(head, pieces), [sep]) == head + Join(pieces, [sep])
  {
    if |pieces| > 1 {
      assert Glue(head, pieces)[1..] == pieces[1..];
      assert head + pieces[0] + [sep] + Join(pieces[1..], [sep])
        == head + (pieces[0] + [sep] + Join(pieces[1..], [sep]));
    }
  }

  /** A separator is only found at depth 0 outside literals, so every piece but the last ends there. */
  ghost predicate Whole(pieces: seq<string>, sep: char) {
    && pieces != []
    && (forall i :: 0 <= i < |pieces| ==> Uncut(START, pieces[i], sep))
    && (forall i :: 0 <= i < |pieces| - 1 ==> After(START, pieces[i]) == START)
  }

  lemma {:induction false} PiecesWhole(m: Mode, s: string, sep: char)
    requires IsPlain(sep)
    ensures var p := Pieces(m, s, sep);
      && Uncut(m, p[0], sep) && (|p| > 1 ==> After(m, p[0]) == START && Whole(p[1..], sep))
    decreases s
  {
    if s != "" {
      var rest := Pieces(Advance(m, s[0]), s[1..], sep);
      PiecesWhole(Advance(m, s[0]), s[1..], sep);
      if Cuts(m, s[0], sep) {
        assert Advance(m, s[0]) == START && m == START;
        assert ([""] + rest)[1..] == rest;
        if |rest| > 1 { WholeCons(rest[0], rest[1..], sep); }
      } else {
        var first := [s[0]] + rest[0];
        assert first[0] == s[0] && first[1..] == rest[0];
        UncutStep(m, first, sep);
      }
    }
  }

  lemma WholeCons(p: string, rest: seq<string>, sep: char)
    requires Uncut(START, p, sep) && After(START, p) == START && Whole(rest, sep)
    ensures Whole([p] + rest, sep)
  {
    var all := [p] + rest;
    forall i | 0 <= i < |all| ensures Uncut(START, all[i], sep) { if i > 0 { assert all[i] == rest[i - 1]; } }
    forall i | 0 <= i < |all| - 1 ensures After(START, all[i]) == START { if i > 0 { assert all[i] == rest[i - 1]; } }
  }

  /** The pieces are the only such list: cutting what was joined gives the same pieces back. */
  lemma {:induction false} PiecesOfJoin(pieces: seq<string>, sep: char)
    requires Whole(pieces, sep) && IsPlain(sep)
    ensures Pieces(START, Join(pieces, [sep]), sep) == pieces
  {
    if |pieces| > 1 {
      var rest := pieces[1..];
      assert Whole(rest, sep);
      PiecesOfJoin(rest, sep);
      var after := [sep] + Join(rest, [sep]);
      assert Join(pieces, [sep]) == pieces[0] + after;
      PiecesConcat(START, pieces[0], after, sep);
      assert after[1..] == Join(rest, [sep]);
      assert Pieces(START, after, sep) == [""] + rest;
      assert ([""] + rest)[1..] == rest && pieces[0] + "" == pieces[0];
    }
  }

  /**
    splitTopLevel cuts exactly at the separators at depth 0 outside literals: a list of
    pieces is the cut of `s` if and only if it is whole and joins to `s`.
   */
  lemma CutIsUnique(s: string, pieces: seq<string>, sep: char)
    requires IsPlain(sep)
    ensures Pieces(START, s, sep) == pieces <==> Whole(pieces, sep) && Join(pieces, [sep]) == s
  {
    PiecesJoin(START, s, sep);
    PiecesWhole(START, s, sep);
    var p := Pieces(START, s, sep);
    if |p| > 1 { WholeCons(p[0], p[1..], sep); assert [p[0]] + p[1..] == p; }
    if Whole(pieces, sep) { PiecesOfJoin(pieces, sep); }
  }

  /** What splitTopLevel returns: all of it, or all but a blank last piece. */
  lemma SplitConserves(s: string, sep: char)
    requires IsPlain(sep)
    ensures var parts := DropBlank(Pieces(START, s, sep));
      || (parts != [] && Join(parts, [sep]) == s && !Blank(parts[|parts| - 1]))
      || (exists blank :: Blank(blank) && Join(parts + [blank], [sep]) == s)
    ensures DropBlank(Pieces(START, s, sep)) == [] <==> Uncut(START, s, sep) && Blank(s)
  {
    PiecesJoin(START, s, sep);
    var p := Pieces(START, s, sep);
    assert p == p[..|p| - 1] + [p[|p| - 1]];
    if Blank(p[|p| - 1]) {
      assert Join(DropBlank(p) + [p[|p| - 1]], [sep]) == s;
      if |p| == 1 { assert p == [s]; }
    }
  }

  /** The two scanners agree: the slice is the first part, unless the only part was blank and dropped. */
  lemma SliceAgreesWithSplit(s: string, sep: char)
    requires IsPlain(sep)
    ensures var parts := DropBlank(Pieces(START, s, sep)); var slice := Pieces(START, s, sep)[0];
      if parts == [] then slice == s && Blank(s) else slice == parts[0]
  {
    SplitConserves(s, sep);
  }

  // ---------------------------------------------------------------------------
  // Parameter lists
  // ---------------------------------------------------------------------------

  datatype Lit = Bare(c: char) | Escape(c: char)

  /** A default value: characters, complete literals, and bracketed groups. */
  datatype Chunk =
    | Text(c: char)
    | Literal(quote: char, lits: seq<Lit>)
    | Group(open: char, inner: seq<Chunk>, close: char)

  /** Neither a quote nor a bracket. */
  predicate OrdinaryChar(c: char) {
    && c != '"' && c != '\'' && c != '`'
    && c != '(' && c != '[' && c != '{' && c != ')' && c != ']' && c != '}'
  }

  lemma Characters(c: char)
    ensures OrdinaryChar(c) <==> IsPlain(c)
    ensures c == '"' || c == '\'' || c == '`' <==> IsQuote(c)
    ensures c == '(' || c == '[' || c == '{' <==> IsOpen(c)
    ensures c == ')' || c == ']' || c == '}' <==> IsClose(c)
  {}

  predicate GoodChunk(chunk: Chunk, nested: bool) {
    match chunk
    case Text(c) => OrdinaryChar(c) && (c == ',' ==> nested)
    case Literal(quote, lits) =>
      && (quote == '"' || quote == '\'' || quote == '`')
      && forall i :: 0 <= i < |lits| && lits[i].Bare? ==> lits[i].c != quote && lits[i].c != '\\'
    case Group(open, inner, close) =>
      && (open == '(' || open == '[' || open == '{') && (close == ')' || close == ']' || close == '}')
      && forall i :: 0 <= i < |inner| ==> GoodChunk(inner[i], true)
  }

  predicate GoodChunks(chunks: seq<Chunk>, nested: bool) {
    forall i :: 0 <= i < |chunks| ==> GoodChunk(chunks[i], nested)
  }

  function PrintLits(lits: seq<Lit>): string {
    if lits == [] then ""
    else (if lits[0].Bare? then [lits[0].c] else ['\\', lits[0].c]) + PrintLits(lits[1..])
  }

  function PrintChunk(chunk: Chunk): string {
    match chunk
    case Text(c) => [c]
    case Literal(quote, lits) => [quote] + PrintLits(lits) + [quote]
    case Group(open, inner, close) => [open] + PrintChunks(inner) + [close]
  }

  function PrintChunks(chunks: seq<Chunk>): string {
    if chunks == [] then "" else PrintChunk(chunks[0]) + PrintChunks(chunks[1..])
  }

  /** `s` leaves the mode as it was, holds no top-level comma, and closes no outer bracket. */
  predicate Passes(m: Mode, s: string) {
    After(m, s) == m && Uncut(m, s, ',') && (m.depth >= 1 ==> MatchEnd(m, s) == None)
  }

  lemma {:induction false} MatchConcat(m: Mode, a: string, b: string)
    requires MatchEnd(m, a) == None
    ensures MatchEnd(m, a + b) == Shift(MatchEnd(After(m, a), b), |a|)
    decreases a
  {
    if a == "" {
      assert a + b == b;
    } else {
      assert (a + b)[0] == a[0] && (a + b)[1..] == a[1..] + b;
      MatchConcat(Advance(m, a[0]), a[1..], b);
    }
  }

  lemma PassesConcat(m: Mode, a: string, b: string)
    requires Passes(m, a) && Passes(m, b)
    ensures Passes(m, a + b)
  {
    AfterConcat(m, a, b);
    UncutConcat(m, a, b, ',');
    if m.depth >= 1 { MatchConcat(m, a, b); }
  }

  lemma PassesNothing(m: Mode)
    ensures Passes(m, "")
  {}

  lemma PassesOne(m: Mode, c: char)
    requires Advance(m, c) == m && !Cuts(m, c, ',') && !(m.Outside() && IsClose(c))
    ensures Passes(m, [c])
  {
    assert [c][1..] == "" && [c] + "" == [c];
  }

  lemma {:induction false} PlainPasses(m: Mode, s: string)
    requires m.Outside() && forall c :: c in s ==> IsPlain(c) && (c == ',' ==> m.depth >= 1)
    ensures Passes(m, s)
  {
    if s == "" {
      PassesNothing(m);
    } else {
      assert s[0] in s;
      PassesOne(m, s[0]);
      PlainPasses(m, s[1..]);
      PassesConcat(m, [s[0]], s[1..]);
      assert s == [s[0]] + s[1..];
    }
  }

  /** Inside a literal a bare character or an escaped one passes. */
  lemma {:induction false} LitsPass(m: Mode, lits: seq<Lit>)
    requires m.quote.Some? && !m.escaped
    requires forall i :: 0 <= i < |lits| && lits[i].Bare? ==> lits[i].c != m.quote.value && lits[i].c != '\\'
    ensures Passes(m, PrintLits(lits))
    decreases |lits|
  {
    if lits == [] {
      PassesNothing(m);
    } else {
      var c := lits[0].c;
      if lits[0].Bare? { PassesOne(m, c); } else { EscapePasses(m, c); }
      LitsPass(m, lits[1..]);
      PassesConcat(m, if lits[0].Bare? then [c] else ['\\', c], PrintLits(lits[1..]));
    }
  }

  lemma EscapePasses(m: Mode, c: char)
    requires m.quote.Some? && !m.escaped
    ensures Passes(m, ['\\', c])
  {
    var s := ['\\', c];
    var skipping := m.(escaped := true);
    assert s[1..] == [c] && [c][1..] == "" && [c] + "" == [c] && ['\\'] + [c] == s;
    assert Advance(m, '\\') == skipping && Advance(skipping, c) == m;
    assert After(skipping, [c]) == After(m, "") == m;
    assert Pieces(skipping, [c], ',') == [[c]];
    assert MatchEnd(skipping, [c]) == None;
  }

  /** An opening character, something that passes inside, and the closing one. */
  lemma EnclosedPasses(m: Mode, a: char, inner: string, b: char)
    requires m.Outside() && m.depth >= 0 && (IsOpen(a) || IsQuote(a))
    requires Passes(Advance(m, a), inner) && Advance(Advance(m, a), b) == m
    requires if IsOpen(a) then IsClose(b) else a == b
    ensures Passes(m, [a] + inner + [b])
  {
    var m1, s := Advance(m, a), inner + [b];
    assert [a] + inner + [b] == [a] + s && ([a] + s)[1..] == s;
    assert [b][1..] == "" && [b] + "" == [b];
    AfterConcat(m1, inner, [b]);
    assert Pieces(m1, [b], ',') == [[b]];
    UncutConcat(m1, inner, [b], ',');
    UncutStep(m, [a] + s, ',');
    if m.depth >= 1 {
      MatchConcat(m1, inner, [b]);
      assert MatchEnd(m1, [b]) == None;
    }
  }

  lemma {:induction false} ChunkPasses(m: Mode, chunk: Chunk)
    requires m.Outside() && m.depth >= 0 && GoodChunk(chunk, m.depth >= 1)
    ensures Passes(m, PrintChunk(chunk))
    decreases chunk
  {
    match chunk
    case Text(c) =>
      Characters(c);
      PlainPasses(m, [c]);
    case Literal(quote, lits) =>
      Characters(quote);
      LitsPass(Advance(m, quote), lits);
      EnclosedPasses(m, quote, PrintLits(lits), quote);
    case Group(open, inner, close) =>
      Characters(open);
      Characters(close);
      ChunksPass(Advance(m, open), inner);
      EnclosedPasses(m, open, PrintChunks(inner), close);
  }

  lemma {:induction false} ChunksPass(m: Mode, chunks: seq<Chunk>)
    requires m.Outside() && m.depth >= 0 && GoodChunks(chunks, m.depth >= 1)
    ensures Passes(m, PrintChunks(chunks))
    decreases chunks
  {
    if chunks == [] {
      PassesNothing(m);
    } else {
      ChunkPasses(m, chunks[0]);
      ChunksPass(m, chunks[1..]);
      PassesConcat(m, PrintChunk(chunks[0]), PrintChunks(chunks[1..]));
    }
  }

  /**
    A parameter: `before lead name gap : type = default after`, the lead being modifiers with
    blanks between them; or one without a name, a pattern or a rest parameter.
   */
  datatype Param =
    | Named(before: string, lead: string, name: string, gap: string,
            annotation: Option<seq<Chunk>>, default: Option<seq<Chunk>>, after: string)
    | Nameless(before: string, chunks: seq<Chunk>, after: string)

  predicate WordChar(c: char) { OrdinaryChar(c) && c != ',' && c != '=' && c != ':' }

  predicate GoodName(lead: string, name: string) {
    && name != "" && !StartsWith(lead + name, "...")
    && (lead != "" ==> !IsSpace(lead[0]) && IsSpace(lead[|lead| - 1]))
    && (forall c :: c in lead ==> WordChar(c)) && (forall c :: c in name ==> WordChar(c) && !IsSpace(c))
  }

  /** How a destructured parameter or a rest parameter begins. */
  predicate BeginsNameless(s: string) { StartsWith(s, "{") || StartsWith(s, "[") || StartsWith(s, "...") }

  predicate GoodParam(p: Param) {
    && Blank(p.before) && Blank(p.after)
    && match p
       case Named(_, lead, name, gap, annotation, default, _) =>
         && Blank(gap) && GoodName(lead, name)
         && (annotation.Some? ==> GoodChunks(annotation.value, false))
         && (default.Some? ==> GoodChunks(default.value, false))
       case Nameless(_, chunks, _) => GoodChunks(chunks, false) && BeginsNameless(PrintChunks(chunks))
  }

  function PrintPart(mark: string, chunks: Option<seq<Chunk>>): string {
    if chunks.Some? then mark + PrintChunks(chunks.value) else ""
  }

  function PrintParam(p: Param): string {
    match p
    case Named(before, lead, name, gap, annotation, default, after) =>
      before + (lead + name + gap) + (PrintPart(":", annotation) + PrintPart("=", default)) + after
    case Nameless(before, chunks, after) => before + PrintChunks(chunks) + after
  }

  function PrintParams(params: seq<Param>): seq<string> {
    if params == [] then [] else [PrintParam(params[0])] + PrintParams(params[1..])
  }

  /** The names of those that have one. */
  function NamesIn(params: seq<Param>): seq<string> {
    if params == [] then []
    else (if params[0].Named? then [params[0].name] else []) + NamesIn(params[1..])
  }

  lemma BlankIsPlain(s: string)
    requires Blank(s)
    ensures forall c :: c in s ==> IsPlain(c) && c != ',' && c != '=' && c != ':'
  {}

  lemma WordIsPlain(s: string)
    requires forall c :: c in s ==> WordChar(c)
    ensures forall c :: c in s ==> IsPlain(c) && c != ',' && c != '=' && c != ':'
  {
    forall c | c in s ensures IsPlain(c) { Characters(c); }
  }

  lemma PartPasses(m: Mode, mark: char, chunks: Option<seq<Chunk>>)
    requires m.Outside() && 0 <= m.depth <= 1 && IsPlain(mark) && mark != ','
    requires chunks.Some? ==> GoodChunks(chunks.value, false)
    ensures Passes(m, PrintPart([mark], chunks))
  {
    if chunks.Some? {
      PlainPasses(m, [mark]);
      GoodNested(chunks.value);
      ChunksPass(m, chunks.value);
      PassesConcat(m, [mark], PrintChunks(chunks.value));
    } else {
      PassesNothing(m);
    }
  }

  lemma HeadPasses(m: Mode, p: Param)
    requires m.Outside() && 0 <= m.depth <= 1 && p.Named? && GoodParam(p)
    ensures Passes(m, p.lead + p.name + p.gap)
  {
    BlankIsPlain(p.gap);
    WordIsPlain(p.lead);
    WordIsPlain(p.name);
    PlainPasses(m, p.lead + p.name + p.gap);
  }

  lemma ParamPasses(m: Mode, p: Param)
    requires m.Outside() && 0 <= m.depth <= 1 && GoodParam(p)
    ensures After(m, PrintParam(p)) == m
    ensures m.depth == 0 ==> Uncut(m, PrintParam(p), ',')
    ensures m.depth == 1 ==> MatchEnd(m, PrintParam(p)) == None
  {
    hide GoodChunks, PrintChunks, PrintPart, BeginsNameless;
    BlankIsPlain(p.before);
    BlankIsPlain(p.after);
    PlainPasses(m, p.before);
    PlainPasses(m, p.after);
    var core;
    if p.Named? {
      var head, rest := p.lead + p.name + p.gap, PrintPart(":", p.annotation) + PrintPart("=", p.default);
      core := head + rest;
      HeadPasses(m, p);
      PartPasses(m, ':', p.annotation);
      PartPasses(m, '=', p.default);
      PassesConcat(m, PrintPart(":", p.annotation), PrintPart("=", p.default));
      PassesConcat(m, head, rest);
      assert PrintParam(p) == p.before + core + p.after by { assert p.before + head + rest == p.before + core; }
    } else {
      core := PrintChunks(p.chunks);
      GoodNested(p.chunks);
      ChunksPass(m, p.chunks);
    }
    PassesConcat(m, p.before, core);
    PassesConcat(m, p.before + core, p.after);
  }

  lemma GoodNested(chunks: seq<Chunk>)
    requires GoodChunks(chunks, false)
    ensures GoodChunks(chunks, true)
  {}

  // What parameterName makes of one printed parameter.

  lemma {:induction false} TrimEndKeeps(a: string, b: string)
    requires a != "" && !IsSpace(a[|a| - 1])
    ensures exists cut :: TrimEnd(a + b) == a + cut
    decreases |b|
  {
    if b == "" {
      assert a + b == a && TrimEnd(a) == a + "";
    } else if IsSpace(b[|b| - 1]) {
      assert (a + b)[..|a + b| - 1] == a + b[..|b| - 1];
      TrimEndKeeps(a, b[..|b| - 1]);
    } else {
      assert TrimEnd(a + b) == a + b;
    }
  }

  lemma {:induction false} PlainUncut(s: string, sep: char)
    requires IsPlain(sep) && forall c :: c in s ==> IsPlain(c) && c != sep
    ensures Uncut(START, s, sep) && After(START, s) == START
  {
    if s != "" {
      assert s[0] in s;
      PlainUncut(s[1..], sep);
      UncutStep(START, s, sep);
    }
  }

  lemma {:induction false} WordOfName(s: string)
    requires NoSpace(s)
    ensures TrailingWord(s) == s && TrimEnd(s) == s
  {
    if s != "" {
      assert s[|s| - 1] in s;
      WordOfName(s[..|s| - 1]);
      assert s == s[..|s| - 1] + [s[|s| - 1]];
    }
  }

  lemma {:induction false} LastOfWords(lead: string, name: string)
    requires NoSpace(name) && (lead != "" ==> IsSpace(lead[|lead| - 1]))
    ensures TrailingWord(lead + name) == name
    decreases |name|
  {
    if name == "" {
      assert lead + name == lead;
    } else {
      var n := |name| - 1;
      assert (lead + name)[..|lead + name| - 1] == lead + name[..n];
      assert name[n] in name && name == name[..n] + [name[n]];
      LastOfWords(lead, name[..n]);
    }
  }

  /** Modifiers, name and blanks: no separator in them, and the name is their last word. */
  lemma HeadFacts(lead: string, name: string, gap: string)
    requires GoodName(lead, name) && Blank(gap)
    ensures var head := lead + name + gap;
      && Uncut(START, head, '=') && Uncut(START, head, ':') && After(START, head) == START
      && head != "" && !IsSpace(head[0]) && head[0] != '{' && head[0] != '['
      && Trim(head) == lead + name && LastWord(Trim(head)) == name
  {
    hide Pieces, After;
    var words, head := lead + name, lead + name + gap;
    BlankIsPlain(gap);
    WordIsPlain(lead);
    WordIsPlain(name);
    PlainUncut(head, '=');
    PlainUncut(head, ':');
    assert name[0] in name && name[|name| - 1] in name;
    assert words[0] == if lead != "" then lead[0] else name[0];
    if lead != "" { assert lead[0] in lead; }
    assert words[|words| - 1] == name[|name| - 1];
    TrimPadded("", words, gap);
    assert "" + words + gap == head;
    LastOfWords(lead, name);
    TrimPadded("", words, "");
    assert "" + words + "" == words;
    assert TrimEnd(words) == words;
  }

  /** A text that begins with a visible character keeps it, whatever is trimmed behind. */
  lemma TrimKeepsFront(before: string, front: string, rest: string) returns (cut: string)
    requires Blank(before) && front != "" && !IsSpace(front[0]) && !IsSpace(front[|front| - 1])
    ensures Trim(before + front + rest) == front + cut
  {
    assert before + front + rest == before + (front + rest);
    TrimStartBlank(before, front + rest);
    assert (front + rest)[0] == front[0];
    TrimEndKeeps(front, rest);
    cut :| TrimEnd(front + rest) == front + cut;
  }

  /** What comes before the first separator begins like the text. */
  lemma SliceKeepsFront(front: string, rest: string, sep: char) returns (more: string)
    requires Uncut(START, front, sep)
    ensures Pieces(START, front + rest, sep)[0] == front + more
  {
    PiecesConcat(START, front, rest, sep);
    more := Pieces(After(START, front), rest, sep)[0];
  }

  lemma SliceAtMark(head: string, mark: char, rest: string)
    requires Uncut(START, head, mark) && After(START, head) == START
    ensures Pieces(START, head + [mark] + rest, mark)[0] == head
  {
    hide Pieces, After;
    assert head + [mark] + rest == head + ([mark] + rest);
    PiecesConcat(START, head, [mark] + rest, mark);
    StartsWithCut([mark] + rest, mark);
    assert head + "" == head;
  }

  lemma StartsWithCut(s: string, sep: char)
    requires s != "" && s[0] == sep
    ensures Pieces(START, s, sep)[0] == ""
  {}

  lemma FewDots(lead: string, name: string, gap: string, more: string)
    requires GoodName(lead, name) && Blank(gap)
    ensures !StartsWith(lead + name, "...")
    ensures !StartsWith(lead + name + gap + ":" + more, "...")
  {
    var words, p := lead + name, lead + name + gap + ":" + more;
    if |words| >= 3 {
      assert p[..3] == words[..3];
    } else if gap != "" {
      assert p[|words|] == gap[0] && gap[0] in gap;
    } else {
      assert p[|words|] == ':';
    }
  }

  /** Up to the first `=`: the words and the annotation or a part of it. */
  lemma BeforeDefault(p: Param) returns (more: Option<string>)
    requires p.Named? && GoodParam(p)
    ensures var head := p.lead + p.name + p.gap;
      Trim(Pieces(START, Trim(PrintParam(p)), '=')[0])
        == if more.Some? then head + ":" + more.value else p.lead + p.name
  {
    hide Pieces, After, GoodName, PrintChunks, GoodChunks, Trim, LastWord;
    var head := p.lead + p.name + p.gap;
    HeadFacts(p.lead, p.name, p.gap);
    more := None;
    if p.annotation.Some? {
      var front, rest := head + ":", PrintChunks(p.annotation.value) + PrintPart("=", p.default) + p.after;
      assert PrintParam(p) == p.before + front + rest;
      assert front[0] == head[0];
      var cut := TrimKeepsFront(p.before, front, rest);
      ColonUncut(head);
      var q := SliceKeepsFront(front, cut, '=');
      var kept := TrimKeepsFront("", front, q);
      assert "" + front + q == front + q;
      more := Some(kept);
    } else if p.default.Some? {
      var front, rest := head + "=", PrintChunks(p.default.value) + p.after;
      assert PrintParam(p) == p.before + front + rest;
      assert front[0] == head[0];
      var cut := TrimKeepsFront(p.before, front, rest);
      SliceAtMark(head, '=', cut);
    } else {
      assert PrintParam(p) == p.before + (p.lead + p.name) + (p.gap + p.after);
      WordsTrimmed(p);
    }
  }

  lemma ColonUncut(head: string)
    requires Uncut(START, head, '=') && After(START, head) == START
    ensures Uncut(START, head + ":", '=')
  {
    assert Uncut(START, ":", '=') by { PlainUncut(":", '='); }
    UncutConcat(START, head, ":", '=');
  }

  lemma WordsTrimmed(p: Param)
    requires p.Named? && GoodParam(p)
    ensures var words := p.lead + p.name; var t := Trim(p.before + words + (p.gap + p.after));
      t == words && Trim(Pieces(START, t, '=')[0]) == words
  {
    hide Pieces, After;
    HeadFacts(p.lead, p.name, "");
    var words := p.lead + p.name;
    assert words + "" == words && p.name[|p.name| - 1] in p.name;
    assert words[|words| - 1] == p.name[|p.name| - 1];
    TrimPadded(p.before, words, p.gap + p.after);
  }

  lemma NameOfNamed(p: Param)
    requires p.Named? && GoodParam(p)
    ensures NameOf(PrintParam(p)) == p.name
  {
    hide Pieces, After, Trim, PrintParam, LastWord;
    var more := BeforeDefault(p);
    var head, words := p.lead + p.name + p.gap, p.lead + p.name;
    HeadFacts(p.lead, p.name, p.gap);
    HeadFacts(p.lead, p.name, "");
    assert words + "" == words;
    FewDots(p.lead, p.name, p.gap, more.UnwrapOr(""));
    if more.Some? {
      SliceAtMark(head, ':', more.value);
      assert (head + ":" + more.value)[0] == head[0];
    } else {
      assert words[0] == head[0];
    }
  }

  lemma FrontOf(text: string, front: string) returns (rest: string)
    requires StartsWith(text, front)
    ensures text == front + rest
  {
    rest := text[|front|..];
  }

  /** A parameter that begins like a pattern or a rest parameter has no name, whatever follows. */
  lemma NoNameOf(before: string, text: string, after: string)
    requires Blank(before) && BeginsNameless(text)
    ensures NameOf(before + text + after) == ""
  {
    hide Pieces, Trim, LastWord;
    var front := if StartsWith(text, "{") then "{" else if StartsWith(text, "[") then "[" else "...";
    var rest := FrontOf(text, front);
    assert before + text + after == before + front + (rest + after);
    var cut := TrimKeepsFront(before, front, rest + after);
    FrontUncut(front);
    var more := SliceKeepsFront(front, cut, '=');
    var kept := TrimKeepsFront("", front, more);
    assert "" + front + more == front + more;
    var p := front + kept;
    assert p[0] == front[0] && StartsWith(p, front);
  }

  lemma FrontUncut(front: string)
    requires front == "{" || front == "[" || front == "..."
    ensures Uncut(START, front, '=')
  {
    if front == "..." {
      PlainUncut(front, '=');
    } else {
      assert front[1..] == "";
      UncutStep(START, front, '=');
      assert Pieces(Advance(START, front[0]), "", '=') == [""];
    }
  }

  /** The name is recovered whatever modifiers, annotation and default there are; a nameless one has none. */
  lemma NameOfParam(p: Param)
    requires GoodParam(p)
    ensures NameOf(PrintParam(p)) == if p.Named? then p.name else ""
  {
    hide NameOf;
    if p.Named? { NameOfNamed(p); } else { NoNameOf(p.before, PrintChunks(p.chunks), p.after); }
  }

  lemma {:induction false} NamesOfParams(params: seq<Param>)
    requires forall i :: 0 <= i < |params| ==> GoodParam(params[i])
    ensures Names(PrintParams(params)) == NamesIn(params)
  {
    hide PrintParam, GoodParam, NameOf;
    if params != [] {
      NameOfParam(params[0]);
      if params[0].Named? { NamedIsNamed(params[0]); }
      NamesOfParams(params[1..]);
      assert PrintParams(params)[1..] == PrintParams(params[1..]);
    }
  }

  lemma NamedIsNamed(p: Param)
    requires p.Named? && GoodParam(p)
    ensures p.name != ""
  {}

  lemma NotBlank(p: Param)
    requires GoodParam(p)
    ensures !Blank(PrintParam(p))
  {
    if p.Named? {
      assert p.name[0] in p.name && p.name[0] in PrintParam(p);
    } else {
      var text := PrintChunks(p.chunks);
      assert text[0] in text && text[0] in PrintParam(p);
    }
  }

  /** The printed list: whole pieces, none of them blank, and nothing that closes the bracket. */
  lemma {:induction false} ParamsAreWhole(params: seq<Param>)
    requires params != [] && forall i :: 0 <= i < |params| ==> GoodParam(params[i])
    ensures Whole(PrintParams(params), ',') && |PrintParams(params)| == |params|
    ensures !Blank(PrintParams(params)[|params| - 1])
    ensures var m := Mode(1, None, false); var inner := Join(PrintParams(params), ",");
      After(m, inner) == m && MatchEnd(m, inner) == None
  {
    hide PrintParam, GoodParam, Pieces, MatchEnd, After;
    var m, first := Mode(1, None, false), PrintParam(params[0]);
    ParamPasses(START, params[0]);
    ParamPasses(m, params[0]);
    NotBlank(params[0]);
    if |params| > 1 {
      ParamsAreWhole(params[1..]);
      assert PrintParams(params) == [first] + PrintParams(params[1..]);
      WholeCons(first, PrintParams(params[1..]), ',');
      var rest := Join(PrintParams(params[1..]), ",");
      assert Join(PrintParams(params), ",") == first + "," + rest;
      CommaPasses(m);
      AfterConcat(m, first, ",");
      MatchConcat(m, first, ",");
      AfterConcat(m, first + ",", rest);
      MatchConcat(m, first + ",", rest);
    } else {
      assert PrintParams(params) == [first];
    }
  }

  lemma CommaPasses(m: Mode)
    requires m.Outside()
    ensures After(m, ",") == m && MatchEnd(m, ",") == None
  {
    assert ","[1..] == "";
  }

  lemma FirstIndex(prefix: string, c: char, rest: string)
    requires c !in prefix
    ensures var s := prefix + [c] + rest; c in s && IndexOf(s, c) == |prefix|
  {
    hide IndexOf;
    var s := prefix + [c] + rest;
    assert s[|prefix|] == c;
    forall j | |prefix| < j <= |s| ensures c in s[..j] {
      assert s[..j][|prefix|] == c;
    }
    assert forall k :: 0 <= k < |prefix| ==> s[k] == prefix[k] && prefix[k] in prefix;
  }

  /** A text that closes nothing, put in brackets, ends at the bracket after it. */
  lemma BracketEnds(inner: string, suffix: string)
    requires var m := Mode(1, None, false); After(m, inner) == m && MatchEnd(m, inner) == None
    ensures MatchEnd(START, ("(" + inner) + (")" + suffix)) == Some(|inner| + 1)
  {
    hide MatchEnd, After;
    var m, open, tail := Mode(1, None, false), "(" + inner, ")" + suffix;
    MatchStep(START, open, 0);
    assert open[0..] == open && open[1..] == inner;
    assert After(START, open) == After(m, inner) by { AfterStep(START, open); }
    MatchConcat(START, open, tail);
    MatchStep(m, tail, 0);
    assert tail[0..] == tail;
  }

  lemma AfterStep(m: Mode, s: string)
    requires s != ""
    ensures After(m, s) == After(Advance(m, s[0]), s[1..])
  {}

  /** The text up to the bracket, the list, and the closing bracket that ends it. */
  lemma {:induction false} ListIsFound(prefix: string, inner: string, suffix: string)
    requires '(' !in prefix
    requires var m := Mode(1, None, false); After(m, inner) == m && MatchEnd(m, inner) == None
    ensures NamesOf(prefix + "(" + inner + ")" + suffix) == Names(DropBlank(Pieces(START, inner, ',')))
  {
    hide MatchEnd, After, IndexOf, Names, DropBlank, Pieces;
    var open, tail := "(" + inner, ")" + suffix;
    var source := prefix + "(" + inner + ")" + suffix;
    FirstIndex(prefix, '(', inner + tail);
    assert source == prefix + ['('] + (inner + tail);
    BracketEnds(inner, suffix);
    assert source[|prefix|..] == open + tail;
    assert source[|prefix| + 1..|prefix| + (|inner| + 1)] == inner;
  }

  /**
    Round trip: from the source of any function whose parameters are names with optional
    modifiers, annotations and defaults, patterns and rest parameters, parseParameterList
    recovers exactly the names, in order.
   */
  lemma {:induction false} ParameterListRoundTrip(prefix: string, params: seq<Param>, suffix: string)
    requires '(' !in prefix && forall i :: 0 <= i < |params| ==> GoodParam(params[i])
    ensures NamesOf(prefix + "(" + Join(PrintParams(params), ",") + ")" + suffix) == NamesIn(params)
  {
    hide GoodParam, MatchEnd, After, Pieces, NamesOf, Join, Whole, Names, PrintParam;
    var inner := Join(PrintParams(params), ",");
    if params != [] {
      ParamsAreWhole(params);
      PiecesOfJoin(PrintParams(params), ',');
    } else {
      NothingInside();
    }
    ListIsFound(prefix, inner, suffix);
    NamesOfParams(params);
  }

  lemma NothingInside()
    ensures Join(PrintParams([]), ",") == "" && Pieces(START, "", ',') == [""] && Names([]) == []
    ensures After(Mode(1, None, false), "") == Mode(1, None, false) && MatchEnd(Mode(1, None, false), "") == None
  {}

  // ---------------------------------------------------------------------------
  // Texts that hold no list
  // ---------------------------------------------------------------------------

  /** At `j` stands a closing bracket, outside any literal, that closes the first one opened. */
  predicate EndsHere(m: Mode, s: string, j: nat) {
    && j < |s| && (s[j] == ')' || s[j] == ']' || s[j] == '}')
    && After(m, s[..j]) == Mode(1, None, false)
  }

  /** The end that is found is the first such place, and there is none only if there is no such place. */
  lemma {:induction false} EndIsFirst(m: Mode, s: string)
    ensures MatchEnd(m, s).None? <==> forall j :: 0 <= j ==> !EndsHere(m, s, j)
    ensures MatchEnd(m, s).Some? ==>
      EndsHere(m, s, MatchEnd(m, s).value) && forall j :: 0 <= j < MatchEnd(m, s).value ==> !EndsHere(m, s, j)
    decreases |s|
  {
    if s != "" {
      Characters(s[0]);
      assert s[..0] == "" && After(m, s[..0]) == m;
      assert EndsHere(m, s, 0) <==> m.Outside() && IsClose(s[0]) && m.depth == 1;
      var next := Advance(m, s[0]);
      EndIsFirst(next, s[1..]);
      forall j | 0 < j ensures EndsHere(m, s, j) <==> EndsHere(next, s[1..], j - 1) { EndsLater(m, s, j); }
      if !EndsHere(m, s, 0) && MatchEnd(next, s[1..]).None? {
        forall j | 0 <= j ensures !EndsHere(m, s, j) { if j > 0 { assert !EndsHere(next, s[1..], j - 1); } }
      }
      if !EndsHere(m, s, 0) && MatchEnd(next, s[1..]).Some? {
        var k := MatchEnd(next, s[1..]).value;
        assert EndsHere(m, s, k + 1);
        forall j | 0 <= j < k + 1 ensures !EndsHere(m, s, j) {
          if j > 0 { assert !EndsHere(next, s[1..], j - 1); }
        }
      }
    }
  }

  lemma EndsLater(m: Mode, s: string, j: nat)
    requires s != "" && j > 0
    ensures EndsHere(m, s, j) <==> EndsHere(Advance(m, s[0]), s[1..], j - 1)
  {
    if j < |s| { assert s[..j][0] == s[0] && s[..j][1..] == s[1..][..j - 1]; }
  }

  /** A source without a bracket, or whose first bracket is never closed, has no parameters. */
  lemma NoListNoNames(prefix: string, rest: string)
    requires '(' !in prefix
    ensures NamesOf(prefix) == []
    ensures (forall j :: 0 <= j ==> !EndsHere(START, "(" + rest, j)) ==> NamesOf(prefix + "(" + rest) == []
  {
    hide MatchEnd, EndsHere, IndexOf;
    FirstIndex(prefix, '(', rest);
    var source := prefix + "(" + rest;
    assert source[|prefix|..] == "(" + rest;
    EndIsFirst(START, "(" + rest);
  }

  function Occurrences(s: string, chars: set<char>): nat {
    if s == "" then 0 else (if s[0] in chars then 1 else 0) + Occurrences(s[1..], chars)
  }

  /** Without literals the depth is the number of brackets opened less those closed, however they match. */
  lemma {:induction false} DepthCounts(m: Mode, s: string)
    requires m.Outside() && '"' !in s && '\'' !in s && '`' !in s
    ensures After(m, s) == m.(depth := m.depth + Occurrences(s, {'(', '[', '{'}) - Occurrences(s, {')', ']', '}'}))
    decreases |s|
  {
    if s != "" {
      Characters(s[0]);
      assert s[0] in s;
      DepthCounts(Advance(m, s[0]), s[1..]);
    }
  }
}
