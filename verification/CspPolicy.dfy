/** createNajmCsp as code, and the theorems about the text it prints. */
module CspPolicy {
  import opened Base
  import opened Text
  import opened CspParser
  import opened Csp

  // ---------------------------------------------------------------------------
  // The generator
  // ---------------------------------------------------------------------------

  /** The loops over assertNajmCspSource. */
  method CheckSources(values: seq<string>) returns (ok: bool)
    ensures ok <==> AllSources(values)
  {
    for i := 0 to |values|
      invariant AllSources(values[..i])
    {
      if !IsCspSource(values[i]) {
        return false;
      }
      assert values[..i + 1] == values[..i] + [values[i]];
    }
    assert values[..|values|] == values;
    return true;
  }

  /** assertOverrideSources; its ban on eval never fires, because eval is no source. */
  method CheckOverrideSources(values: Option<seq<string>>) returns (ok: bool)
    ensures ok <==> AllSources(OrEmpty(values))
  {
    if values.None? { return true; }
    for i := 0 to |values.value|
      invariant AllSources(values.value[..i])
    {
      if !IsCspSource(values.value[i]) { return false; }
      if values.value[i] == UNSAFE_EVAL {
        SourceIsContained(values.value[i]);
        return false;
      }
      assert values.value[..i + 1] == values.value[..i] + [values.value[i]];
    }
    assert values.value[..|values.value|] == values.value;
    return true;
  }

  /** assertCspSourceList. */
  method CheckSourceList(values: Option<seq<string>>, required: bool) returns (ok: bool)
    ensures ok <==>
      if required then values.Some? && values.value != [] && AllSources(values.value) else GoodList(values)
  {
    if values.None? { return !required; }
    if required && values.value == [] { return false; }
    for i := 0 to |values.value|
      invariant AllSources(values.value[..i]) && (!required ==> NONE !in values.value[..i])
    {
      if !IsCspSource(values.value[i]) { return false; }
      if !required && values.value[i] == NONE { return false; }
      assert values.value[..i + 1] == values.value[..i] + [values.value[i]];
    }
    assert values.value[..|values.value|] == values.value;
    return true;
  }

  method CheckApp(app: AppCsp) returns (ok: bool)
    ensures ok <==> GoodApp(app)
  {
    if app.reportPath != REPORT_PATH { return false; }
    ok := CheckSourceList(Some(app.frameSrc), true);
    if ok { ok := CheckSourceList(app.extraImgSrc, false); }
    if ok { ok := CheckSourceList(app.extraConnectSrc, false); }
    if ok { ok := CheckSourceList(app.extraFontSrc, false); }
  }

  method CheckLocation(l: LocationCsp) returns (ok: bool)
    ensures ok <==> GoodLocation(l)
  {
    ok := CheckSources(l.imgSrc);
    if ok { ok := CheckSources(l.connectSrc); }
    if ok { ok := CheckSources(OrEmpty(l.scriptSrc)); }
    if ok { ok := CheckSources(OrEmpty(l.fontSrc)); }
    if ok { ok := CheckSources(OrEmpty(l.frameSrc)); }
    if ok && (UNSAFE_EVAL in OrEmpty(l.scriptSrc) || UNSAFE_INLINE in OrEmpty(l.scriptSrc)) { ok := false; }
  }

  method CheckOverrides(o: Overrides) returns (ok: bool)
    ensures ok <==> GoodOverrides(o)
  {
    ok := CheckOverrideSources(o.extraScriptSrc);
    if ok { ok := CheckOverrideSources(o.extraImgSrc); }
    if ok { ok := CheckOverrideSources(o.extraConnectSrc); }
    if ok { ok := CheckOverrideSources(o.extraFontSrc); }
    if ok { ok := CheckOverrideSources(o.extraFrameSrc); }
  }

  /** The checks on the composed script-src see only what the supplied sources bring. */
  lemma {:induction false} ScriptMembers(nonce: string, o: Options)
    requires IsNonce(nonce) && GoodLocation(o.locationCsp) && GoodOverrides(OverridesOf(o))
    ensures var s := ScriptValues(nonce, o); var extra := OrEmpty(OverridesOf(o).extraScriptSrc);
      && (UNSAFE_EVAL in s <==> o.isDevelopment)
      && (UNSAFE_INLINE in s <==> UNSAFE_INLINE in extra)
      && (NONE in s <==> NONE in OrEmpty(o.locationCsp.scriptSrc) || NONE in extra)
      && "*" !in s
  {
    hide IsCspSource;
    NonceIsContained(nonce);
    forall v | v in OrEmpty(o.locationCsp.scriptSrc) || v in OrEmpty(OverridesOf(o).extraScriptSrc)
      ensures v != UNSAFE_EVAL && v != "*"
    {
      SourceIsContained(v);
    }
    BuiltinScript(nonce, o);
  }

  lemma BuiltinScript(nonce: string, o: Options)
    ensures forall v :: v in ScriptValues(nonce, o) <==>
      v in {SELF, NonceSource(nonce), STRICT_DYNAMIC} || (o.isDevelopment && v == UNSAFE_EVAL)
      || v in OrEmpty(o.locationCsp.scriptSrc) || v in OrEmpty(OverridesOf(o).extraScriptSrc)
  {}

  lemma {:induction false} DedupedSingle(values: seq<string>, v: string)
    requires v in Deduped(values)
    ensures |Deduped(values)| > 1 <==> exists w :: w in values && w != v
  {
    DedupedMembers(values);
    if |Deduped(values)| > 1 {
      DedupedOrder(values, 0, 1);
      assert Deduped(values)[0] in Deduped(values) && Deduped(values)[1] in Deduped(values);
    } else {
      assert Deduped(values) == [v];
    }
  }

  /** Prints the policy meant exactly for the accepted inputs; everything else is a TypeError. */
  method CreateNajmCsp(nonce: string, o: Options) returns (r: Result<string, CspError>)
    ensures r.Success? <==> Accepted(nonce, o)
    ensures r.Success? ==> r.value == Print(Policy(nonce, o))
  {
    hide IsCspSource, IsNonce, Print, Join, Texts, Deduped;
    if !IsNonce(nonce) { return Failure(BadNonce); }
    if o.mode != "nonce" { return Failure(BadMode); }
    var ok := CheckApp(o.app);
    if !ok { return Failure(BadApp); }
    ok := CheckLocation(o.locationCsp);
    if !ok { return Failure(BadLocation); }
    ok := CheckOverrides(OverridesOf(o));
    if !ok { return Failure(BadOverrides); }
    ScriptMembers(nonce, o);
    DedupedMembers(ScriptValues(nonce, o));
    var scriptSrc := Dedupe(ScriptValues(nonce, o));
    if !o.isDevelopment && (UNSAFE_EVAL in scriptSrc || UNSAFE_INLINE in scriptSrc) { return Failure(BadScript); }
    if "*" in scriptSrc || NONE in scriptSrc { return Failure(BadScript); }
    var imgSrc := Dedupe(ImgValues(o));
    var connectSrc := Dedupe(ConnectValues(o));
    var fontSrc := Dedupe(FontValues(o));
    var frameSrc := Dedupe(FrameValues(o));
    DedupedMembers(FrameValues(o));
    if NONE in frameSrc { DedupedSingle(FrameValues(o), NONE); }
    if NONE in frameSrc && |frameSrc| > 1 { return Failure(BadFrame); }
    PrintedTexts(nonce, o);
    r := Success(Join(Texts(o, connectSrc, fontSrc, frameSrc, imgSrc, scriptSrc), "; "));
  }

  /** The list of template strings the code joins. */
  function Texts(
      o: Options, connectSrc: seq<string>, fontSrc: seq<string>, frameSrc: seq<string>,
      imgSrc: seq<string>, scriptSrc: seq<string>): seq<string> {
    [ NameText(DefaultSrc) + " " + SELF,
      NameText(BaseUri) + " " + SELF,
      NameText(ConnectSrc) + " " + Join(connectSrc, " "),
      NameText(FontSrc) + " " + Join(fontSrc, " "),
      NameText(FormAction) + " " + SELF,
      NameText(FrameAncestors) + " " + NONE,
      NameText(FrameSrc) + " " + Join(frameSrc, " "),
      NameText(ImgSrc) + " " + Join(imgSrc, " "),
      NameText(ManifestSrc) + " " + SELF,
      NameText(MediaSrc) + " " + SELF,
      NameText(ObjectSrc) + " " + NONE,
      NameText(ScriptSrc) + " " + Join(scriptSrc, " "),
      NameText(StyleSrc) + " " + Join([SELF, UNSAFE_INLINE], " "),
      NameText(WorkerSrc) + " " + Join([SELF, BLOB], " "),
      NameText(UpgradeInsecureRequests),
      NameText(ReportUri) + " " + o.app.reportPath ]
  }

  /** The text of one directive, as the template strings of the code write it. */
  function TextOf(n: Name, nonce: string, o: Options): string {
    match n
    case UpgradeInsecureRequests => NameText(n)
    case ReportUri => NameText(n) + " " + o.app.reportPath
    case FrameAncestors => NameText(n) + " " + NONE
    case ObjectSrc => NameText(n) + " " + NONE
    case StyleSrc => NameText(n) + " " + Join([SELF, UNSAFE_INLINE], " ")
    case WorkerSrc => NameText(n) + " " + Join([SELF, BLOB], " ")
    case ConnectSrc => NameText(n) + " " + Join(Deduped(ConnectValues(o)), " ")
    case FontSrc => NameText(n) + " " + Join(Deduped(FontValues(o)), " ")
    case FrameSrc => NameText(n) + " " + Join(Deduped(FrameValues(o)), " ")
    case ImgSrc => NameText(n) + " " + Join(Deduped(ImgValues(o)), " ")
    case ScriptSrc => NameText(n) + " " + Join(Deduped(ScriptValues(nonce, o)), " ")
    case _ => NameText(n) + " " + SELF
  }

  lemma DedupedOne(v: string)
    ensures Deduped([v]) == [v]
  {
    assert [v][..0] == [];
  }

  lemma DedupedTwo(v: string, w: string)
    requires v != w
    ensures Deduped([v, w]) == [v, w]
  {
    assert [v, w][..1] == [v];
    DedupedOne(v);
  }

  lemma PrintedText(n: Name, nonce: string, o: Options)
    requires o.app.frameSrc != []
    ensures PrintDirective(Directive(NameText(n), Deduped(Values(n, nonce, o)))) == TextOf(n, nonce, o)
  {
    hide NameText, ConnectValues, FontValues, ImgValues, FrameValues, ScriptValues;
    DedupedMembers(Values(n, nonce, o));
    ListsNotEmpty(nonce, o);
    match n
    case StyleSrc => DedupedTwo(SELF, UNSAFE_INLINE);
    case WorkerSrc => DedupedTwo(SELF, BLOB);
    case UpgradeInsecureRequests =>
    case ReportUri => DedupedOne(o.app.reportPath);
    case FrameAncestors => DedupedOne(NONE);
    case ObjectSrc => DedupedOne(NONE);
    case ConnectSrc => assert ConnectValues(o)[0] in ConnectValues(o);
    case FontSrc => assert FontValues(o)[0] in FontValues(o);
    case FrameSrc => assert FrameValues(o)[0] in FrameValues(o);
    case ImgSrc => assert ImgValues(o)[0] in ImgValues(o);
    case ScriptSrc => assert ScriptValues(nonce, o)[0] in ScriptValues(nonce, o);
    case _ => DedupedOne(SELF);
  }

  lemma ListsNotEmpty(nonce: string, o: Options)
    requires o.app.frameSrc != []
    ensures ConnectValues(o) != [] && FontValues(o) != [] && ImgValues(o) != []
    ensures FrameValues(o) != [] && ScriptValues(nonce, o) != []
  {}

  lemma {:induction false} PrintedTexts(nonce: string, o: Options)
    requires o.app.frameSrc != []
    ensures Print(Policy(nonce, o)) ==
      Join(Texts(o, Deduped(ConnectValues(o)), Deduped(FontValues(o)), Deduped(FrameValues(o)),
                 Deduped(ImgValues(o)), Deduped(ScriptValues(nonce, o))), "; ")
  {
    hide PrintDirective, Join, NameText, Values, Deduped;
    var p := Policy(nonce, o);
    var t := Texts(o, Deduped(ConnectValues(o)), Deduped(FontValues(o)), Deduped(FrameValues(o)),
                   Deduped(ImgValues(o)), Deduped(ScriptValues(nonce, o)));
    forall i | 0 <= i < 16 ensures PrintDirective(p[i]) == t[i] {
      PrintedText(NAMES[i], nonce, o);
      TextAt(nonce, o, i);
    }
    assert PrintDirectives(p) == t;
  }

  lemma {:induction false} TextAt(nonce: string, o: Options, i: nat)
    requires i < 16
    ensures TextOf(NAMES[i], nonce, o) ==
      Texts(o, Deduped(ConnectValues(o)), Deduped(FontValues(o)), Deduped(FrameValues(o)),
            Deduped(ImgValues(o)), Deduped(ScriptValues(nonce, o)))[i]
  {
    hide Join, NameText, Deduped;
  }

  // ---------------------------------------------------------------------------
  // What the browser reads
  // ---------------------------------------------------------------------------

  /** Length and first letter tell the sixteen names apart. */
  function NameKey(n: Name): (int, char) {
    match n
    case DefaultSrc => (11, 'd')
    case BaseUri => (8, 'b')
    case ConnectSrc => (11, 'c')
    case FontSrc => (8, 'f')
    case FormAction => (11, 'f')
    case FrameAncestors => (15, 'f')
    case FrameSrc => (9, 'f')
    case ImgSrc => (7, 'i')
    case ManifestSrc => (12, 'm')
    case MediaSrc => (9, 'm')
    case ObjectSrc => (10, 'o')
    case ScriptSrc => (10, 's')
    case StyleSrc => (9, 's')
    case WorkerSrc => (10, 'w')
    case UpgradeInsecureRequests => (25, 'u')
    case ReportUri => (10, 'r')
  }

  lemma NameKeyOfText(n: Name)
    ensures NameText(n) != "" && (|NameText(n)|, NameText(n)[0]) == NameKey(n)
  {}

  lemma NameKeysDiffer(m: Name, n: Name)
    requires m != n
    ensures NameKey(m) != NameKey(n)
  {}

  predicate NameChars(s: string) { s != "" && forall c :: c in s ==> 'a' <= c <= 'z' || c == '-' }

  lemma NameCharsOf0(n: Name)
    requires n.DefaultSrc? || n.BaseUri? || n.ConnectSrc? || n.FontSrc?
    ensures NameChars(NameText(n))
  {}

  lemma NameCharsOf1(n: Name)
    requires n.FormAction? || n.FrameAncestors? || n.FrameSrc? || n.ImgSrc?
    ensures NameChars(NameText(n))
  {}

  lemma NameCharsOf2(n: Name)
    requires n.ManifestSrc? || n.MediaSrc? || n.ObjectSrc? || n.ScriptSrc?
    ensures NameChars(NameText(n))
  {}

  lemma NameCharsOf3(n: Name)
    requires n.StyleSrc? || n.WorkerSrc? || n.UpgradeInsecureRequests? || n.ReportUri?
    ensures NameChars(NameText(n))
  {}

  lemma {:induction false} NameIsSafe(n: Name)
    ensures Safe(NameText(n)) && Ascii(NameText(n)) && Lower(NameText(n)) == NameText(n) && ',' !in NameText(n)
  {
    hide NameText;
    assert NameChars(NameText(n)) by {
      if n.DefaultSrc? || n.BaseUri? || n.ConnectSrc? || n.FontSrc? { NameCharsOf0(n); }
      else if n.FormAction? || n.FrameAncestors? || n.FrameSrc? || n.ImgSrc? { NameCharsOf1(n); }
      else if n.ManifestSrc? || n.MediaSrc? || n.ObjectSrc? || n.ScriptSrc? { NameCharsOf2(n); }
      else { NameCharsOf3(n); }
    }
    var s := NameText(n);
    assert forall k :: 0 <= k < |s| ==> s[k] in s;
  }

  /** A directive's sources: the supplied ones, and texts of the generator's own. */
  lemma ValuesAreSupplied(n: Name, nonce: string, o: Options)
    requires IsNonce(nonce) && o.app.reportPath == REPORT_PATH
    ensures forall v :: v in Values(n, nonce, o) ==> v in Supplied(n, o) || Plain(v)
    ensures forall v :: v in Supplied(n, o) ==> v in Values(n, nonce, o)
  {
    hide IsNonce;
    hide Plain;
    ShortKeywordsArePlain();
    LongKeywordsArePlain();
    OwnTextsArePlain();
    NonceIsPlain(nonce);
    BuiltinScript(nonce, o);
  }

  lemma NonceIsPlain(nonce: string)
    requires IsNonce(nonce)
    ensures Plain(NonceSource(nonce))
  {
    NonceIsContained(nonce);
  }

  lemma SuppliedAreSources(n: Name, o: Options)
    requires GoodApp(o.app) && GoodLocation(o.locationCsp) && GoodOverrides(OverridesOf(o))
    ensures forall v :: v in Supplied(n, o) ==> IsCspSource(v)
  {
    hide IsCspSource;
  }

  lemma {:induction false} ValuesAreContained(n: Name, nonce: string, o: Options)
    requires Accepted(nonce, o)
    ensures forall v :: v in Values(n, nonce, o) ==> Contained(v)
    ensures (forall v :: v in Values(n, nonce, o) ==> Ascii(v)) <==> (forall v :: v in Supplied(n, o) ==> Ascii(v))
  {
    hide IsCspSource, IsNonce, Values, Supplied;
    ValuesAreSupplied(n, nonce, o);
    SuppliedAreSources(n, o);
    forall v | v in Values(n, nonce, o) ensures Contained(v) {
      if v in Supplied(n, o) { SourceIsContained(v); }
    }
  }

  /** A directive of an accepted policy can be read back, and is ASCII when its supplied sources are. */
  lemma DirectiveIsSafe(i: nat, nonce: string, o: Options)
    requires Accepted(nonce, o) && i < 16
    ensures SafeDirective(Policy(nonce, o)[i])
    ensures AsciiDirective(Policy(nonce, o)[i]) <==> forall v :: v in Supplied(NAMES[i], o) ==> Ascii(v)
  {
    hide IsCspSource, IsNonce, Values, Supplied, NameText, Deduped, Accepted, Ascii;
    NameIsSafe(NAMES[i]);
    ValuesAreContained(NAMES[i], nonce, o);
    DedupedMembers(Values(NAMES[i], nonce, o));
    var d := Policy(nonce, o)[i];
    forall k | 0 <= k < |d.value| ensures Safe(d.value[k]) { assert d.value[k] in d.value; }
    if AsciiDirective(d) {
      forall v | v in Values(NAMES[i], nonce, o) ensures Ascii(v) {
        var k :| 0 <= k < |d.value| && d.value[k] == v;
      }
    } else {
      var k :| 0 <= k < |d.value| && !Ascii(d.value[k]);
      assert d.value[k] in d.value;
    }
  }

  lemma {:induction false} NamesDiffer(nonce: string, o: Options)
    ensures Distinct(Policy(nonce, o))
  {
    hide NameText, NameKey, Values, Deduped;
    var p := Policy(nonce, o);
    forall i, j | 0 <= i < j < 16 ensures p[i].name != p[j].name {
      NameKeyOfText(NAMES[i]);
      NameKeyOfText(NAMES[j]);
      NameKeysDiffer(NAMES[i], NAMES[j]);
    }
  }

  /**
    What a browser reads back from an accepted policy: exactly the sixteen directives meant,
    if and only if every supplied source is ASCII; otherwise exactly the directives whose
    supplied sources are, the others being dropped whole.
   */
  lemma {:induction false} BrowserReads(nonce: string, o: Options)
    requires Accepted(nonce, o)
    ensures Parse(Print(Policy(nonce, o))) == AsciiOnly(Policy(nonce, o))
    ensures forall i :: 0 <= i < 16 ==>
      (AsciiDirective(Policy(nonce, o)[i]) <==> forall v :: v in Supplied(NAMES[i], o) ==> Ascii(v))
    ensures Parse(Print(Policy(nonce, o))) == Policy(nonce, o)
      <==> forall n, v :: v in Supplied(n, o) ==> Ascii(v)
  {
    hide Accepted, Values, Supplied, NameText, Deduped, Ascii, Parse, Print, SafeDirective, AsciiDirective;
    var p := Policy(nonce, o);
    forall i | 0 <= i < 16
      ensures SafeDirective(p[i])
      ensures AsciiDirective(p[i]) <==> forall v :: v in Supplied(NAMES[i], o) ==> Ascii(v)
    {
      DirectiveIsSafe(i, nonce, o);
    }
    NamesDiffer(nonce, o);
    ParsePrint(p);
    AsciiOnlyIsAll(p);
    if AsciiOnly(p) == p {
      forall n, v | v in Supplied(n, o) ensures Ascii(v) {
        NameIsListed(n);
        var i :| 0 <= i < 16 && NAMES[i] == n;
        assert AsciiDirective(p[i]);
      }
    }
  }

  lemma NameIsListed(n: Name)
    ensures n in NAMES
  {
    var i := match n
      case DefaultSrc => 0 case BaseUri => 1 case ConnectSrc => 2 case FontSrc => 3
      case FormAction => 4 case FrameAncestors => 5 case FrameSrc => 6 case ImgSrc => 7
      case ManifestSrc => 8 case MediaSrc => 9 case ObjectSrc => 10 case ScriptSrc => 11
      case StyleSrc => 12 case WorkerSrc => 13 case UpgradeInsecureRequests => 14 case ReportUri => 15;
    assert NAMES[i] == n;
  }

  /** One policy: no comma, which would split the header into two. */
  lemma OnePolicy(nonce: string, o: Options)
    requires Accepted(nonce, o)
    ensures ',' !in Print(Policy(nonce, o))
  {
    hide Accepted, Values, NameText, Deduped, PrintDirective, Join;
    var p := Policy(nonce, o);
    forall i | 0 <= i < 16 ensures ',' !in PrintDirectives(p)[i] {
      NameIsSafe(NAMES[i]);
      ValuesAreContained(NAMES[i], nonce, o);
      DedupedMembers(Values(NAMES[i], nonce, o));
      forall k | 0 <= k < |p[i].value| ensures ',' !in p[i].value[k] { assert p[i].value[k] in p[i].value; }
      DirectiveHasNoComma(p[i]);
    }
    JoinHasNoComma(PrintDirectives(p), "; ");
  }

  lemma {:induction false} JoinHasNoComma(parts: seq<string>, sep: string)
    requires ',' !in sep && forall i :: 0 <= i < |parts| ==> ',' !in parts[i]
    ensures ',' !in Join(parts, sep)
  {
    if |parts| > 1 { JoinHasNoComma(parts[1..], sep); }
  }

  lemma DirectiveHasNoComma(d: Directive)
    requires ',' !in d.name && forall k :: 0 <= k < |d.value| ==> ',' !in d.value[k]
    ensures ',' !in PrintDirective(d)
  {
    JoinHasNoComma(d.value, " ");
  }

  /**
    The script-src a browser enforces in production carries the nonce and neither eval nor
    inline; it is there at all exactly when the supplied script sources are ASCII.
   */
  lemma {:induction false} ProductionScriptSrc(nonce: string, o: Options)
    requires Accepted(nonce, o) && !o.isDevelopment
    ensures var read := Parse(Print(Policy(nonce, o)));
      && (Defines(read, NameText(ScriptSrc)) <==> forall v :: v in Supplied(ScriptSrc, o) ==> Ascii(v))
      && forall i :: 0 <= i < |read| && read[i].name == NameText(ScriptSrc) ==>
        NonceSource(nonce) in read[i].value && UNSAFE_EVAL !in read[i].value && UNSAFE_INLINE !in read[i].value
  {
    hide Values, Supplied, NameText, Deduped, Parse, Print, AsciiDirective, Accepted, AsciiOnly;
    var p := Policy(nonce, o);
    BrowserReads(nonce, o);
    NamesDiffer(nonce, o);
    AsciiOnlyFinds(p, 11);
    ScriptDirective(nonce, o);
  }

  lemma ScriptDirective(nonce: string, o: Options)
    requires Accepted(nonce, o) && !o.isDevelopment
    ensures var d := Policy(nonce, o)[11];
      && d.name == NameText(ScriptSrc)
      && NonceSource(nonce) in d.value && UNSAFE_EVAL !in d.value && UNSAFE_INLINE !in d.value
  {
    hide IsCspSource, IsNonce, Deduped, ScriptValues;
    ScriptMembers(nonce, o);
    BuiltinScript(nonce, o);
    DedupedMembers(ScriptValues(nonce, o));
  }

  /** Looking up the name of directive `k` among those read. */
  lemma {:induction false} AsciiOnlyFinds(policy: seq<Directive>, k: nat)
    requires k < |policy| && Distinct(policy)
    ensures Defines(AsciiOnly(policy), policy[k].name) <==> AsciiDirective(policy[k])
    ensures forall i :: 0 <= i < |AsciiOnly(policy)| && AsciiOnly(policy)[i].name == policy[k].name ==>
      AsciiOnly(policy)[i] == policy[k]
  {
    AsciiOnlyMembers(policy);
    if AsciiDirective(policy[k]) {
      assert policy[k] in AsciiOnly(policy);
      var i :| 0 <= i < |AsciiOnly(policy)| && AsciiOnly(policy)[i] == policy[k];
    }
    forall i | 0 <= i < |AsciiOnly(policy)| && AsciiOnly(policy)[i].name == policy[k].name
      ensures AsciiOnly(policy)[i] == policy[k]
    {
      assert AsciiOnly(policy)[i] in policy;
      var j :| 0 <= j < |policy| && policy[j] == AsciiOnly(policy)[i];
    }
  }

  lemma {:induction false} AsciiOnlyMembers(policy: seq<Directive>)
    ensures forall d :: d in AsciiOnly(policy) <==> d in policy && AsciiDirective(d)
  {
    if policy != [] {
      AsciiOnlyMembers(policy[1..]);
      assert policy == [policy[0]] + policy[1..];
    }
  }

  lemma HostWithPath(tail: string)
    requires tail != "" && tail[0] == '/' && forall c :: c in tail ==> !IsForbidden(c)
    ensures IsHost("a" + tail)
  {
    var host := "a" + tail;
    assert host[1..] == tail;
    assert Before(tail, '/') == "" && Before(host, '/') == "a";
    assert "a"[1..] == "" && Before("", ':') == "" && Before("a", ':') == "a";
    SplitFree("a", '.');
  }

  lemma SchemeIsClean()
    ensures Lower("https://a")[..8] == "https://"
    ensures forall c :: c in "https://a" ==> !IsForbidden(c)
  {}

  /** Any path of permitted characters is accepted, ASCII or not. */
  lemma PathIsAccepted(tail: string)
    requires tail != "" && tail[0] == '/' && '@' !in tail && forall c :: c in tail ==> !IsForbidden(c)
    ensures IsCspSource("https://a" + tail)
  {
    hide IsHost, IsForbidden;
    HostWithPath(tail);
    SchemeIsClean();
    var s := "https://a" + tail;
    assert s[8..] == "a" + tail;
    assert Lower(s)[..8] == Lower("https://a")[..8];
    forall c | c in s ensures !IsForbidden(c) { assert c in "https://a" || c in tail; }
  }

  /** A source the generator accepts and a browser cannot read: it costs its whole directive. */
  lemma NonAsciiSourceIsAccepted()
    ensures IsCspSource("https://a" + "/\U{00E9}") && !Ascii("https://a" + "/\U{00E9}")
  {
    hide IsCspSource;
    var tail := "/\U{00E9}";
    assert tail[1] == '\U{00E9}';
    PathIsAccepted(tail);
    var s := "https://a" + tail;
    assert s[10] == tail[1] && s[10] in s;
  }

  // ---------------------------------------------------------------------------
  // A policy that loses its script-src
  // ---------------------------------------------------------------------------

  const NON_ASCII := "https://a" + "/\U{00E9}"

  /** An application without extras, and one script source of its location. */
  function WithScript(source: string): Options {
    Options("nonce", false, AppCsp(REPORT_PATH, [NONE], None, None, None),
            LocationCsp([], [], Some([source]), None, None), None)
  }

  lemma OneScriptIsAccepted(nonce: string, source: string)
    requires IsNonce(nonce) && IsCspSource(source) && source !in {UNSAFE_INLINE, NONE}
    ensures Accepted(nonce, WithScript(source))
  {
    SourceIsContained(source);
    assert IsCspSource(NONE);
  }

  /**
    With that source in the location's script-src, every nonce is accepted, the policy is printed,
    and the browser enforces no script-src at all.
   */
  lemma ScriptSrcIsLost(nonce: string)
    requires IsNonce(nonce)
    ensures var o := WithScript(NON_ASCII);
      Accepted(nonce, o) && !Defines(Parse(Print(Policy(nonce, o))), "script-src")
  {
    hide Accepted, Parse, Print, Policy, Ascii, IsCspSource, IsNonce;
    NonAsciiSourceIsAccepted();
    assert NON_ASCII[0] == 'h';
    var o := WithScript(NON_ASCII);
    OneScriptIsAccepted(nonce, NON_ASCII);
    ProductionScriptSrc(nonce, o);
    assert NON_ASCII in Supplied(ScriptSrc, o);
  }

  lemma NonceExists()
    ensures IsNonce("0123456789abcdef")
  {}

  /** Options that are accepted, and whose policy a browser reads without a script-src. */
  lemma PolicyWithoutScriptSrc()
    ensures exists nonce, o :: Accepted(nonce, o) && !Defines(Parse(Print(Policy(nonce, o))), "script-src")
  {
    hide *;
    NonceExists();
    ScriptSrcIsLost("0123456789abcdef");
  }
}
