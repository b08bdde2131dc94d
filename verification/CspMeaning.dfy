/** What the options of a policy mean: which are accepted, and what a browser reads, field by field. */
module CspMeaning {
  import opened Base
  import opened Text
  import opened CspParser
  import opened Csp
  import opened CspSources
  import CspPolicy

  function Given(values: Option<seq<string>>): seq<string> { match values case None => [] case Some(v) => v }

  function Extra(o: Options): Overrides {
    match o.overrides case None => Overrides(None, None, None, None, None) case Some(v) => v
  }

  function Frames(o: Options): seq<string> {
    o.app.frameSrc + Given(o.locationCsp.frameSrc) + Given(Extra(o).extraFrameSrc)
  }

  // ---------------------------------------------------------------------------
  // What is accepted
  // ---------------------------------------------------------------------------

  /** All the lists that a policy is composed of. */
  function Lists(o: Options): seq<seq<string>> {
    [ o.app.frameSrc, Given(o.app.extraImgSrc), Given(o.app.extraConnectSrc), Given(o.app.extraFontSrc),
      o.locationCsp.imgSrc, o.locationCsp.connectSrc, Given(o.locationCsp.scriptSrc),
      Given(o.locationCsp.fontSrc), Given(o.locationCsp.frameSrc),
      Given(Extra(o).extraScriptSrc), Given(Extra(o).extraImgSrc), Given(Extra(o).extraConnectSrc),
      Given(Extra(o).extraFontSrc), Given(Extra(o).extraFrameSrc) ]
  }

  predicate NonceText(nonce: string) {
    && 16 <= |nonce| <= 256
    && forall c :: c in nonce ==>
      'a' <= c <= 'z' || 'A' <= c <= 'Z' || '0' <= c <= '9' || c == '+' || c == '/' || c == '=' || c == '_' || c == '-'
  }

  ghost predicate OnlySources(o: Options) {
    forall i, v :: 0 <= i < |Lists(o)| && v in Lists(o)[i] ==> IsSource(v)
  }

  /**
    The inputs for which a policy is printed. A `'none'` frame stands alone in the three lists
    together; no other list of the application and no script list holds one; inline scripts are
    for the overrides of a development server alone.
   */
  ghost predicate Allowed(nonce: string, o: Options) {
    && NonceText(nonce) && o.mode == "nonce" && o.app.reportPath == "/api/csp-report"
    && o.app.frameSrc != [] && OnlySources(o)
    && "'none'" !in Given(o.app.extraImgSrc) + Given(o.app.extraConnectSrc) + Given(o.app.extraFontSrc)
    && "'none'" !in Given(o.locationCsp.scriptSrc) + Given(Extra(o).extraScriptSrc)
    && "'unsafe-inline'" !in Given(o.locationCsp.scriptSrc)
    && (!o.isDevelopment ==> "'unsafe-inline'" !in Given(Extra(o).extraScriptSrc))
    && ("'none'" in Frames(o) ==> forall v :: v in Frames(o) ==> v == "'none'")
  }

  lemma NonceTexts(nonce: string)
    ensures IsNonce(nonce) <==> NonceText(nonce)
  {
    assert forall c :: c in "+/=_-" <==> c == '+' || c == '/' || c == '=' || c == '_' || c == '-';
  }

  lemma SourcesOf(values: seq<string>)
    ensures AllSources(values) <==> forall v :: v in values ==> IsSource(v)
  {
    hide IsCspSource, IsSource;
    forall v ensures IsCspSource(v) <==> IsSource(v) { SourceTexts(v); }
  }

  lemma GivenIs(values: Option<seq<string>>)
    ensures OrEmpty(values) == Given(values)
  {}

  lemma ExtraIs(o: Options)
    ensures OverridesOf(o) == Extra(o)
  {}

  lemma EvalIsNoSource(values: seq<string>)
    requires AllSources(values)
    ensures UNSAFE_EVAL !in values
  {
    hide IsCspSource;
    if UNSAFE_EVAL in values { SourceIsContained(UNSAFE_EVAL); }
  }

  lemma AcceptedLists(o: Options)
    ensures OnlySources(o) && o.app.frameSrc != [] <==>
      && o.app.frameSrc != [] && AllSources(o.app.frameSrc) && AllSources(Given(o.app.extraImgSrc))
      && AllSources(Given(o.app.extraConnectSrc)) && AllSources(Given(o.app.extraFontSrc))
      && AllSources(o.locationCsp.imgSrc) && AllSources(o.locationCsp.connectSrc)
      && AllSources(Given(o.locationCsp.scriptSrc)) && AllSources(Given(o.locationCsp.fontSrc))
      && AllSources(Given(o.locationCsp.frameSrc))
      && GoodOverrides(Extra(o))
  {
    hide IsCspSource, IsSource, AllSources, Given, Extra, Lists;
    forall i | 0 <= i < |Lists(o)| ensures AllSources(Lists(o)[i]) <==> forall v :: v in Lists(o)[i] ==> IsSource(v) {
      SourcesOf(Lists(o)[i]);
    }
    ListsAre(o);
  }

  lemma ListsAre(o: Options)
    ensures |Lists(o)| == 14
    ensures (forall i :: 0 <= i < 14 ==> AllSources(Lists(o)[i])) <==>
      && AllSources(o.app.frameSrc) && AllSources(Given(o.app.extraImgSrc))
      && AllSources(Given(o.app.extraConnectSrc)) && AllSources(Given(o.app.extraFontSrc))
      && AllSources(o.locationCsp.imgSrc) && AllSources(o.locationCsp.connectSrc)
      && AllSources(Given(o.locationCsp.scriptSrc)) && AllSources(Given(o.locationCsp.fontSrc))
      && AllSources(Given(o.locationCsp.frameSrc))
      && GoodOverrides(Extra(o))
  {
    hide AllSources, Extra, Given;
    var x := Extra(o);
    GivenIs(x.extraScriptSrc);
    GivenIs(x.extraImgSrc);
    GivenIs(x.extraConnectSrc);
    GivenIs(x.extraFontSrc);
    GivenIs(x.extraFrameSrc);
    var l := Lists(o);
    assert (forall i :: 0 <= i < 14 ==> AllSources(l[i])) <==>
      && AllSources(l[0]) && AllSources(l[1]) && AllSources(l[2]) && AllSources(l[3]) && AllSources(l[4])
      && AllSources(l[5]) && AllSources(l[6]) && AllSources(l[7]) && AllSources(l[8]) && AllSources(l[9])
      && AllSources(l[10]) && AllSources(l[11]) && AllSources(l[12]) && AllSources(l[13]);
  }

  /** Exactly these inputs are accepted. */
  lemma AcceptedInputs(nonce: string, o: Options)
    ensures Accepted(nonce, o) <==> Allowed(nonce, o)
  {
    hide IsNonce, NonceText, AllSources, OnlySources, Given, Extra, GoodOverrides;
    NonceTexts(nonce);
    AcceptedLists(o);
    ExtraIs(o);
    var x, l := Extra(o), o.locationCsp;
    GivenIs(o.app.extraImgSrc);
    GivenIs(o.app.extraConnectSrc);
    GivenIs(o.app.extraFontSrc);
    GivenIs(l.scriptSrc);
    GivenIs(l.fontSrc);
    GivenIs(l.frameSrc);
    GivenIs(x.extraScriptSrc);
    GivenIs(x.extraFrameSrc);
    if AllSources(Given(l.scriptSrc)) { EvalIsNoSource(Given(l.scriptSrc)); }
    NoSources();
  }

  lemma NoSources()
    ensures AllSources([])
  {}

  // ---------------------------------------------------------------------------
  // What is read
  // ---------------------------------------------------------------------------

  /** Exactly the values, each once, in the order in which they first occur. */
  ghost predicate FirstOccurrences(out: seq<string>, values: seq<string>) {
    && (forall v :: v in out <==> v in values)
    && forall i, j :: 0 <= i < j < |out| ==> ComesFirst(values, out[i], out[j])
  }

  ghost predicate ComesFirst(values: seq<string>, v: string, w: string) {
    exists k :: 0 <= k < |values| && values[k] == v && w !in values[..k + 1]
  }

  lemma DedupedAre(values: seq<string>)
    ensures FirstOccurrences(Deduped(values), values)
  {
    hide Deduped, FirstIndex;
    DedupedMembers(values);
    var out := Deduped(values);
    forall i, j | 0 <= i < j < |out| ensures ComesFirst(values, out[i], out[j]) {
      DedupedOrder(values, i, j);
      var k, l := FirstIndex(values, out[i]), FirstIndex(values, out[j]);
      assert values[..k + 1] == values[..l][..k + 1];
    }
  }

  /** The sixteen directives, field by field. */
  function Intended(nonce: string, o: Options): (directives: seq<(string, seq<string>)>)
    ensures |directives| == 16
  {
    var app, location, extra := o.app, o.locationCsp, Extra(o);
    [ ("default-src", ["'self'"]),
      ("base-uri", ["'self'"]),
      ("connect-src",
        ["'self'"] + Given(app.extraConnectSrc) + location.connectSrc + Given(extra.extraConnectSrc)),
      ("font-src",
        ["'self'", "data:"] + Given(app.extraFontSrc) + Given(location.fontSrc) + Given(extra.extraFontSrc)),
      ("form-action", ["'self'"]),
      ("frame-ancestors", ["'none'"]),
      ("frame-src", app.frameSrc + Given(location.frameSrc) + Given(extra.extraFrameSrc)),
      ("img-src",
        ["'self'", "data:", "blob:"] + Given(app.extraImgSrc) + location.imgSrc + Given(extra.extraImgSrc)),
      ("manifest-src", ["'self'"]),
      ("media-src", ["'self'"]),
      ("object-src", ["'none'"]),
      ("script-src",
        ["'self'", "'nonce-" + nonce + "'", "'strict-dynamic'"] + (if o.isDevelopment then ["'unsafe-eval'"] else [])
        + Given(location.scriptSrc) + Given(extra.extraScriptSrc)),
      ("style-src", ["'self'", "'unsafe-inline'"]),
      ("worker-src", ["'self'", "blob:"]),
      ("upgrade-insecure-requests", []),
      ("report-uri", [app.reportPath]) ]
  }

  lemma ComposedLists(nonce: string, o: Options)
    ensures Values(ConnectSrc, nonce, o) == Intended(nonce, o)[2].1
    ensures Values(FontSrc, nonce, o) == Intended(nonce, o)[3].1
    ensures Values(FrameSrc, nonce, o) == Intended(nonce, o)[6].1 && Values(ImgSrc, nonce, o) == Intended(nonce, o)[7].1
    ensures Values(ScriptSrc, nonce, o) == Intended(nonce, o)[11].1
  {
    var x, l := Extra(o), o.locationCsp;
    ExtraIs(o);
    GivenIs(o.app.extraImgSrc);
    GivenIs(o.app.extraConnectSrc);
    GivenIs(o.app.extraFontSrc);
    GivenIs(l.scriptSrc);
    GivenIs(l.fontSrc);
    GivenIs(l.frameSrc);
    GivenIs(x.extraScriptSrc);
    GivenIs(x.extraImgSrc);
    GivenIs(x.extraConnectSrc);
    GivenIs(x.extraFontSrc);
    GivenIs(x.extraFrameSrc);
    hide Given, OrEmpty, Extra, OverridesOf;
  }

  lemma FirstNames(nonce: string, o: Options, i: nat)
    requires i < 8
    ensures NameText(NAMES[i]) == Intended(nonce, o)[i].0
  {
    hide Given, Extra;
  }

  lemma LastNames(nonce: string, o: Options, i: nat)
    requires 8 <= i < 16
    ensures NameText(NAMES[i]) == Intended(nonce, o)[i].0
  {
    hide Given, Extra;
  }

  lemma IntendedValues(nonce: string, o: Options, i: nat)
    requires i < 16
    ensures Values(NAMES[i], nonce, o) == Intended(nonce, o)[i].1
  {
    hide Given, Extra, ConnectValues, FontValues, FrameValues, ImgValues, ScriptValues;
    ComposedLists(nonce, o);
  }

  lemma PolicyMeans(nonce: string, o: Options, i: nat)
    requires i < 16
    ensures var d := Policy(nonce, o)[i];
      d.name == Intended(nonce, o)[i].0 && FirstOccurrences(d.value, Intended(nonce, o)[i].1)
  {
    hide Given, Extra, Values, NameText, Deduped, Intended, FirstOccurrences;
    if i < 8 { FirstNames(nonce, o, i); } else { LastNames(nonce, o, i); }
    IntendedValues(nonce, o, i);
    DedupedAre(Values(NAMES[i], nonce, o));
  }

  /** A directive read is one of the sixteen, with its own values. */
  ghost predicate IsIntended(d: Directive, nonce: string, o: Options) {
    exists i :: 0 <= i < 16 && d.name == Intended(nonce, o)[i].0 && FirstOccurrences(d.value, Intended(nonce, o)[i].1)
  }

  /**
    What a browser reads of an accepted policy: nothing but the sixteen directives, each with its
    own sources, those of the application, of the location and of the overrides, in this order;
    and each of them exactly when all its sources are ASCII.
   */
  lemma BrowserReadsIntended(nonce: string, o: Options)
    requires Allowed(nonce, o)
    ensures var read := Parse(Print(Policy(nonce, o)));
      && (forall d :: d in read ==> IsIntended(d, nonce, o))
      && forall i :: 0 <= i < 16 ==>
        (Defines(read, Intended(nonce, o)[i].0) <==> forall v :: v in Intended(nonce, o)[i].1 ==> Ascii(v))
  {
    hide Accepted, Allowed, Intended, Parse, Print, FirstOccurrences, Ascii, NameText, Values, Deduped;
    AcceptedInputs(nonce, o);
    CspPolicy.BrowserReads(nonce, o);
    CspPolicy.NamesDiffer(nonce, o);
    var p := Policy(nonce, o);
    CspPolicy.AsciiOnlyMembers(p);
    forall d | d in AsciiOnly(p) ensures IsIntended(d, nonce, o) {
      var i :| 0 <= i < 16 && p[i] == d;
      PolicyMeans(nonce, o, i);
    }
    forall i | 0 <= i < 16
      ensures Defines(AsciiOnly(p), Intended(nonce, o)[i].0) <==> forall v :: v in Intended(nonce, o)[i].1 ==> Ascii(v)
    {
      PolicyMeans(nonce, o, i);
      CspPolicy.AsciiOnlyFinds(p, i);
      AsciiAlike(p[i], Intended(nonce, o)[i].1);
    }
  }

  lemma AsciiAlike(d: Directive, values: seq<string>)
    requires FirstOccurrences(d.value, values)
    ensures AsciiDirective(d) <==> forall v :: v in values ==> Ascii(v)
  {
    hide Ascii;
    if AsciiDirective(d) {
      forall v | v in values ensures Ascii(v) { var k :| 0 <= k < |d.value| && d.value[k] == v; }
    } else {
      var k :| 0 <= k < |d.value| && !Ascii(d.value[k]);
      assert d.value[k] in d.value;
    }
  }
}
