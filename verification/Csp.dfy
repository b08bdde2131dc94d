/**
  The policy generator: which sources it takes (app.ts), how it composes the sixteen
  directives (security.ts), and what a browser makes of the text it prints.
 */
module Csp {
  import opened Base
  import opened Text
  import opened CspParser

  // ---------------------------------------------------------------------------
  // Sources and the nonce
  // ---------------------------------------------------------------------------

  const SELF := "'self'"
  const NONE := "'none'"
  const STRICT_DYNAMIC := "'strict-dynamic'"
  const UNSAFE_INLINE := "'unsafe-inline'"
  const UNSAFE_EVAL := "'unsafe-eval'"
  const DATA := "data:"
  const BLOB := "blob:"
  const REPORT_PATH := "/api/csp-report"

  predicate IsControl(c: char) { c <= '\U{001F}' || c == '\U{007F}' }

  predicate IsForbidden(c: char) {
    IsControl(c) || IsSpace(c) || c in "\"'(),;\\"
  }

  /** The text before the first `c`, and from it on. */
  function Before(s: string, c: char): (r: string)
    ensures r <= s && c !in r && (|r| < |s| ==> s[|r|] == c)
  {
    if s == "" || s[0] == c then "" else [s[0]] + Before(s[1..], c)
  }

  predicate IsLabel(s: string) {
    s != "" && forall c :: c in s ==> IsAlnum(c) || c == '-'
  }

  predicate IsPort(s: string) {
    1 <= |s| <= 5 && forall c :: c in s ==> IsDigit(c)
  }

  /** HOST_PATTERN: labels joined by dots, then an optional port, then an optional path. */
  predicate IsHost(s: string) {
    var authority := Before(s, '/');
    var name := Before(authority, ':');
    && (forall i :: 0 <= i < |Split(name, '.')| ==> IsLabel(Split(name, '.')[i]))
    && (|name| < |authority| ==> IsPort(authority[|name| + 1..]))
    && NoSpace(s[|authority|..])
  }

  predicate IsCspSource(value: string) {
    if value == "" then false
    else if value in {SELF, NONE, STRICT_DYNAMIC, UNSAFE_INLINE, DATA, BLOB} then true
    else if exists c :: c in value && IsForbidden(c) then false
    else if !StartsWith(Lower(value), "https://") then false
    else
      var host := value[8..];
      if host == "" || host[0] == '.' || '@' in host then false
      else if StartsWith(host, "*.") then host[2..] != "" && host[2] != '.' && IsHost(host[2..])
      else IsHost(host)
  }

  predicate IsNonce(s: string) {
    16 <= |s| <= 256 && forall c :: c in s ==> IsAlnum(c) || c in "+/=_-"
  }

  predicate AllSources(values: seq<string>) {
    forall i :: 0 <= i < |values| ==> IsCspSource(values[i])
  }

  /** What the proof needs of a printed source: it cannot end a value, a directive or a policy. */
  predicate Contained(s: string) {
    Safe(s) && ',' !in s
  }

  /** A contained ASCII text. */
  predicate Plain(s: string) {
    s != "" && forall c :: c in s ==> !AsciiSpace(c) && c != ';' && c != ',' && c <= '\U{007F}'
  }

  lemma ShortKeywordsArePlain()
    ensures Plain(SELF) && Plain(NONE) && Plain(DATA) && Plain(BLOB)
  {}

  lemma LongKeywordsArePlain()
    ensures Plain(STRICT_DYNAMIC)
    ensures Plain(UNSAFE_INLINE)
  {}

  lemma OwnTextsArePlain()
    ensures Plain(UNSAFE_EVAL)
    ensures Plain(REPORT_PATH)
  {}

  lemma {:induction false} SourceIsContained(s: string)
    requires IsCspSource(s)
    ensures Contained(s) && s != UNSAFE_EVAL && s != "*"
  {
    hide IsHost;
    ShortKeywordsArePlain();
    LongKeywordsArePlain();
    assert UNSAFE_EVAL[0] == '\'' && IsForbidden('\'');
    if s !in {SELF, NONE, STRICT_DYNAMIC, UNSAFE_INLINE, DATA, BLOB} {
      forall c | c in s ensures !AsciiSpace(c) && c != ';' && c != ',' {
        assert !IsForbidden(c);
      }
      assert |Lower(s)| >= 8;
    }
  }

  lemma NonceIsContained(nonce: string)
    requires IsNonce(nonce)
    ensures Contained(NonceSource(nonce)) && Ascii(NonceSource(nonce))
    ensures NonceSource(nonce) !in {SELF, NONE, STRICT_DYNAMIC, UNSAFE_INLINE, UNSAFE_EVAL, "*"}
  {
    var s := NonceSource(nonce);
    assert s[..7] == "'nonce-";
    forall c | c in s ensures !AsciiSpace(c) && c != ';' && c != ',' && c <= '\U{007F}' {
      assert c in "'nonce-" || c in nonce || c == '\'';
    }
    assert s[1] == 'n' && s[2] == 'o' && s[3] == 'n' && s[4] == 'c';
  }

  function NonceSource(nonce: string): string { "'nonce-" + nonce + "'" }

  // ---------------------------------------------------------------------------
  // dedupe
  // ---------------------------------------------------------------------------

  /** Every value at its first occurrence. */
  function Deduped(values: seq<string>): seq<string> {
    if values == [] then []
    else
      var last := values[|values| - 1];
      var before := values[..|values| - 1];
      Deduped(before) + (if last in before then [] else [last])
  }

  lemma {:induction false} DedupedMembers(values: seq<string>)
    ensures forall v :: v in Deduped(values) <==> v in values
  {
    if values != [] {
      var last, before := values[|values| - 1], values[..|values| - 1];
      DedupedMembers(before);
      assert values == before + [last];
    }
  }

  function FirstIndex(values: seq<string>, v: string): (i: nat)
    requires v in values
    ensures i < |values| && values[i] == v && v !in values[..i]
  {
    if values[0] == v then 0 else 1 + FirstIndex(values[1..], v)
  }

  /** Values come out in the order in which they first occur, so none comes out twice. */
  lemma {:induction false} DedupedOrder(values: seq<string>, i: nat, j: nat)
    requires i < j < |Deduped(values)|
    ensures Deduped(values)[i] in values && Deduped(values)[j] in values
    ensures FirstIndex(values, Deduped(values)[i]) < FirstIndex(values, Deduped(values)[j])
    decreases |values|
  {
    DedupedMembers(values);
    var last, before := values[|values| - 1], values[..|values| - 1];
    DedupedMembers(before);
    assert values == before + [last];
    FirstIndexPrefix(before, [last], Deduped(before)[i]);
    if j < |Deduped(before)| {
      DedupedOrder(before, i, j);
      FirstIndexPrefix(before, [last], Deduped(before)[j]);
    } else {
      assert before[FirstIndex(before, Deduped(before)[i])] == Deduped(before)[i];
      assert values[FirstIndex(values, last)] == last;
    }
  }

  lemma {:induction false} FirstIndexPrefix(a: seq<string>, b: seq<string>, v: string)
    requires v in a
    ensures v in a + b && FirstIndex(a + b, v) == FirstIndex(a, v)
  {
    assert (a + b)[0] == a[0];
    if a[0] != v {
      assert (a + b)[1..] == a[1..] + b;
      FirstIndexPrefix(a[1..], b, v);
    }
  }

  method Dedupe(values: seq<string>) returns (out: seq<string>)
    ensures out == Deduped(values)
  {
    var seen: set<string> := {};
    out := [];
    for i := 0 to |values|
      invariant forall v :: v in seen <==> v in values[..i]
      invariant out == Deduped(values[..i])
    {
      assert values[..i + 1][..i] == values[..i] && values[..i + 1] == values[..i] + [values[i]];
      if values[i] !in seen {
        seen := seen + {values[i]};
        out := out + [values[i]];
      }
    }
    assert values[..|values|] == values;
  }

  // ---------------------------------------------------------------------------
  // Options and what is accepted
  // ---------------------------------------------------------------------------

  /** The csp part of an application definition. */
  datatype AppCsp = AppCsp(
    reportPath: string, frameSrc: seq<string>,
    extraImgSrc: Option<seq<string>>, extraConnectSrc: Option<seq<string>>, extraFontSrc: Option<seq<string>>)

  datatype LocationCsp = LocationCsp(
    imgSrc: seq<string>, connectSrc: seq<string>,
    scriptSrc: Option<seq<string>>, fontSrc: Option<seq<string>>, frameSrc: Option<seq<string>>)

  datatype Overrides = Overrides(
    extraScriptSrc: Option<seq<string>>, extraImgSrc: Option<seq<string>>, extraConnectSrc: Option<seq<string>>,
    extraFontSrc: Option<seq<string>>, extraFrameSrc: Option<seq<string>>)

  datatype Options = Options(
    mode: string, isDevelopment: bool, app: AppCsp, locationCsp: LocationCsp, overrides: Option<Overrides>)

  datatype CspError = BadNonce | BadMode | BadApp | BadLocation | BadOverrides | BadScript | BadFrame

  function OrEmpty(values: Option<seq<string>>): seq<string> {
    if values.Some? then values.value else []
  }

  function OverridesOf(o: Options): Overrides {
    if o.overrides.Some? then o.overrides.value else Overrides(None, None, None, None, None)
  }

  predicate GoodList(values: Option<seq<string>>) {
    values.Some? ==> AllSources(values.value) && NONE !in values.value
  }

  predicate GoodApp(app: AppCsp) {
    && app.reportPath == REPORT_PATH
    && app.frameSrc != [] && AllSources(app.frameSrc)
    && GoodList(app.extraImgSrc) && GoodList(app.extraConnectSrc) && GoodList(app.extraFontSrc)
  }

  predicate GoodLocation(l: LocationCsp) {
    && AllSources(l.imgSrc) && AllSources(l.connectSrc) && AllSources(OrEmpty(l.scriptSrc))
    && AllSources(OrEmpty(l.fontSrc)) && AllSources(OrEmpty(l.frameSrc))
    && UNSAFE_EVAL !in OrEmpty(l.scriptSrc) && UNSAFE_INLINE !in OrEmpty(l.scriptSrc)
  }

  predicate GoodOverrides(o: Overrides) {
    && AllSources(OrEmpty(o.extraScriptSrc)) && AllSources(OrEmpty(o.extraImgSrc))
    && AllSources(OrEmpty(o.extraConnectSrc)) && AllSources(OrEmpty(o.extraFontSrc))
    && AllSources(OrEmpty(o.extraFrameSrc))
  }

  /** The inputs for which a policy is printed. */
  predicate Accepted(nonce: string, o: Options) {
    && IsNonce(nonce) && o.mode == "nonce"
    && GoodApp(o.app) && GoodLocation(o.locationCsp) && GoodOverrides(OverridesOf(o))
    && (!o.isDevelopment ==> UNSAFE_INLINE !in OrEmpty(OverridesOf(o).extraScriptSrc))
    && NONE !in OrEmpty(o.locationCsp.scriptSrc) && NONE !in OrEmpty(OverridesOf(o).extraScriptSrc)
    && (NONE in FrameValues(o) ==> forall v :: v in FrameValues(o) ==> v == NONE)
  }

  // ---------------------------------------------------------------------------
  // The policy meant
  // ---------------------------------------------------------------------------

  function ScriptValues(nonce: string, o: Options): seq<string> {
    [SELF, NonceSource(nonce), STRICT_DYNAMIC] + (if o.isDevelopment then [UNSAFE_EVAL] else [])
    + OrEmpty(o.locationCsp.scriptSrc) + OrEmpty(OverridesOf(o).extraScriptSrc)
  }

  function ImgValues(o: Options): seq<string> {
    [SELF, DATA, BLOB] + OrEmpty(o.app.extraImgSrc) + o.locationCsp.imgSrc + OrEmpty(OverridesOf(o).extraImgSrc)
  }

  function ConnectValues(o: Options): seq<string> {
    [SELF] + OrEmpty(o.app.extraConnectSrc) + o.locationCsp.connectSrc + OrEmpty(OverridesOf(o).extraConnectSrc)
  }

  function FontValues(o: Options): seq<string> {
    [SELF, DATA] + OrEmpty(o.app.extraFontSrc) + OrEmpty(o.locationCsp.fontSrc)
    + OrEmpty(OverridesOf(o).extraFontSrc)
  }

  function FrameValues(o: Options): seq<string> {
    o.app.frameSrc + OrEmpty(o.locationCsp.frameSrc) + OrEmpty(OverridesOf(o).extraFrameSrc)
  }

  datatype Name =
    | DefaultSrc | BaseUri | ConnectSrc | FontSrc | FormAction | FrameAncestors | FrameSrc | ImgSrc
    | ManifestSrc | MediaSrc | ObjectSrc | ScriptSrc | StyleSrc | WorkerSrc | UpgradeInsecureRequests | ReportUri

  function NameText(n: Name): string {
    match n
    case DefaultSrc => "default-src"
    case BaseUri => "base-uri"
    case ConnectSrc => "connect-src"
    case FontSrc => "font-src"
    case FormAction => "form-action"
    case FrameAncestors => "frame-ancestors"
    case FrameSrc => "frame-src"
    case ImgSrc => "img-src"
    case ManifestSrc => "manifest-src"
    case MediaSrc => "media-src"
    case ObjectSrc => "object-src"
    case ScriptSrc => "script-src"
    case StyleSrc => "style-src"
    case WorkerSrc => "worker-src"
    case UpgradeInsecureRequests => "upgrade-insecure-requests"
    case ReportUri => "report-uri"
  }

  const NAMES: seq<Name> :=
    [ DefaultSrc, BaseUri, ConnectSrc, FontSrc, FormAction, FrameAncestors, FrameSrc, ImgSrc,
      ManifestSrc, MediaSrc, ObjectSrc, ScriptSrc, StyleSrc, WorkerSrc, UpgradeInsecureRequests, ReportUri ]

  /** The sources meant for a directive, in the order the code lists them. */
  function Values(n: Name, nonce: string, o: Options): seq<string> {
    match n
    case ConnectSrc => ConnectValues(o)
    case FontSrc => FontValues(o)
    case FrameSrc => FrameValues(o)
    case ImgSrc => ImgValues(o)
    case ScriptSrc => ScriptValues(nonce, o)
    case FrameAncestors => [NONE]
    case ObjectSrc => [NONE]
    case StyleSrc => [SELF, UNSAFE_INLINE]
    case WorkerSrc => [SELF, BLOB]
    case UpgradeInsecureRequests => []
    case ReportUri => [o.app.reportPath]
    case _ => [SELF]
  }

  /** The sixteen directives, each with its sources once, in order of first occurrence. */
  function Policy(nonce: string, o: Options): (policy: seq<Directive>)
    ensures |policy| == 16
    ensures forall i :: 0 <= i < 16 ==>
      policy[i] == Directive(NameText(NAMES[i]), Deduped(Values(NAMES[i], nonce, o)))
  {
    seq(16, i requires 0 <= i < 16 => Directive(NameText(NAMES[i]), Deduped(Values(NAMES[i], nonce, o))))
  }

  /** The sources the caller supplied for a directive. */
  function Supplied(n: Name, o: Options): seq<string> {
    match n
    case ConnectSrc =>
      OrEmpty(o.app.extraConnectSrc) + o.locationCsp.connectSrc + OrEmpty(OverridesOf(o).extraConnectSrc)
    case FontSrc =>
      OrEmpty(o.app.extraFontSrc) + OrEmpty(o.locationCsp.fontSrc) + OrEmpty(OverridesOf(o).extraFontSrc)
    case FrameSrc => FrameValues(o)
    case ImgSrc => OrEmpty(o.app.extraImgSrc) + o.locationCsp.imgSrc + OrEmpty(OverridesOf(o).extraImgSrc)
    case ScriptSrc => OrEmpty(o.locationCsp.scriptSrc) + OrEmpty(OverridesOf(o).extraScriptSrc)
    case _ => []
  }
}
