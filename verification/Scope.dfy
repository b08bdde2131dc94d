/** Scoped definitions: every language projected onto one branch, and what lookups mean afterwards. */
module Scope {
  import opened Base
  import opened Catalogue
  import opened Numerals
  import opened Text

  /** `translations` holds Nothing for a language whose dictionary is undefined. */
  datatype Definition = Definition(translations: map<string, Node>, defaultLanguage: string,
                                   fallback: bool, metadata: map<string, string>)

  datatype Error = UnknownDefault | UnknownMetadata | NotAnObject

  /** One segment of a key. A list has its items at their decimal indices. */
  function Step(current: Option<Node>, segment: string): Option<Node> {
    match current
    case Some(Obj(fields)) => if segment in fields then Some(fields[segment]) else None
    case Some(List(items)) =>
      if AllDigits(segment) && Decimal(Value(segment)) == segment && Value(segment) < |items|
      then Some(items[Value(segment)]) else None
    case _ => None
  }

  function Walk(current: Option<Node>, segments: seq<string>): Option<Node>
    decreases |segments|
  {
    if segments == [] then current else Walk(Step(current, segments[0]), segments[1..])
  }

  function At(dictionary: Option<Node>, key: string): Option<Node> { Walk(dictionary, Split(key, '.')) }

  /** getNestedTranslation */
  function Nested(dictionary: Option<Node>, key: string): Option<string> {
    match At(dictionary, key)
    case Some(Text(text)) => Some(text)
    case _ => None
  }

  /** readScope, with Nothing for undefined. */
  function ReadScope(dictionary: Option<Node>, prefix: string): Node {
    match At(dictionary, prefix)
    case Some(Obj(fields)) => Obj(fields)
    case _ => Nothing
  }

  function Dictionary(d: Definition, language: string): Option<Node> {
    if language in d.translations && d.translations[language] != Nothing then Some(d.translations[language]) else None
  }

  function OrElse<T>(a: Option<T>, b: Option<T>): Option<T> { if a.Some? then a else b }

  /**
    The template a key resolves to, before interpolation; None where translate echoes the key.
    The code skips the fallback when both dictionaries are the same object, where it would only
    fail again.
   */
  function Template(d: Definition, language: string, key: string): Option<string> {
    var default_ := Dictionary(d, d.defaultLanguage);
    var selected := OrElse(Dictionary(d, language), default_);
    OrElse(Nested(selected, key), if d.fallback then Nested(default_, key) else None)
  }

  predicate IsDefined(d: Definition) {
    d.defaultLanguage in d.translations && d.metadata.Keys <= d.translations.Keys
  }

  function Define(d: Definition): Result<Definition, Error> {
    if d.defaultLanguage !in d.translations then Failure(UnknownDefault)
    else if d.metadata.Keys <= d.translations.Keys then Success(d)
    else Failure(UnknownMetadata)
  }

  method DefineI18n(d: Definition) returns (r: Result<Definition, Error>)
    ensures r == Define(d)
  {
    if d.defaultLanguage !in d.translations { return Failure(UnknownDefault); }
    var rest := d.metadata.Keys;
    while rest != {}
      invariant rest <= d.metadata.Keys && d.metadata.Keys - rest <= d.translations.Keys
    {
      var language :| language in rest;
      rest := rest - {language};
      if language !in d.translations { return Failure(UnknownMetadata); }
    }
    assert d.metadata.Keys - rest == d.metadata.Keys;
    return Success(d);
  }

  function Projected(d: Definition, prefix: string): Definition {
    d.(translations := map language | language in d.translations :: ReadScope(Dictionary(d, language), prefix))
  }

  function Scoped(d: Definition, prefix: string): Result<Definition, Error> {
    if ReadScope(Dictionary(d, d.defaultLanguage), prefix) == Nothing then Failure(NotAnObject)
    else Success(Projected(d, prefix))
  }

  method ScopeTo(d: Definition, prefix: string) returns (r: Result<Definition, Error>)
    requires IsDefined(d)
    ensures r == Scoped(d, prefix) && (r.Success? ==> IsDefined(r.value))
  {
    hide ReadScope;
    if ReadScope(Dictionary(d, d.defaultLanguage), prefix) == Nothing { return Failure(NotAnObject); }
    var scoped, rest := map[], d.translations.Keys;
    while rest != {}
      invariant rest <= d.translations.Keys && scoped.Keys == d.translations.Keys - rest
      invariant forall language :: language in scoped ==>
        scoped[language] == ReadScope(Dictionary(d, language), prefix)
    {
      var language :| language in rest;
      rest := rest - {language};
      scoped := scoped[language := ReadScope(Dictionary(d, language), prefix)];
    }
    assert scoped == Projected(d, prefix).translations;
    r := DefineI18n(d.(translations := scoped));
  }

  // ---------------------------------------------------------------------------
  // Composition
  // ---------------------------------------------------------------------------

  function Dot(p: string, q: string): string { p + "." + q }

  lemma {:induction false} WalkConcat(n: Option<Node>, a: seq<string>, b: seq<string>)
    ensures Walk(n, a + b) == Walk(Walk(n, a), b)
    decreases |a|
  {
    if a == [] {
      assert a + b == b;
    } else {
      assert (a + b)[1..] == a[1..] + b;
      WalkConcat(Step(n, a[0]), a[1..], b);
    }
  }

  lemma AtDot(n: Option<Node>, p: string, q: string)
    ensures At(n, Dot(p, q)) == At(At(n, p), q)
  {
    SplitConcat(p, '.', q);
    WalkConcat(n, Split(p, '.'), Split(q, '.'));
  }

  /** What is at `p` is neither an object nor a list: nothing lies below it. */
  lemma NothingBelow(n: Option<Node>, q: string)
    requires n.None? || (!n.value.Obj? && !n.value.List?)
    ensures At(n, q) == None
  {
    var segments := Split(q, '.');
    assert Step(n, segments[0]) == None;
    WalkNone(segments[1..]);
  }

  lemma {:induction false} WalkNone(segments: seq<string>)
    ensures Walk(None, segments) == None
  {
    if segments != [] { WalkNone(segments[1..]); }
  }

  predicate IsList(n: Option<Node>) { n.Some? && n.value.List? }

  /** A language that holds a list at `p` and, inside that list, an object at `q`. */
  predicate ObjectInList(d: Definition, language: string, p: string, q: string) {
    var n := At(Dictionary(d, language), p);
    IsList(n) && At(n, q).Some? && At(n, q).value.Obj?
  }

  /** One language, projected twice or once. */
  lemma ProjectedTwice(d: Definition, language: string, p: string, q: string)
    requires language in d.translations
    ensures var twice := ReadScope(Dictionary(Projected(d, p), language), q);
      var once := ReadScope(Dictionary(d, language), Dot(p, q));
      twice == if ObjectInList(d, language, p, q) then Nothing else once
    ensures ObjectInList(d, language, p, q) ==> ReadScope(Dictionary(d, language), Dot(p, q)) != Nothing
  {
    hide At;
    var n := At(Dictionary(d, language), p);
    AtDot(Dictionary(d, language), p, q);
    NothingBelow(None, q);
    if n.None? || (!n.value.Obj? && !n.value.List?) { NothingBelow(n, q); }
  }

  /**
    Scoping twice is scoping once to the joined path, exactly when no language hides an object
    inside a list at the first path, or the joined path is no scope at all.
   */
  lemma ScopesCompose(d: Definition, p: string, q: string)
    requires IsDefined(d) && Scoped(d, p).Success?
    ensures Scoped(Scoped(d, p).value, q) == Scoped(d, Dot(p, q)) <==>
      (Scoped(d, Dot(p, q)).Failure?
      || forall language :: language in d.translations ==> !ObjectInList(d, language, p, q))
  {
    hide ReadScope, ObjectInList;
    var inner := Projected(d, p);
    forall language | language in d.translations
      ensures ReadScope(Dictionary(inner, language), q)
        == if ObjectInList(d, language, p, q) then Nothing else ReadScope(Dictionary(d, language), Dot(p, q))
      ensures ObjectInList(d, language, p, q) ==> ReadScope(Dictionary(d, language), Dot(p, q)) != Nothing
    {
      ProjectedTwice(d, language, p, q);
    }
    var twice, once := Projected(inner, q), Projected(d, Dot(p, q));
    DefaultIsObject(d, p, q);
    assert once.translations.Keys == twice.translations.Keys;
    if forall language :: language in d.translations ==> !ObjectInList(d, language, p, q) {
      assert twice.translations == once.translations;
    } else {
      var language :| language in d.translations && ObjectInList(d, language, p, q);
      assert twice.translations[language] != once.translations[language];
    }
  }

  lemma DefaultIsObject(d: Definition, p: string, q: string)
    requires Scoped(d, p).Success?
    ensures !ObjectInList(d, d.defaultLanguage, p, q)
  {}

  // ---------------------------------------------------------------------------
  // Lookups
  // ---------------------------------------------------------------------------

  /** The language has a dictionary, and it holds no object at `p`. */
  predicate LacksBranch(d: Definition, language: string, p: string) {
    Dictionary(d, language).Some? && ReadScope(Dictionary(d, language), p) == Nothing
  }

  lemma NestedInBranch(n: Option<Node>, p: string, key: string)
    requires ReadScope(n, p) != Nothing
    ensures Nested(Some(ReadScope(n, p)), key) == Nested(n, Dot(p, key))
  {
    AtDot(n, p, key);
  }

  /** In a scoped definition a language that lacks the branch is the default language. */
  lemma ScopedTemplate(d: Definition, p: string, language: string, key: string)
    requires IsDefined(d) && Scoped(d, p).Success?
    ensures var default_ := Nested(Dictionary(d, d.defaultLanguage), Dot(p, key));
      Template(Scoped(d, p).value, language, key)
        == if Dictionary(d, language).None? || LacksBranch(d, language, p) then default_
           else OrElse(Nested(Dictionary(d, language), Dot(p, key)), if d.fallback then default_ else None)
  {
    hide At, Nested;
    var s := Scoped(d, p).value;
    NestedInBranch(Dictionary(d, d.defaultLanguage), p, key);
    assert Dictionary(s, d.defaultLanguage) == Some(ReadScope(Dictionary(d, d.defaultLanguage), p));
    if Dictionary(d, language).Some? {
      if ReadScope(Dictionary(d, language), p) != Nothing { NestedInBranch(Dictionary(d, language), p, key); }
    } else {
      NothingBelow(None, p);
      assert Dictionary(s, language).None?;
    }
  }

  /**
    A lookup in the scope is the lookup of the joined key exactly when the language has the
    branch, or no dictionary at all, or answers what the default language answers, or answers
    nothing and falls back to it.
   */
  lemma ScopePreservesLookup(d: Definition, p: string, language: string, key: string)
    requires IsDefined(d) && Scoped(d, p).Success?
    ensures Template(Scoped(d, p).value, language, key) == Template(d, language, Dot(p, key)) <==>
      (!LacksBranch(d, language, p)
      || Nested(Dictionary(d, language), Dot(p, key)) == Nested(Dictionary(d, d.defaultLanguage), Dot(p, key))
      || (d.fallback && Nested(Dictionary(d, language), Dot(p, key)).None?))
  {
    hide At, Nested;
    ScopedTemplate(d, p, language, key);
    if Dictionary(d, language).None? { NothingNested(Dot(p, key)); }
  }

  lemma NothingNested(key: string)
    ensures Nested(None, key).None?
  {
    NothingBelow(None, key);
  }

  /** Without a list in the way, a language that lacks the branch answers nothing below it. */
  lemma LackingIsSilent(d: Definition, p: string, language: string, key: string)
    requires LacksBranch(d, language, p) && !IsList(At(Dictionary(d, language), p))
    ensures Nested(Dictionary(d, language), Dot(p, key)).None?
  {
    hide At;
    AtDot(Dictionary(d, language), p, key);
    NothingBelow(At(Dictionary(d, language), p), key);
  }

  /** With a list at the branch, the scope reads the default language where the joined key reads the list. */
  lemma ListsAreSkipped(d: Definition, p: string, language: string, key: string)
    requires IsDefined(d) && Scoped(d, p).Success?
    requires IsList(At(Dictionary(d, language), p))
    requires Nested(Dictionary(d, language), Dot(p, key)).Some?
    ensures Template(d, language, Dot(p, key)) == Nested(Dictionary(d, language), Dot(p, key))
    ensures Template(Scoped(d, p).value, language, key) == Nested(Dictionary(d, d.defaultLanguage), Dot(p, key))
  {
    hide At;
    ScopedTemplate(d, p, language, key);
    NothingBelow(None, Dot(p, key));
    NothingBelow(None, p);
  }

  lemma AtOne(fields: map<string, Node>, key: string)
    requires '.' !in key
    ensures At(Some(Obj(fields)), key) == if key in fields then Some(fields[key]) else None
  {
    SplitFree(key, '.');
    var n := Some(Obj(fields));
    assert [key][1..] == [] && Walk(n, [key]) == Walk(Step(n, key), []);
  }

  function Menu(): map<string, Node> { map["open" := Node.Text("Open")] }

  function Partial(): Definition {
    Definition(map["en" := Obj(map["menu" := Obj(Menu())]), "fr" := Obj(map[])], "en", false, map[])
  }

  /** French lacks the branch, and nothing falls back: the scope answers in English, the joined key not at all. */
  lemma ScopeCanChangeLookup()
    ensures IsDefined(Partial()) && Scoped(Partial(), "menu").Success?
    ensures Template(Scoped(Partial(), "menu").value, "fr", "open") == Some("Open")
    ensures Template(Partial(), "fr", Dot("menu", "open")) == None
  {
    hide At, Dot, Template;
    var d := Partial();
    AtOne(map["menu" := Obj(Menu())], "menu");
    AtOne(Menu(), "open");
    AtOne(map[], "menu");
    assert Dictionary(d, "en") == Some(Obj(map["menu" := Obj(Menu())]));
    assert Dictionary(d, "fr") == Some(Obj(map[]));
    assert ReadScope(Dictionary(d, "en"), "menu") == Obj(Menu());
    assert LacksBranch(d, "fr", "menu");
    AtDot(Dictionary(d, "en"), "menu", "open");
    assert Nested(Dictionary(d, "en"), Dot("menu", "open")) == Some("Open");
    ScopedTemplate(d, "menu", "fr", "open");
    assert Template(d, "fr", Dot("menu", "open")) == None by {
      AtDot(Dictionary(d, "fr"), "menu", "open");
      NothingBelow(None, "open");
      NoTemplate(d, "fr", Dot("menu", "open"));
    }
  }

  lemma NoTemplate(d: Definition, language: string, key: string)
    requires Dictionary(d, language).Some? && Nested(Dictionary(d, language), key).None? && !d.fallback
    ensures Template(d, language, key) == None
  {}

  function Numbered(): Definition {
    Definition(map["en" := Obj(map["menu" := Obj(map["0" := Obj(map[])])]),
                   "fr" := Obj(map["menu" := List([Obj(map[])])])], "en", false, map[])
  }

  /** French holds a list where English holds an object: the branch is found by the joined path alone. */
  lemma ScopesCanDiffer()
    ensures IsDefined(Numbered()) && Scoped(Numbered(), "menu").Success?
    ensures Scoped(Numbered(), Dot("menu", "0")).Success?
    ensures Scoped(Scoped(Numbered(), "menu").value, "0") != Scoped(Numbered(), Dot("menu", "0"))
  {
    hide At, Dot;
    var d := Numbered();
    var menu := map["0" := Obj(map[])];
    assert Dictionary(d, "en") == Some(Obj(map["menu" := Obj(menu)]));
    assert Dictionary(d, "fr") == Some(Obj(map["menu" := List([Obj(map[])])]));
    AtOne(map["menu" := Obj(menu)], "menu");
    AtOne(menu, "0");
    AtOne(map["menu" := List([Obj(map[])])], "menu");
    AtFirst([Obj(map[])]);
    AtDot(Dictionary(d, "en"), "menu", "0");
    assert ReadScope(Dictionary(d, "en"), Dot("menu", "0")) == Obj(map[]);
    assert ObjectInList(d, "fr", "menu", "0");
    ScopesCompose(d, "menu", "0");
  }

  lemma AtFirst(items: seq<Node>)
    requires items != []
    ensures At(Some(List(items)), "0") == Some(items[0])
  {
    SplitFree("0", '.');
    ValueOfDecimal(0);
    assert Decimal(0) == "0";
    var n := Some(List(items));
    assert ["0"][1..] == [] && Walk(n, ["0"]) == Walk(Step(n, "0"), []);
  }

  // ---------------------------------------------------------------------------
  // What is looked up
  // ---------------------------------------------------------------------------

  /** The language has a dictionary, and it holds this text at the key. */
  ghost predicate Says(d: Definition, language: string, key: string, text: string) {
    && language in d.translations && d.translations[language] != Nothing
    && At(Some(d.translations[language]), key) == Some(Node.Text(text))
  }

  ghost predicate Speaks(d: Definition, language: string, key: string) { exists text :: Says(d, language, key, text) }

  /**
    A lookup answers what the language says; a language without a dictionary is replaced by the
    default one; and with fallback the default answers where the language says nothing.
   */
  lemma Answers(d: Definition, language: string, key: string, text: string)
    ensures var has := language in d.translations && d.translations[language] != Nothing;
      var selected := if has then language else d.defaultLanguage;
      Template(d, language, key) == Some(text) <==>
        || Says(d, selected, key, text)
        || (d.fallback && !Speaks(d, selected, key) && Says(d, d.defaultLanguage, key, text))
  {
    hide At;
    NestedSays(d, language, key);
    NestedSays(d, d.defaultLanguage, key);
  }

  lemma NestedSays(d: Definition, language: string, key: string)
    ensures forall text :: Nested(Dictionary(d, language), key) == Some(text) <==> Says(d, language, key, text)
    ensures Nested(Dictionary(d, language), key).Some? <==> Speaks(d, language, key)
  {
    hide At;
    assert At(None, key) == None by { NowhereIsNothing(key); }
    if Nested(Dictionary(d, language), key).Some? {
      assert Says(d, language, key, Nested(Dictionary(d, language), key).value);
    }
  }

  lemma NowhereIsNothing(key: string)
    ensures At(None, key) == None
  {
    WalkOfNothing(Split(key, '.'));
  }

  lemma {:induction false} WalkOfNothing(segments: seq<string>)
    ensures Walk(None, segments) == None
  {
    if segments != [] { WalkOfNothing(segments[1..]); }
  }

  /** A key of dot-separated segments walks down objects field by field, and into lists by index. */
  lemma {:induction false} KeysWalk(n: Node, segments: seq<string>)
    requires segments != [] && forall i :: 0 <= i < |segments| ==> '.' !in segments[i]
    ensures At(Some(n), Join(segments, ".")) == Walk(Some(n), segments)
    ensures Get(n, segments).Some? ==> Walk(Some(n), segments) == Get(n, segments)
    ensures forall items, i :: n == List(items) && 0 <= i < |items| && segments[0] == Decimal(i) ==>
      Walk(Some(n), segments) == Walk(Some(items[i]), segments[1..])
  {
    hide Split, Join, Value, Decimal;
    SplitJoin(segments, '.');
    WalkIsGet(n, segments);
    forall items, i | n == List(items) && 0 <= i < |items| && segments[0] == Decimal(i)
      ensures Walk(Some(n), segments) == Walk(Some(items[i]), segments[1..])
    {
      ValueOfDecimal(i);
    }
  }

  lemma {:induction false} WalkIsGet(n: Node, p: Path)
    ensures Get(n, p).Some? ==> Walk(Some(n), p) == Get(n, p)
    decreases |p|
  {
    if p != [] && n.Obj? && p[0] in n.fields { WalkIsGet(n.fields[p[0]], p[1..]); }
  }

  /** A definition is accepted exactly when its default language and all languages with metadata have an entry. */
  lemma DefinedExactly(d: Definition)
    ensures Define(d).Success? <==>
      d.defaultLanguage in d.translations && forall l :: l in d.metadata ==> l in d.translations
    ensures Define(d).Success? ==> Define(d).value == d
  {}

  /** A scope has the languages, the default, the fallback and the metadata of the definition. */
  lemma ScopeKeepsLanguages(d: Definition, p: string)
    requires IsDefined(d)
    ensures Scoped(d, p).Success? <==>
      exists fields :: At(Some(d.translations[d.defaultLanguage]), p) == Some(Obj(fields))
    ensures Scoped(d, p).Success? ==>
      && IsDefined(Scoped(d, p).value)
      && Scoped(d, p).value == d.(translations := Scoped(d, p).value.translations)
      && Scoped(d, p).value.translations.Keys == d.translations.Keys
  {
    hide At;
    NowhereIsNothing(p);
    assert At(Some(Nothing), p) == None by { NothingHoldsNothing(p); }
    if Scoped(d, p).Success? {
      var Some(Obj(fields)) := At(Some(d.translations[d.defaultLanguage]), p);
      assert At(Some(d.translations[d.defaultLanguage]), p) == Some(Obj(fields));
    }
  }

  lemma NothingHoldsNothing(key: string)
    ensures At(Some(Nothing), key) == None
  {
    hide Split;
    WalkOfNothing(Split(key, '.')[1..]);
  }
}
