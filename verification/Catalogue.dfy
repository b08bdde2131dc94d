/** The translation catalogue: contributions merged in layers, the last layer winning. */
module Catalogue {
  import opened Base
  import opened Numerals

  /** A value of a catalogue. `Nothing` is null or undefined, `Other` any other value that is not a text. */
  datatype Node =
    | Text(text: string)
    | Nothing
    | Other(id: int)
    | List(items: seq<Node>)
    | Obj(fields: map<string, Node>)

  const DANGEROUS_KEYS := {"__proto__", "constructor", "prototype"}

  /** Without the dangerous keys, at every depth of nested objects. */
  function Clean(n: Node): (r: Node)
    ensures r.Obj? <==> n.Obj?
  {
    if n.Obj? then Obj(map k | k in n.fields && k !in DANGEROUS_KEYS :: Clean(n.fields[k])) else n
  }

  /** Two objects merge field by field; anything else in the source replaces what the target has. */
  function Merged(t: Node, s: Node): (r: Node)
    ensures r.Obj? <==> s.Obj?
    decreases s
  {
    if t.Obj? && s.Obj? then
      Obj(map k | k in t.fields.Keys + s.fields.Keys - DANGEROUS_KEYS ::
        if k !in s.fields then Clean(t.fields[k])
        else if k in t.fields then Merged(t.fields[k], s.fields[k])
        else Clean(s.fields[k]))
    else Clean(s)
  }

  // ---------------------------------------------------------------------------
  // The code
  // ---------------------------------------------------------------------------

  /** Items under their indices. */
  function Indexed(items: seq<Node>): map<string, Node> {
    if items == [] then map[] else Indexed(items[..|items| - 1])[Decimal(|items| - 1) := items[|items| - 1]]
  }

  /** Each index, printed, finds its item, and there are no other keys. */
  lemma {:induction false} IndexedItems(items: seq<Node>)
    ensures forall i :: 0 <= i < |items| ==> Decimal(i) in Indexed(items) && Indexed(items)[Decimal(i)] == items[i]
    ensures forall k :: k in Indexed(items) ==> exists i :: 0 <= i < |items| && k == Decimal(i)
  {
    hide Decimal;
    if items != [] {
      var n := |items| - 1;
      IndexedItems(items[..n]);
      ValueOfDecimal(n);
      forall i | 0 <= i < n ensures Decimal(i) != Decimal(n) { ValueOfDecimal(i); }
      forall k | k in Indexed(items) ensures exists i :: 0 <= i < |items| && k == Decimal(i) {
        if k in Indexed(items[..n]) {
          var i :| 0 <= i < n && k == Decimal(i);
        }
      }
    }
  }

  /** Object.entries: texts and lists have their indices for keys, other values none; null throws. */
  function Entries(n: Node): map<string, Node> {
    match n
    case Obj(fields) => fields
    case Text(text) => Indexed(seq(|text|, i requires 0 <= i < |text| => Text([text[i]])))
    case List(items) => Indexed(items)
    case _ => map[]
  }

  /** The value as the object that the loops over its entries take it for. */
  function Spread(n: Node): Node { Obj(Entries(n)) }

  lemma SpreadOfObject(n: Node)
    ensures n.Obj? ==> Spread(n) == n
  {}

  lemma EntryIsSmaller(n: Node, k: string)
    requires k in Entries(n) && Entries(n)[k].Obj?
    ensures n decreases to Entries(n)[k]
  {
    hide Indexed, Decimal;
    match n
    case Obj(fields) => assert n decreases to fields[k];
    case List(items) =>
      IndexedItems(items);
      var i :| 0 <= i < |items| && k == Decimal(i);
      assert n decreases to items[i];
    case Text(text) => IndexedItems(seq(|text|, i requires 0 <= i < |text| => Text([text[i]])));
    case _ =>
  }

  method DeepClone(obj: Node) returns (result: Node)
    requires obj != Nothing
    ensures result == Clean(Spread(obj))
    decreases obj
  {
    hide Entries;
    var entries := Entries(obj);
    var fields, rest := map[], entries.Keys;
    while rest != {}
      invariant rest <= entries.Keys
      invariant fields.Keys == entries.Keys - rest - DANGEROUS_KEYS
      invariant forall k :: k in fields ==> fields[k] == Clean(entries[k])
    {
      var key :| key in rest;
      rest := rest - {key};
      if key in DANGEROUS_KEYS { continue; }
      var value := entries[key];
      if value.Obj? {
        EntryIsSmaller(obj, key);
        SpreadOfObject(value);
        value := DeepClone(value);
      }
      fields := fields[key := value];
    }
    return Obj(fields);
  }

  lemma KeysOfMerge(t: Node, s: Node)
    requires t.Obj? && s.Obj?
    ensures Merged(t, s).fields.Keys == t.fields.Keys + s.fields.Keys - DANGEROUS_KEYS
  {}

  lemma FieldOfMerge(t: Node, s: Node, k: string)
    requires t.Obj? && s.Obj? && k in Merged(t, s).fields
    ensures Merged(t, s).fields[k] ==
      if k !in s.fields then Clean(t.fields[k])
      else if k in t.fields then Merged(t.fields[k], s.fields[k])
      else Clean(s.fields[k])
  {}

  /** The fields of a merge, one by one. */
  lemma FieldsOfMerge(target: Node, source: Node, fields: map<string, Node>)
    requires target.Obj? && source.Obj?
    requires fields.Keys == target.fields.Keys + source.fields.Keys - DANGEROUS_KEYS
    requires forall k :: k in fields ==>
      fields[k] == if k !in source.fields then Clean(target.fields[k])
        else if k in target.fields then Merged(target.fields[k], source.fields[k])
        else Clean(source.fields[k])
    ensures Obj(fields) == Merged(target, source)
  {
    hide Clean, Merged;
    KeysOfMerge(target, source);
    forall k | k in fields ensures fields[k] == Merged(target, source).fields[k] { FieldOfMerge(target, source, k); }
  }

  lemma LeavesStay(t: Node, n: Node)
    ensures !n.Obj? ==> Clean(n) == n && Merged(t, n) == n
    ensures !t.Obj? ==> Merged(t, n) == Clean(n)
  {}

  method MergeObjects(target: Node, source: Node) returns (result: Node)
    requires target.Obj? && source != Nothing
    ensures result == Merged(target, Spread(source))
    decreases source
  {
    hide Entries, Clean, Merged;
    var entries := Entries(source);
    var fields, rest := map[], target.fields.Keys;
    while rest != {}
      invariant rest <= target.fields.Keys
      invariant fields.Keys == target.fields.Keys - rest - DANGEROUS_KEYS
      invariant forall k :: k in fields ==> fields[k] == Clean(target.fields[k])
    {
      var key :| key in rest;
      rest := rest - {key};
      if key in DANGEROUS_KEYS { continue; }
      var value := target.fields[key];
      SpreadOfObject(value);
      LeavesStay(value, value);
      if value.Obj? { value := DeepClone(value); }
      fields := fields[key := value];
    }
    rest := entries.Keys;
    while rest != {}
      invariant rest <= entries.Keys
      invariant fields.Keys == target.fields.Keys + (entries.Keys - rest) - DANGEROUS_KEYS
      invariant forall k :: k in fields ==>
        fields[k] == if k !in entries || k in rest then Clean(target.fields[k])
          else if k in target.fields then Merged(target.fields[k], entries[k])
          else Clean(entries[k])
    {
      var key :| key in rest;
      rest := rest - {key};
      if key in DANGEROUS_KEYS { continue; }
      var value := entries[key];
      SpreadOfObject(value);
      if key in target.fields { LeavesStay(target.fields[key], value); } else { LeavesStay(value, value); }
      if value.Obj? && key in fields && fields[key].Obj? {
        MergedClean(target.fields[key], value);
        EntryIsSmaller(source, key);
        value := MergeObjects(fields[key], value);
      } else if value.Obj? {
        value := DeepClone(value);
      }
      fields := fields[key := value];
    }
    FieldsOfMerge(target, Spread(source), fields);
    return Obj(fields);
  }

  /** Every language holds an object. */
  predicate IsValidTranslations(t: Node) {
    t.Obj? && forall lang :: lang in t.fields ==> t.fields[lang].Obj?
  }

  /** The object that a value is taken for: characters and items by their index, nothing for the rest. */
  lemma EntriesByIndex(n: Node)
    ensures n.Text? ==>
      && (forall i :: 0 <= i < |n.text| ==> Decimal(i) in Entries(n) && Entries(n)[Decimal(i)] == Text([n.text[i]]))
      && forall k :: k in Entries(n) ==> exists i :: 0 <= i < |n.text| && k == Decimal(i)
    ensures n.List? ==>
      && (forall i :: 0 <= i < |n.items| ==> Decimal(i) in Entries(n) && Entries(n)[Decimal(i)] == n.items[i])
      && forall k :: k in Entries(n) ==> exists i :: 0 <= i < |n.items| && k == Decimal(i)
    ensures n.Nothing? || n.Other? ==> Entries(n) == map[]
  {
    hide Decimal, Indexed;
    if n.Text? { IndexedItems(seq(|n.text|, i requires 0 <= i < |n.text| => Text([n.text[i]]))); }
    if n.List? { IndexedItems(n.items); }
  }

  /** Every language with the object its value is taken for. */
  function Shaped(t: Node): Node { Obj(map lang | lang in Entries(t) :: Spread(Entries(t)[lang])) }

  lemma ShapedIsValid(t: Node)
    ensures IsValidTranslations(Shaped(t)) && (IsValidTranslations(t) ==> Shaped(t) == t)
  {}

  /** A language whose value is null or undefined. */
  predicate HasNothing(t: Node) {
    exists lang :: lang in Entries(t) && lang !in DANGEROUS_KEYS && Entries(t)[lang] == Nothing
  }

  datatype Error = TypeError

  /** Any source that is not null; its values are not checked, and a null one throws. */
  method DeepMerge(target: Node, source: Node) returns (result: Result<Node, Error>)
    requires IsValidTranslations(target) && source != Nothing
    ensures result == if HasNothing(source) then Failure(TypeError) else Success(Merged(target, Shaped(source)))
    ensures result.Success? ==> IsValidTranslations(result.value)
  {
    hide Clean, Entries, Merged, Shaped;
    var entries := Entries(source);
    var fields, rest := map[], target.fields.Keys;
    while rest != {}
      invariant rest <= target.fields.Keys
      invariant fields.Keys == target.fields.Keys - rest - DANGEROUS_KEYS
      invariant forall lang :: lang in fields ==> fields[lang] == Clean(target.fields[lang])
    {
      var lang :| lang in rest;
      rest := rest - {lang};
      if lang in DANGEROUS_KEYS { continue; }
      SpreadOfObject(target.fields[lang]);
      var values := DeepClone(target.fields[lang]);
      fields := fields[lang := values];
    }
    rest := entries.Keys;
    while rest != {}
      invariant rest <= entries.Keys
      invariant fields.Keys == target.fields.Keys + (entries.Keys - rest) - DANGEROUS_KEYS
      invariant forall lang :: lang in entries.Keys - rest - DANGEROUS_KEYS ==> entries[lang] != Nothing
      invariant forall lang :: lang in fields ==>
        fields[lang] == if lang !in entries || lang in rest then Clean(target.fields[lang])
          else if lang in target.fields then Merged(target.fields[lang], Spread(entries[lang]))
          else Clean(Spread(entries[lang]))
    {
      var lang :| lang in rest;
      rest := rest - {lang};
      if lang in DANGEROUS_KEYS { continue; }
      if entries[lang] == Nothing {
        assert lang in Entries(source) && HasNothing(source);
        return Failure(TypeError);
      }
      var values;
      if lang in fields {
        MergedClean(target.fields[lang], Spread(entries[lang]));
        values := MergeObjects(fields[lang], entries[lang]);
      } else {
        values := DeepClone(entries[lang]);
      }
      fields := fields[lang := values];
    }
    MergeOfShaped(target, source, fields);
    return Success(Obj(fields));
  }

  lemma MergeOfShaped(target: Node, source: Node, fields: map<string, Node>)
    requires target.Obj?
    requires var entries := Entries(source);
      && fields.Keys == target.fields.Keys + entries.Keys - DANGEROUS_KEYS
      && forall lang :: lang in fields ==>
        fields[lang] == if lang !in entries then Clean(target.fields[lang])
          else if lang in target.fields then Merged(target.fields[lang], Spread(entries[lang]))
          else Clean(Spread(entries[lang]))
    ensures Obj(fields) == Merged(target, Shaped(source))
  {
    hide Clean, Entries, Spread, Merged;
    FieldsOfMerge(target, Shaped(source), fields);
  }

  // ---------------------------------------------------------------------------
  // Cleaning and merging
  // ---------------------------------------------------------------------------

  lemma {:induction false} CleanClean(n: Node)
    ensures Clean(Clean(n)) == Clean(n)
  {
    if n.Obj? {
      forall k | k in n.fields ensures Clean(Clean(n.fields[k])) == Clean(n.fields[k]) { CleanClean(n.fields[k]); }
    }
  }

  /** Cleaning the target first changes nothing. */
  lemma {:induction false} MergedClean(t: Node, s: Node)
    ensures Merged(Clean(t), s) == Merged(t, s)
    decreases s
  {
    if t.Obj? && s.Obj? {
      forall k | k in t.fields ensures Clean(Clean(t.fields[k])) == Clean(t.fields[k]) { CleanClean(t.fields[k]); }
      forall k | k in t.fields && k in s.fields
        ensures Merged(Clean(t.fields[k]), s.fields[k]) == Merged(t.fields[k], s.fields[k])
      {
        MergedClean(t.fields[k], s.fields[k]);
      }
    }
  }

  lemma {:induction false} MergedWithSelf(n: Node)
    ensures Merged(n, n) == Clean(n)
  {
    if n.Obj? {
      forall k | k in n.fields ensures Merged(n.fields[k], n.fields[k]) == Clean(n.fields[k]) {
        MergedWithSelf(n.fields[k]);
      }
    }
  }

  // ---------------------------------------------------------------------------
  // Lookups
  // ---------------------------------------------------------------------------

  type Path = seq<string>

  predicate Safe(p: Path) { forall i :: 0 <= i < |p| ==> p[i] !in DANGEROUS_KEYS }

  /** What is at the end of a path through objects. */
  function Get(n: Node, p: Path): Option<Node>
    decreases |p|
  {
    if p == [] then Some(n)
    else if n.Obj? && p[0] in n.fields then Get(n.fields[p[0]], p[1..])
    else None
  }

  /** Something that is no object ends every path at `p`. */
  predicate LeafAt(n: Node, p: Path) { Get(n, p).Some? && !Get(n, p).value.Obj? }

  predicate LeafBefore(n: Node, p: Path) { exists i :: 0 <= i < |p| && LeafAt(n, p[..i]) }

  function CleanOption(n: Option<Node>): Option<Node> {
    if n.Some? then Some(Clean(n.value)) else None
  }

  lemma {:induction false} GetClean(n: Node, p: Path)
    ensures Get(Clean(n), p) == if Safe(p) then CleanOption(Get(n, p)) else None
    decreases |p|
  {
    if p != [] && n.Obj? && p[0] in n.fields {
      GetClean(n.fields[p[0]], p[1..]);
      assert Safe(p) <==> p[0] !in DANGEROUS_KEYS && Safe(p[1..]) by { SafeStep(p); }
    }
    if p == [] { assert Safe(p); }
  }

  lemma SafeStep(p: Path)
    requires p != []
    ensures Safe(p) <==> p[0] !in DANGEROUS_KEYS && Safe(p[1..])
  {
    if p[0] !in DANGEROUS_KEYS && Safe(p[1..]) {
      forall i | 0 <= i < |p| ensures p[i] !in DANGEROUS_KEYS {
        if i > 0 { assert p[i] == p[1..][i - 1]; }
      }
    }
  }

  /** No dangerous key survives, at any depth of objects. */
  lemma {:induction false} NothingDangerous(t: Node, s: Node, p: Path)
    requires !Safe(p)
    ensures Get(Merged(t, s), p) == None
    decreases |p|
  {
    SafeStep(p);
    if !(t.Obj? && s.Obj?) {
      GetClean(s, p);
    } else if p[0] in Merged(t, s).fields {
      var k := p[0];
      if k !in s.fields { GetClean(t.fields[k], p[1..]); }
      else if k !in t.fields { GetClean(s.fields[k], p[1..]); }
      else { NothingDangerous(t.fields[k], s.fields[k], p[1..]); }
    }
  }

  predicate IsDangerous(key: string) { key == "__proto__" || key == "constructor" || key == "prototype" }

  /** These three keys and no others, wherever they stand in a path. */
  lemma DangerousKeys(t: Node, s: Node, p: Path)
    ensures Safe(p) <==> forall i :: 0 <= i < |p| ==> !IsDangerous(p[i])
    ensures (exists i :: 0 <= i < |p| && IsDangerous(p[i])) ==> Get(Merged(t, s), p) == None
  {
    if !Safe(p) {
      NothingDangerous(t, s, p);
      var i :| 0 <= i < |p| && p[i] in DANGEROUS_KEYS;
      assert IsDangerous(p[i]);
    }
  }

  lemma LeafBeforeStep(n: Node, p: Path)
    requires p != [] && n.Obj?
    ensures LeafBefore(n, p) <==> p[0] in n.fields && LeafBefore(n.fields[p[0]], p[1..])
  {
    var tail := p[1..];
    if LeafBefore(n, p) {
      var i :| 0 <= i < |p| && LeafAt(n, p[..i]);
      assert i > 0;
      assert p[..i][0] == p[0] && p[..i][1..] == tail[..i - 1];
      assert LeafAt(n.fields[p[0]], tail[..i - 1]);
    }
    if p[0] in n.fields && LeafBefore(n.fields[p[0]], tail) {
      var i :| 0 <= i < |tail| && LeafAt(n.fields[p[0]], tail[..i]);
      assert p[..i + 1][0] == p[0] && p[..i + 1][1..] == tail[..i];
      assert LeafAt(n, p[..i + 1]);
    }
  }

  lemma NoLeafBefore(n: Node, p: Path)
    requires Get(n, p).Some?
    ensures !LeafBefore(n, p)
    decreases |p|
  {
    if p != [] {
      NoLeafBefore(n.fields[p[0]], p[1..]);
      LeafBeforeStep(n, p);
    }
  }

  /** What a merge holds at `p`, from what its two sides hold there. */
  function Expected(t: Node, s: Node, p: Path): Option<Node> {
    match Get(s, p)
    case Some(v) => Some(if Get(t, p).Some? then Merged(Get(t, p).value, v) else Clean(v))
    case None => if LeafBefore(s, p) then None else CleanOption(Get(t, p))
  }

  /**
    The merge law: along every safe path the source's value wins, two objects merge, and where
    the source says nothing the target's value stays, unless a source leaf covers the path.
   */
  lemma {:induction false} MergeLaw(t: Node, s: Node, p: Path)
    requires Safe(p)
    ensures Get(Merged(t, s), p) == Expected(t, s, p)
    decreases |p|
  {
    if p == [] {
    } else if t.Obj? && s.Obj? {
      SafeStep(p);
      var k, tail := p[0], p[1..];
      LeafBeforeStep(s, p);
      if k in s.fields && k in t.fields {
        MergeLaw(t.fields[k], s.fields[k], tail);
      } else if k in s.fields {
        GetClean(s.fields[k], tail);
      } else if k in t.fields {
        GetClean(t.fields[k], tail);
      }
    } else {
      GetClean(s, p);
      if !s.Obj? { assert LeafAt(s, p[..0]); }
    }
  }

  // ---------------------------------------------------------------------------
  // Layers
  // ---------------------------------------------------------------------------

  /** The valid layers merged one after the other onto `base`. */
  function Layered(base: Node, layers: seq<Node>): Node {
    if layers == [] then base
    else
      var below := Layered(base, layers[..|layers| - 1]);
      var layer := layers[|layers| - 1];
      if IsValidTranslations(layer) then Merged(below, layer) else below
  }

  lemma {:induction false} LayeredIsValid(base: Node, layers: seq<Node>)
    requires IsValidTranslations(base)
    ensures IsValidTranslations(Layered(base, layers))
  {
    if layers != [] { LayeredIsValid(base, layers[..|layers| - 1]); }
  }

  /**
    Contributions first, the user's own translations last. Contributions of the wrong shape are
    skipped; the user's are merged as they come, and a language without a value throws.
   */
  method MergeContributedTranslations(translations: Node, contributions: seq<Node>, user: Option<Node>)
    returns (merged: Result<Node, Error>)
    requires IsValidTranslations(translations) && user != Some(Nothing)
    ensures merged ==
      if user.Some? && HasNothing(user.value) then Failure(TypeError)
      else Success(Layered(translations, contributions + if user.Some? then [Shaped(user.value)] else []))
  {
    hide Shaped, Merged, Entries;
    var layered := translations;
    assert contributions[..0] == [];
    for i := 0 to |contributions|
      invariant layered == Layered(translations, contributions[..i]) && IsValidTranslations(layered)
    {
      var contributed := contributions[i];
      assert contributions[..i + 1][..i] == contributions[..i];
      if !IsValidTranslations(contributed) { continue; }
      ShapedIsValid(contributed);
      ValidHasNoNothing(contributed);
      var next := DeepMerge(layered, contributed);
      layered := next.value;
    }
    assert contributions[..|contributions|] == contributions;
    if user.Some? {
      assert (contributions + [Shaped(user.value)])[..|contributions|] == contributions;
      ShapedIsValid(user.value);
      merged := DeepMerge(layered, user.value);
    } else {
      assert contributions + [] == contributions;
      merged := Success(layered);
    }
  }

  /** A user's translations with a null language: the method above throws on them, whatever came before. */
  lemma NullLanguageThrows()
    ensures exists user :: user != Nothing && HasNothing(user)
  {
    var user := Obj(map["en" := Nothing]);
    assert "en" in Entries(user) && "en" !in DANGEROUS_KEYS && Entries(user)["en"] == Nothing;
    assert HasNothing(user);
  }

  lemma ValidHasNoNothing(t: Node)
    requires IsValidTranslations(t)
    ensures t != Nothing && !HasNothing(t)
  {}

  /** Contributions of the wrong shape are as if they had not been made. */
  lemma {:induction false} InvalidIsSkipped(base: Node, a: seq<Node>, x: Node, b: seq<Node>)
    requires !x.Obj? || exists lang :: lang in x.fields && !x.fields[lang].Obj?
    ensures Layered(base, a + [x] + b) == Layered(base, a + b)
    decreases |b|
  {
    if b == [] {
      assert (a + [x] + b)[..|a|] == a && a + b == a;
    } else {
      var n := |b| - 1;
      assert (a + [x] + b)[..|a| + 1 + n] == a + [x] + b[..n] && (a + b)[..|a| + n] == a + b[..n];
      InvalidIsSkipped(base, a, x, b[..n]);
    }
  }

  /** Nothing at `p`, neither there nor on the way. */
  predicate Silent(n: Node, p: Path) { Get(n, p).None? && !LeafBefore(n, p) }

  /** The last layer that says anything at a path decides it, whatever the layers below hold. */
  lemma {:induction false} LastLayerWins(base: Node, layers: seq<Node>, i: nat, p: Path)
    requires i < |layers| && IsValidTranslations(layers[i]) && LeafAt(layers[i], p) && Safe(p)
    requires forall j :: i < j < |layers| && IsValidTranslations(layers[j]) ==> Silent(layers[j], p)
    ensures Get(Layered(base, layers), p) == Get(layers[i], p)
  {
    var n := |layers| - 1;
    var below := Layered(base, layers[..n]);
    if i == n {
      MergeLaw(below, layers[n], p);
    } else {
      LastLayerWins(base, layers[..n], i, p);
      if IsValidTranslations(layers[n]) { MergeLaw(below, layers[n], p); }
    }
  }

  // ---------------------------------------------------------------------------
  // Grouping
  // ---------------------------------------------------------------------------

  lemma {:induction false} CleanMerged(t: Node, s: Node)
    ensures Clean(Merged(t, s)) == Merged(t, s)
    decreases s
  {
    CleanClean(s);
    if t.Obj? && s.Obj? {
      forall k | k in Merged(t, s).fields ensures Clean(Merged(t, s).fields[k]) == Merged(t, s).fields[k] {
        if k !in s.fields { CleanClean(t.fields[k]); }
        else if k in t.fields { CleanMerged(t.fields[k], s.fields[k]); }
        else { CleanClean(s.fields[k]); }
      }
    }
  }

  /** Cleaning the source first changes nothing. */
  lemma {:induction false} MergedWithClean(t: Node, s: Node)
    ensures Merged(t, Clean(s)) == Merged(t, s)
    decreases s
  {
    CleanClean(s);
    if t.Obj? && s.Obj? {
      forall k | k in s.fields ensures Clean(Clean(s.fields[k])) == Clean(s.fields[k]) { CleanClean(s.fields[k]); }
      forall k | k in t.fields && k in s.fields
        ensures Merged(t.fields[k], Clean(s.fields[k])) == Merged(t.fields[k], s.fields[k])
      {
        MergedWithClean(t.fields[k], s.fields[k]);
      }
    }
  }

  predicate ObjAt(n: Node, p: Path) { Get(n, p).Some? && Get(n, p).value.Obj? }

  /** `t` holds something along a safe path where `s` says nothing. */
  predicate Adds(t: Node, s: Node, q: Path) { Safe(q) && Get(t, q).Some? && Silent(s, q) }

  lemma GetBelow(n: Node, k: string, p: Path)
    requires n.Obj? && k in n.fields
    ensures Get(n, [k] + p) == Get(n.fields[k], p)
    ensures LeafBefore(n, [k] + p) <==> LeafBefore(n.fields[k], p)
    ensures Safe([k] + p) <==> k !in DANGEROUS_KEYS && Safe(p)
  {
    assert ([k] + p)[0] == k && ([k] + p)[1..] == p;
    LeafBeforeStep(n, [k] + p);
    SafeStep([k] + p);
  }

  lemma AddsBelow(t: Node, s: Node, k: string, q: Path)
    requires t.Obj? && s.Obj? && k in t.fields && k in s.fields && k !in DANGEROUS_KEYS
    requires Adds(t.fields[k], s.fields[k], q)
    ensures Adds(t, s, [k] + q)
  {
    GetBelow(t, k, q);
    GetBelow(s, k, q);
  }

  lemma AddsField(t: Node, s: Node, k: string)
    requires t.Obj? && s.Obj? && k in t.fields && k !in s.fields && k !in DANGEROUS_KEYS
    ensures Adds(t, s, [k])
  {
    assert [k][1..] == [] && [k][..0] == [];
    LeafBeforeStep(s, [k]);
  }

  lemma {:induction false} NothingAdded(t: Node, s: Node)
    requires t.Obj? && s.Obj? && forall q :: !Adds(t, s, q)
    ensures Merged(t, s) == Clean(s)
    decreases s
  {
    hide Adds;
    forall k | k in t.fields && k !in DANGEROUS_KEYS
      ensures k in s.fields && Merged(t.fields[k], s.fields[k]) == Clean(s.fields[k])
    {
      if k !in s.fields { AddsField(t, s, k); }
      if t.fields[k].Obj? && s.fields[k].Obj? {
        forall q ensures !Adds(t.fields[k], s.fields[k], q) {
          if Adds(t.fields[k], s.fields[k], q) { AddsBelow(t, s, k, q); }
        }
        NothingAdded(t.fields[k], s.fields[k]);
      }
    }
  }

  /** Merging onto `t` differs from cleaning exactly when `t` holds something where `s` is silent. */
  lemma MergedAdds(t: Node, s: Node)
    requires t.Obj? && s.Obj?
    ensures Merged(t, s) != Clean(s) <==> exists q :: Adds(t, s, q)
  {
    if q :| Adds(t, s, q) {
      MergeLaw(t, s, q);
      GetClean(s, q);
    } else {
      NothingAdded(t, s);
    }
  }

  /**
    A leaf of the middle layer at `p`, between two objects, of which the lower holds something
    at `q` below where the upper is silent: merged first, the leaf hides it.
   */
  predicate Hides(a: Node, b: Node, c: Node, p: Path, q: Path) {
    && Safe(p) && ObjAt(a, p) && LeafAt(b, p) && ObjAt(c, p)
    && Adds(Get(a, p).value, Get(c, p).value, q)
  }

  lemma HidesBelow(a: Node, b: Node, c: Node, k: string, p: Path, q: Path)
    requires a.Obj? && b.Obj? && c.Obj? && k !in DANGEROUS_KEYS
    requires k in a.fields && k in b.fields && k in c.fields
    requires Hides(a.fields[k], b.fields[k], c.fields[k], p, q)
    ensures Hides(a, b, c, [k] + p, q)
  {
    hide Adds;
    GetBelow(a, k, p);
    GetBelow(b, k, p);
    GetBelow(c, k, p);
  }

  /** Three layers, the lower two merged first or the upper two. */
  function Left(a: Node, b: Node, c: Node): Node { Merged(Merged(a, b), c) }

  function Right(a: Node, b: Node, c: Node): Node { Merged(a, Merged(b, c)) }

  lemma GroupsWithoutObjects(a: Node, b: Node, c: Node)
    requires !(a.Obj? && c.Obj?)
    ensures Left(a, b, c) == Right(a, b, c)
  {
    CleanMerged(b, c);
    CleanClean(c);
    MergedClean(b, c);
  }

  lemma GroupsAroundLeaf(a: Node, b: Node, c: Node)
    requires a.Obj? && c.Obj? && !b.Obj?
    ensures Left(a, b, c) == Clean(c) && Right(a, b, c) == Merged(a, c)
  {
    MergedWithClean(a, c);
  }

  /** Of objects, the fields of either grouping are the groupings of the fields. */
  lemma GroupsByField(a: Node, b: Node, c: Node)
    requires a.Obj? && b.Obj? && c.Obj?
    requires forall k :: k in a.fields && k in b.fields && k in c.fields && k !in DANGEROUS_KEYS ==>
      Left(a.fields[k], b.fields[k], c.fields[k]) == Right(a.fields[k], b.fields[k], c.fields[k])
    ensures Left(a, b, c) == Right(a, b, c)
  {
    var x, y := Left(a, b, c), Right(a, b, c);
    assert x.fields.Keys == y.fields.Keys;
    forall k | k in x.fields ensures x.fields[k] == y.fields[k] { FieldOfGroup(a, b, c, k); }
  }

  lemma FieldOfGroup(a: Node, b: Node, c: Node, k: string)
    requires a.Obj? && b.Obj? && c.Obj? && k in Left(a, b, c).fields && k in Right(a, b, c).fields
    requires k in a.fields && k in b.fields && k in c.fields ==>
      Left(a.fields[k], b.fields[k], c.fields[k]) == Right(a.fields[k], b.fields[k], c.fields[k])
    ensures Left(a, b, c).fields[k] == Right(a, b, c).fields[k]
  {
    hide Clean;
    if k in a.fields {
      CleanClean(a.fields[k]);
      if k in c.fields { MergedClean(a.fields[k], c.fields[k]); MergedWithClean(a.fields[k], c.fields[k]); }
      if k in b.fields { CleanMerged(a.fields[k], b.fields[k]); MergedWithClean(a.fields[k], b.fields[k]); }
    } else {
      if k in b.fields { CleanClean(b.fields[k]); }
      if k in c.fields { CleanClean(c.fields[k]); }
      if k in b.fields && k in c.fields {
        MergedClean(b.fields[k], c.fields[k]);
        CleanMerged(b.fields[k], c.fields[k]);
      }
    }
  }

  lemma {:induction false} NothingHidden(a: Node, b: Node, c: Node)
    requires forall p, q :: !Hides(a, b, c, p, q)
    ensures Left(a, b, c) == Right(a, b, c)
    decreases c
  {
    hide Hides, Left, Right;
    if !(a.Obj? && c.Obj?) {
      GroupsWithoutObjects(a, b, c);
    } else if !b.Obj? {
      GroupsAroundLeaf(a, b, c);
      forall q ensures !Adds(a, c, q) { if Adds(a, c, q) { HidesHere(a, b, c, q); } }
      NothingAdded(a, c);
    } else {
      forall k | k in a.fields && k in b.fields && k in c.fields && k !in DANGEROUS_KEYS
        ensures Left(a.fields[k], b.fields[k], c.fields[k]) == Right(a.fields[k], b.fields[k], c.fields[k])
      {
        forall p, q ensures !Hides(a.fields[k], b.fields[k], c.fields[k], p, q) {
          if Hides(a.fields[k], b.fields[k], c.fields[k], p, q) { HidesBelow(a, b, c, k, p, q); }
        }
        NothingHidden(a.fields[k], b.fields[k], c.fields[k]);
      }
      GroupsByField(a, b, c);
    }
  }

  lemma HidesHere(a: Node, b: Node, c: Node, q: Path)
    requires a.Obj? && !b.Obj? && c.Obj? && Adds(a, c, q)
    ensures Hides(a, b, c, [], q)
  {}

  /**
    Merging is associative but for what a leaf in the middle hides: the two groupings differ if
    and only if somewhere a leaf of `b` stands between an object of `a` and one of `c`, and the
    object of `a` holds something where that of `c` is silent.
   */
  lemma GroupingMatters(a: Node, b: Node, c: Node)
    ensures Merged(Merged(a, b), c) != Merged(a, Merged(b, c)) <==> exists p, q :: Hides(a, b, c, p, q)
  {
    if p, q :| Hides(a, b, c, p, q) {
      var a', b', c' := Get(a, p).value, Get(b, p).value, Get(c, p).value;
      MergeLaw(a, b, p);
      MergeLaw(Merged(a, b), c, p);
      MergeLaw(b, c, p);
      MergeLaw(a, Merged(b, c), p);
      GroupsAroundLeaf(a', b', c');
      MergedAdds(a', c');
    } else {
      NothingHidden(a, b, c);
    }
  }

  /** It happens: a text between a menu and an empty menu. */
  lemma HidingHappens()
    ensures Hides(Obj(map["x" := Obj(map["y" := Text("deep")])]), Obj(map["x" := Text("leaf")]),
                  Obj(map["x" := Obj(map[])]), ["x"], ["y"])
  {
    assert ["x"][1..] == [] && ["y"][1..] == [] && ["y"][..0] == [];
    var low := Obj(map["y" := Text("deep")]);
    assert Get(low, ["y"]) == Get(low.fields["y"], []);
    assert Adds(low, Obj(map[]), ["y"]);
  }
}
