/** Which texts have a key, told by how they are written, and whose text decides the client's key. */
module AddressChoice {
  import opened Base
  import opened Text
  import opened ClientAddress
  import opened AddressMeaning

  // ---------------------------------------------------------------------------
  // Texts of groups
  // ---------------------------------------------------------------------------

  predicate ColonsAt(s: string, i: nat) { i + 1 < |s| && s[i] == ':' && s[i + 1] == ':' }

  /** A field between colons: at most four lower-case hexadecimal digits, or none. */
  predicate IsField(f: string) { |f| <= 4 && forall c :: c in f ==> '0' <= c <= '9' || 'a' <= c <= 'f' }

  /** Fields between colons, at most eight of them not empty, and at most one place with two colons in a row. */
  ghost predicate IsGrouped(s: string) {
    var fields := Split(s, ':');
    && ':' in s && |NonEmpty(fields)| <= 8
    && (forall i :: 0 <= i < |fields| ==> IsField(fields[i]))
    && forall i, j :: 0 <= i < j ==> !(ColonsAt(s, i) && ColonsAt(s, j))
  }

  lemma {:induction false} NoColons(s: string)
    ensures CutRun(s).None? <==> forall i :: 0 <= i ==> !ColonsAt(s, i)
  {
    if |s| >= 2 {
      NoColons(s[1..]);
      if s[..2] == "::" {
        assert s[0] == s[..2][0] && s[1] == s[..2][1];
        assert ColonsAt(s, 0);
      } else {
        assert s[..2] == [s[0], s[1]];
        if CutRun(s[1..]).None? {
          forall i | 0 <= i ensures !ColonsAt(s, i) { if i > 0 { assert !ColonsAt(s[1..], i - 1); } }
        } else {
          var i :| 0 <= i && ColonsAt(s[1..], i);
          assert ColonsAt(s, i + 1);
        }
      }
    }
  }

  /** Behind the first `::` there is no other, not even one that overlaps it. */
  lemma OneRun(s: string, left: string, right: string)
    requires s == left + "::" + right && CutRun(left).None? && (left != "" ==> left[|left| - 1] != ':')
    ensures (forall i, j :: 0 <= i < j ==> !(ColonsAt(s, i) && ColonsAt(s, j)))
      <==> CutRun(right).None? && !(right != "" && right[0] == ':')
  {
    hide CutRun;
    var n := |left|;
    NoColons(left);
    NoColons(right);
    assert s[n] == ':' && s[n + 1] == ':' && ColonsAt(s, n);
    forall i | 0 <= i < n ensures !ColonsAt(s, i) { assert !ColonsAt(left, i); }
    forall i | n + 2 <= i ensures ColonsAt(s, i) <==> ColonsAt(right, i - n - 2) {}
    if right != "" && right[0] == ':' { assert ColonsAt(s, n + 1); }
    if i :| 0 <= i && ColonsAt(right, i) { assert ColonsAt(s, i + n + 2); }
  }

  lemma FieldsAreHex(s: string)
    requires ':' in s
    ensures (forall i :: 0 <= i < |Split(s, ':')| ==> IsField(Split(s, ':')[i]))
      <==> HexOrColon(s) && ShortFields(Split(s, ':'))
  {
    hide Split;
    FieldChars(s);
    var fields := Split(s, ':');
    forall i | 0 <= i < |fields| ensures IsField(fields[i]) <==> |fields[i]| <= 4 && AllHex(fields[i]) {}
  }

  lemma {:induction false} ShortNonEmpty(parts: seq<string>)
    ensures ShortFields(NonEmpty(parts)) <==> ShortFields(parts)
  {
    if parts != [] {
      var rest, more := parts[1..], NonEmpty(parts[1..]);
      ShortNonEmpty(rest);
      ShortCons(parts[0], rest);
      assert parts == [parts[0]] + rest;
      if parts[0] == "" { assert NonEmpty(parts) == more; } else { ShortCons(parts[0], more); }
    }
  }

  lemma ShortCons(p: string, rest: seq<string>)
    ensures ShortFields([p] + rest) <==> |p| <= 4 && ShortFields(rest)
  {
    var all := [p] + rest;
    assert all[0] == p && forall i :: 0 <= i < |rest| ==> all[i + 1] == rest[i];
    if ShortFields(all) { forall i | 0 <= i < |rest| ensures |rest[i]| <= 4 { assert |all[i + 1]| <= 4; } }
  }

  /** Replacing the `::` by one colon leaves the same groups. */
  lemma SameGroups(left: string, right: string)
    ensures NonEmpty(Split(left + "::" + right, ':')) == NonEmpty(Split(left + ":" + right, ':'))
  {
    hide Split, NonEmpty;
    var a, b := Split(left, ':'), Split(right, ':');
    assert left + "::" + right == left + [':'] + (":" + right);
    assert ":" + right == "" + [':'] + right;
    SplitConcat(left, ':', ":" + right);
    SplitConcat("", ':', right);
    SplitConcat(left, ':', right);
    SplitFree("", ':');
    NonEmptyConcat(a, [""] + b);
    NonEmptyConcat([""], b);
    NonEmptyConcat(a, b);
    NothingNonEmpty();
  }

  lemma NothingNonEmpty()
    ensures NonEmpty([""]) == []
  {}

  /** The texts of groups that the code accepts, whether or not they denote an address. */
  lemma GroupTexts(s: string)
    ensures IsIpv6Text(s) <==> IsGrouped(s)
  {
    hide Split, Contains, Runs, CutRun, IsField, HexOrColon, NonEmpty, ReplaceRun, ShortFields;
    CutRunParts(s);
    TripleAfterCut(s);
    if ':' in s {
      FieldsAreHex(s);
      ShortNonEmpty(Split(s, ':'));
      TextOfGroups(s);
      if CutRun(s).None? {
        NoColons(s);
      } else {
        var left, right := CutRun(s).value.0, CutRun(s).value.1;
        SameGroups(left, right);
        CutRunParts(right);
        OneRun(s, left, right);
        NoRunAfter(right);
      }
    }
  }

  lemma TextOfGroups(s: string)
    ensures (forall i :: 0 <= i < |Groups(s)| ==> |Groups(s)[i]| <= 4) <==> ShortFields(Groups(s))
  {
    hide Groups;
  }

  lemma NoRunAfter(right: string)
    ensures CutRun(right).Some? ==> Runs(right) >= 1
  {
    hide CutRun, Runs;
    CutRunParts(right);
  }

  // ---------------------------------------------------------------------------
  // Keys
  // ---------------------------------------------------------------------------

  /** A text of groups, or the dotted mapped form, in any case. */
  ghost predicate Ipv6Form(v: string, key: string) {
    || (exists octets :: Octets(octets) && Lower(v) == "::ffff:" + Dotted(octets) && key == Dotted(octets))
    || (IsGrouped(Lower(v)) && key == Lower(v))
  }

  ghost predicate Bracketed(v: string, inner: string, rest: string) {
    v == "[" + inner + "]" + rest && ']' !in inner
  }

  /** The forms that have a key: four octets, the IPv6 forms, and these in brackets with anything behind. */
  ghost predicate Form(v: string, key: string) {
    || (exists octets :: Octets(octets) && v == Dotted(octets) && key == v)
    || Ipv6Form(v, key)
    || exists inner, rest :: Bracketed(v, inner, rest) && Ipv6Form(inner, key)
  }

  predicate Tight(v: string) { v != "" && !IsSpace(v[0]) && !IsSpace(v[|v| - 1]) }

  ghost predicate Padded(raw: string, before: string, v: string, after: string) {
    raw == before + v + after && Blank(before) && Blank(after) && Tight(v)
  }

  /** Such a text of at most 45 characters, with blanks around it. */
  ghost predicate HasKey(raw: string, key: string) {
    exists before, v, after :: Padded(raw, before, v, after) && |v| <= 45 && Form(v, key)
  }

  lemma Ipv6Keyed(v: string, key: string)
    ensures Ipv6Of(v) == Some(key) <==> Ipv6Form(v, key)
  {
    hide IsIpv6Text, Ipv4Of, IsGrouped, Lower, Dotted, IsDottedQuad;
    var s := Lower(v);
    GroupTexts(s);
    if IsMapped(s) {
      var quad := s[|MAPPED|..];
      assert s == MAPPED + quad;
      Ipv4Texts(quad);
      MappedHasDot(s);
      assert !IsIpv6Text(s) by { if IsIpv6Text(s) { TextHasNoDot(s); } }
      if Ipv4Of(quad).Some? {
        Ipv4IsQuad(quad);
        var octets :| Octets(octets) && quad == Dotted(octets);
      }
      if octets :| Octets(octets) && s == "::ffff:" + Dotted(octets) && key == Dotted(octets) {
        assert s[|MAPPED|..] == Dotted(octets);
        Ipv4IsQuad(quad);
      }
    } else if octets :| Octets(octets) && s == "::ffff:" + Dotted(octets) {
      MappedOctets(octets);
    }
  }

  lemma MappedOctets(octets: seq<nat>)
    requires Octets(octets)
    ensures IsMapped("::ffff:" + Dotted(octets))
  {
    hide Dotted, IsDottedQuad;
    DottedIsAccepted(octets);
    assert ("::ffff:" + Dotted(octets))[|MAPPED|..] == Dotted(octets);
  }

  /** Of the three forms only the IPv6 ones hold a colon, and of these only the mapped one a dot. */
  lemma FormChars(v: string, key: string)
    ensures (exists octets :: Octets(octets) && v == Dotted(octets) && key == v) ==>
      v != "" && v[0] != '[' && ':' !in v && '.' in v && Ipv4Of(v) == Some(v)
    ensures Ipv6Form(v, key) ==>
      v != "" && v[0] != '[' && ':' in v && ('.' in v ==> StartsWith(Lower(v), MAPPED))
  {
    hide IsIpv6Text, Ipv4Of, IsGrouped, Dotted, IsDottedQuad;
    if octets :| Octets(octets) && v == Dotted(octets) && key == v {
      DottedIsAccepted(octets);
      DottedChars(v);
      assert v[0] in v;
    }
    if Ipv6Form(v, key) {
      Ipv6Keyed(v, key);
      Ipv6Chars(v);
    }
  }

  lemma Ipv6Chars(v: string)
    requires Ipv6Of(v).Some?
    ensures v != "" && v[0] != '[' && ':' in v && ('.' in v ==> StartsWith(Lower(v), MAPPED))
  {
    hide IsIpv6Text, Ipv4Of, IsDottedQuad;
    var s := Lower(v);
    if IsMapped(s) {
      assert s[0] == ':' && v[0] == ':';
    } else {
      TextChars(s);
      LowerKeeps(v, '.');
      LowerKeeps(v, ':');
      assert s[0] in s;
    }
  }

  lemma LowerKeeps(v: string, c: char)
    requires c == '.' || c == ':'
    ensures c in v <==> c in Lower(v)
  {
    if c in v { var i :| 0 <= i < |v| && v[i] == c; assert Lower(v)[i] == c; }
    if c in Lower(v) { var i :| 0 <= i < |v| && Lower(v)[i] == c; assert v[i] == c; }
  }

  lemma TextChars(s: string)
    requires IsIpv6Text(s)
    ensures s != "" && ':' in s && forall c :: c in s ==> IsHex(c) || c == ':'
  {
    hide Contains, Runs, Groups;
  }

  lemma InBrackets(v: string, key: string)
    requires v != "" && v[0] == '['
    ensures (']' in v && Ipv6Of(UpTo(v, ']')[1..]) == Some(key))
      <==> exists inner, rest :: Bracketed(v, inner, rest) && Ipv6Form(inner, key)
  {
    hide Ipv6Of, Ipv6Form, UpTo;
    if ']' in v {
      var u := UpTo(v, ']');
      var inner, rest := u[1..], v[|u| + 1..];
      assert u == v[..|u|] && u != "" && u[0] == '[';
      assert v == "[" + inner + "]" + rest && Bracketed(v, inner, rest);
      Ipv6Keyed(inner, key);
    }
    if inner, rest :| Bracketed(v, inner, rest) && Ipv6Form(inner, key) {
      UpToFirst("[" + inner, ']', rest);
      assert ("[" + inner)[1..] == inner;
      Ipv6Keyed(inner, key);
    }
  }

  lemma KeyOfTight(raw: string, key: string)
    requires Tight(Trim(raw))
    ensures AddressOf(Some(raw)) == Some(key) <==> |Trim(raw)| <= 45 && Form(Trim(raw), key)
  {
    hide Trim, Ipv6Of, Ipv4Of, Ipv6Form, Dotted, UpTo, Lower;
    var v := Trim(raw);
    FormChars(v, key);
    Ipv6Keyed(v, key);
    Ipv4Texts(v);
    if Ipv4Of(v).Some? { Ipv4IsQuad(v); }
    if v[0] == '[' {
      InBrackets(v, key);
    } else {
      assert !exists inner, rest :: Bracketed(v, inner, rest) && Ipv6Form(inner, key);
    }
  }

  /** Which texts have which key. */
  lemma KeyTexts(raw: string, key: string)
    ensures AddressOf(Some(raw)) == Some(key) <==> HasKey(raw, key)
  {
    hide AddressOf, Form, Trim, Tight;
    TrimOfBlank(raw);
    if Trim(raw) == "" {
      NoKeyOfBlank(raw, key);
    } else {
      TrimIsTight(raw);
      KeyOfTight(raw, key);
      var before, after := TrimPads(raw);
      assert Padded(raw, before, Trim(raw), after);
      if b, v, a :| Padded(raw, b, v, a) && |v| <= 45 && Form(v, key) {
        PaddedIsTrim(raw, b, v, a);
      }
    }
  }

  lemma PaddedIsTrim(raw: string, before: string, v: string, after: string)
    requires Padded(raw, before, v, after)
    ensures Trim(raw) == v
  {
    TrimPadded(before, v, after);
  }

  lemma TrimIsTight(raw: string)
    requires Trim(raw) != ""
    ensures Tight(Trim(raw))
  {
    TrimOfBlank(raw);
  }

  lemma NoKeyOfBlank(raw: string, key: string)
    requires Trim(raw) == ""
    ensures AddressOf(Some(raw)) != Some(key) && !HasKey(raw, key)
  {
    hide Form, Trim;
    if b, v, a :| Padded(raw, b, v, a) && |v| <= 45 && Form(v, key) { PaddedIsTrim(raw, b, v, a); }
  }

  // ---------------------------------------------------------------------------
  // Whose text decides
  // ---------------------------------------------------------------------------

  /** Without declared proxies the socket peer decides, whatever the headers say. */
  lemma PeerDecides(header: Option<string>, hops: Option<int>, peer: string, key: string)
    requires hops == None || hops == Some(0)
    ensures HasKey(peer, key) <==> Resolve(header, hops, Some(peer)) == Success(key) && key != "unresolved"
    ensures Resolve(header, hops, Some(peer)) == Success("unresolved") <==> !exists k :: HasKey(peer, k)
    ensures Resolve(header, hops, None) == Success("unresolved")
  {
    KeyDecides(peer, key);
    NothingIsNoAddress();
    assert AddressOf(None) == AddressOf(Some(""));
  }

  lemma KeyDecides(raw: string, key: string)
    ensures HasKey(raw, key) <==> AddressOf(Some(raw)) == Some(key)
    ensures AddressOf(Some(raw)).None? <==> !exists k :: HasKey(raw, k)
    ensures AddressOf(Some(raw)) != Some("unresolved")
  {
    hide AddressOf, HasKey;
    KeyTexts(raw, key);
    if AddressOf(Some(raw)).Some? {
      KeyTexts(raw, AddressOf(Some(raw)).value);
      KeysAreFixed(Some(raw));
    }
    if k :| HasKey(raw, k) { KeyTexts(raw, k); }
  }

  lemma ChosenEntry(entries: seq<string>, hops: nat, peer: Option<string>)
    requires 1 <= hops <= |entries| && forall i :: 0 <= i < |entries| ==> ',' !in entries[i]
    ensures Resolve(Some(Join(entries, ",")), Some(hops), peer)
      == Success(AddressOf(Some(entries[|entries| - hops])).UnwrapOr(UNRESOLVED))
  {
    hide AddressOf, Split, Join;
    SplitJoin(entries, ',');
    if Join(entries, ",") == "" {
      SplitFree("", ',');
      NothingIsNoAddress();
    }
  }

  /**
    With `hops` proxies declared, the entry that the first of them wrote decides, counted from the
    end of the chain, whatever the other entries and the peer are.
   */
  lemma EntryDecides(entries: seq<string>, hops: nat, peer: Option<string>, key: string)
    requires 1 <= hops <= |entries| && forall i :: 0 <= i < |entries| ==> ',' !in entries[i]
    ensures var r, chosen := Resolve(Some(Join(entries, ",")), Some(hops), peer), entries[|entries| - hops];
      && (HasKey(chosen, key) <==> r == Success(key) && key != "unresolved")
      && (r == Success("unresolved") <==> !exists k :: HasKey(chosen, k))
  {
    hide AddressOf, HasKey, Resolve, Join;
    ChosenEntry(entries, hops, peer);
    KeyDecides(entries[|entries| - hops], key);
  }

  /** A chain that is missing or too short gives nobody a key; only a negative number of proxies is an error. */
  lemma NobodyDecides(header: Option<string>, hops: int, peer: Option<string>)
    ensures Resolve(header, Some(hops), peer).Failure? <==> hops < 0
    ensures hops >= 1 && (header.None? || |Split(header.value, ',')| < hops) ==>
      Resolve(header, Some(hops), peer) == Success("unresolved")
  {
    hide AddressOf, Split;
  }
}
