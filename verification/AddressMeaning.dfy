/**
  Which addresses the accepted texts denote, by section 2.2 of RFC 4291: eight groups of sixteen
  bits, `::` standing for one or more groups of zeros, and an IPv4 address standing for its
  IPv4-mapped form.
 */
module AddressMeaning {
  import opened Base
  import opened Text
  import opened Numerals
  import opened ClientAddress

  function HexDigit(c: char): nat
    requires IsHex(c)
  {
    if IsDigit(c) then (c - '0') as nat else 10 + (c - 'a') as nat
  }

  predicate AllHex(s: string) { forall c :: c in s ==> IsHex(c) }

  /** The number that lower-case hexadecimal digits write. */
  function Hex(s: string): nat
    requires AllHex(s)
  {
    if s == "" then 0
    else
      assert s[|s| - 1] in s;
      Hex(s[..|s| - 1]) * 16 + HexDigit(s[|s| - 1])
  }

  /** One group: one to four digits. */
  predicate GoodField(f: string) { 1 <= |f| <= 4 && AllHex(f) }

  predicate GoodFields(fields: seq<string>) { forall i :: 0 <= i < |fields| ==> GoodField(fields[i]) }

  function Numbers(fields: seq<string>): seq<nat>
    requires GoodFields(fields)
  {
    seq(|fields|, i requires 0 <= i < |fields| => Hex(fields[i]))
  }

  function Fields(s: string): seq<string> { if s == "" then [] else Split(s, ':') }

  /** What stands before and after the first `::`. */
  function CutRun(s: string): Option<(string, string)> {
    if |s| < 2 then None
    else if s[..2] == "::" then Some(("", s[2..]))
    else match CutRun(s[1..])
      case None => None
      case Some(cut) => Some(([s[0]] + cut.0, cut.1))
  }

  /** The eight groups of a lower-case text of hexadecimal groups. */
  function PlainAddress(s: string): (groups: Option<seq<nat>>)
    ensures groups.Some? ==> |groups.value| == 8
  {
    match CutRun(s)
    case None =>
      if |Split(s, ':')| == 8 && GoodFields(Split(s, ':')) then Some(Numbers(Split(s, ':'))) else None
    case Some(cut) =>
      var left, right := Fields(cut.0), Fields(cut.1);
      if GoodFields(left) && GoodFields(right) && |left| + |right| <= 7
      then Some(Numbers(left) + seq(8 - |left| - |right|, i => 0) + Numbers(right)) else None
  }

  // ---------------------------------------------------------------------------
  // Runs of colons
  // ---------------------------------------------------------------------------

  /** The first `::` is cut out, and there is none before it. */
  ghost predicate FirstRun(s: string, left: string, right: string) {
    && s == left + "::" + right && CutRun(left).None? && (left != "" ==> left[|left| - 1] != ':')
    && Runs(s) == 1 + Runs(right) && ReplaceRun(s) == left + ":" + right
  }

  lemma RunAtHead(s: string)
    requires |s| >= 2 && s[..2] == "::"
    ensures FirstRun(s, "", s[2..])
  {
    assert s == "" + "::" + s[2..] && s[1..] == ":" + s[2..] && "" + ":" + s[2..] == s[1..];
  }

  lemma RunFurtherOn(s: string, left: string, right: string)
    requires |s| >= 2 && s[..2] != "::" && FirstRun(s[1..], left, right)
    ensures FirstRun(s, [s[0]] + left, right)
  {
    hide Runs, ReplaceRun;
    var longer := [s[0]] + left;
    assert s == longer + "::" + right;
    assert longer[1..] == left && s[..2] == [s[0], s[1]];
    assert s[1] == if left == "" then ':' else left[0];
    if left != "" { assert longer[..2] == [s[0], left[0]]; }
    RunsFurtherOn(s);
    assert [s[0]] + (left + ":" + right) == longer + ":" + right;
  }

  lemma RunsFurtherOn(s: string)
    requires |s| >= 2 && s[..2] != "::"
    ensures Runs(s) == Runs(s[1..]) && ReplaceRun(s) == [s[0]] + ReplaceRun(s[1..])
  {}

  lemma {:induction false} CutRunParts(s: string)
    ensures CutRun(s).Some? ==> FirstRun(s, CutRun(s).value.0, CutRun(s).value.1)
    ensures CutRun(s).None? ==> Runs(s) == 0 && ReplaceRun(s) == s
  {
    hide FirstRun, Runs, ReplaceRun;
    if |s| < 2 {
      NoRun(s);
    } else if s[..2] == "::" {
      RunAtHead(s);
    } else {
      CutRunParts(s[1..]);
      RunsFurtherOn(s);
      assert s == [s[0]] + s[1..];
      if CutRun(s).Some? { RunFurtherOn(s, CutRun(s[1..]).value.0, CutRun(s[1..]).value.1); }
    }
  }

  lemma NoRun(s: string)
    requires |s| < 2
    ensures Runs(s) == 0 && ReplaceRun(s) == s
  {}

  /** No three colons in a row, seen from the first two. */
  lemma {:induction false} TripleAfterCut(s: string)
    ensures CutRun(s).None? ==> !Contains(s, ":::")
    ensures CutRun(s).Some? && CutRun(CutRun(s).value.1).None? ==>
      (Contains(s, ":::") <==> CutRun(s).value.1 != "" && CutRun(s).value.1[0] == ':')
  {
    if s != "" {
      TripleAfterCut(s[1..]);
      if ":::" <= s { assert s[..2] == "::" && s[2] == ':'; }
    }
    if |s| >= 2 && s[..2] == "::" {
      if |s| >= 3 && s[2] == ':' { assert ":::" <= s; }
      assert s[1..][1..] == s[2..];
      TripleAfterCut(s[2..]);
      if |s| >= 3 { assert s[1..][..2] == [s[1], s[2]]; }
    }
  }

  // ---------------------------------------------------------------------------
  // Fields
  // ---------------------------------------------------------------------------

  predicate NoneEmpty(parts: seq<string>) { forall i :: 0 <= i < |parts| ==> parts[i] != "" }

  lemma {:induction false} FirstField(s: string)
    ensures Split(s, ':')[0] == "" <==> s == "" || s[0] == ':'
  {}

  /** Without `::`, only the ends can be empty. */
  lemma {:induction false} LaterFields(s: string)
    requires CutRun(s).None?
    ensures NoneEmpty(Split(s, ':')[1..]) <==> s == "" || s[|s| - 1] != ':'
  {
    if s != "" {
      if |s| >= 2 { assert s[..2] == [s[0], s[1]]; }
      LaterFields(s[1..]);
      var rest := Split(s[1..], ':');
      if s[0] == ':' {
        FirstField(s[1..]);
        assert ([""] + rest)[1..] == rest;
        if s[1..] != "" { assert rest[0] != ""; SomeEmpty(rest); }
      } else {
        assert ([[s[0]] + rest[0]] + rest[1..])[1..] == rest[1..];
      }
    }
  }

  lemma SomeEmpty(parts: seq<string>)
    requires parts != [] && parts[0] != ""
    ensures NoneEmpty(parts) <==> NoneEmpty(parts[1..])
  {
    if NoneEmpty(parts[1..]) {
      forall i | 0 <= i < |parts| ensures parts[i] != "" { if i > 0 { assert parts[i] == parts[1..][i - 1]; } }
    }
  }

  /** Neither a colon at its beginning nor one at its end. */
  predicate CleanEnds(s: string) { s != "" && s[0] != ':' && s[|s| - 1] != ':' }

  lemma AllFields(s: string)
    requires CutRun(s).None?
    ensures NoneEmpty(Split(s, ':')) <==> CleanEnds(s)
  {
    FirstField(s);
    LaterFields(s);
    if s != "" && s[0] != ':' { SomeEmpty(Split(s, ':')); }
  }

  /** A `::` inside leaves an empty field. */
  lemma RunLeavesEmpty(s: string)
    requires CutRun(s).Some?
    ensures !NoneEmpty(Split(s, ':'))
  {
    hide CutRun, Runs, ReplaceRun, Split;
    CutRunParts(s);
    var left, right := CutRun(s).value.0, CutRun(s).value.1;
    assert s == left + [':'] + (":" + right);
    SplitConcat(left, ':', ":" + right);
    assert ":" + right == "" + [':'] + right;
    SplitConcat("", ':', right);
    SplitFree("", ':');
    var a, b := Split(left, ':'), Split(right, ':');
    assert (a + ([""] + b))[|a|] == "";
  }

  predicate HexFields(parts: seq<string>) { forall i :: 0 <= i < |parts| ==> AllHex(parts[i]) }

  predicate HexOrColons(s: string) { forall c :: c in s ==> IsHex(c) || c == ':' }

  lemma HexFieldsCons(p: string, rest: seq<string>)
    ensures HexFields([p] + rest) <==> AllHex(p) && HexFields(rest)
  {
    var parts := [p] + rest;
    assert forall i :: 0 <= i < |rest| ==> parts[i + 1] == rest[i];
    if AllHex(p) && HexFields(rest) {
      forall i | 0 <= i < |parts| ensures AllHex(parts[i]) { if i > 0 { assert parts[i] == rest[i - 1]; } }
    }
    if HexFields(parts) {
      assert AllHex(parts[0]);
      forall i | 0 <= i < |rest| ensures AllHex(rest[i]) { assert parts[i + 1] == rest[i]; }
    }
  }

  lemma HexOfCons(c: char, s: string)
    ensures AllHex([c] + s) <==> IsHex(c) && AllHex(s)
    ensures HexOrColons([c] + s) <==> (IsHex(c) || c == ':') && HexOrColons(s)
  {
    assert c in [c] + s;
  }

  lemma {:induction false} FieldChars(s: string)
    ensures HexOrColons(s) <==> HexFields(Split(s, ':'))
  {
    if s != "" {
      hide HexFields, AllHex, HexOrColons, IsHex;
      FieldChars(s[1..]);
      assert s == [s[0]] + s[1..];
      HexOfCons(s[0], s[1..]);
      var rest := Split(s[1..], ':');
      assert rest == [rest[0]] + rest[1..];
      HexFieldsCons(rest[0], rest[1..]);
      if s[0] == ':' {
        HexFieldsCons("", rest);
        assert AllHex("") by { NothingIsHex(); }
      } else {
        HexOfCons(s[0], rest[0]);
        HexFieldsCons([s[0]] + rest[0], rest[1..]);
      }
    }
  }

  lemma NothingIsHex()
    ensures AllHex("")
  {}

  lemma {:induction false} NonEmptyConcat(a: seq<string>, b: seq<string>)
    ensures NonEmpty(a + b) == NonEmpty(a) + NonEmpty(b)
  {
    if a == [] {
      assert a + b == b;
    } else {
      assert (a + b)[1..] == a[1..] + b;
      NonEmptyConcat(a[1..], b);
    }
  }

  lemma {:induction false} NonEmptyOfAll(parts: seq<string>)
    requires NoneEmpty(parts)
    ensures NonEmpty(parts) == parts
  {
    if parts != [] { NonEmptyOfAll(parts[1..]); }
  }

  lemma {:induction false} NonEmptyIsLess(parts: seq<string>)
    ensures |NonEmpty(parts)| <= |parts| && (|NonEmpty(parts)| == |parts| ==> NoneEmpty(parts))
  {
    if parts != [] { NonEmptyIsLess(parts[1..]); }
  }

  /** The non-empty fields of a text with clean ends, or of none. */
  lemma FieldsOf(s: string)
    requires CutRun(s).None? && (s == "" || CleanEnds(s))
    ensures NonEmpty(Split(s, ':')) == Fields(s) && NoneEmpty(Fields(s))
  {
    if s == "" {
      SplitFree("", ':');
    } else {
      AllFields(s);
      NonEmptyOfAll(Split(s, ':'));
    }
  }

  predicate ShortFields(fields: seq<string>) { forall i :: 0 <= i < |fields| ==> |fields[i]| <= 4 }

  /** Good fields are the fields of hexadecimal digits that are neither empty nor too long. */
  lemma FieldsAreGood(s: string)
    requires CutRun(s).None?
    ensures GoodFields(Fields(s)) <==> (s == "" || CleanEnds(s)) && ShortFields(Fields(s)) && HexOrColons(s)
  {
    hide Split, CleanEnds, AllHex, IsHex;
    if s != "" {
      FieldChars(s);
      AllFields(s);
      GoodIsAllThree(Fields(s));
    } else {
      assert HexOrColons("");
    }
  }

  lemma GoodIsAllThree(fields: seq<string>)
    ensures GoodFields(fields) <==> NoneEmpty(fields) && ShortFields(fields) && HexFields(fields)
  {
    hide AllHex;
  }

  // ---------------------------------------------------------------------------
  // Accepted texts and addresses
  // ---------------------------------------------------------------------------

  /** No colon at an end but as part of a `::`. */
  predicate NoLoneColon(s: string) {
    && (s != "" && s[0] == ':' ==> |s| >= 2 && s[1] == ':')
    && (s != "" && s[|s| - 1] == ':' ==> |s| >= 2 && s[|s| - 2] == ':')
  }

  /** Eight groups, or fewer around a `::`, and no colon too many at an end. */
  predicate WellPlaced(s: string) {
    NoLoneColon(s) && if Runs(s) == 0 then |Groups(s)| == 8 else |Groups(s)| <= 7
  }

  lemma AddressWithoutRun(s: string)
    requires CutRun(s).None?
    ensures PlainAddress(s).Some? <==> IsIpv6Text(s) && WellPlaced(s)
  {
    hide Split, Contains, Runs, CutRun, GoodFields, IsHex;
    CutRunParts(s);
    TripleAfterCut(s);
    var parts := Split(s, ':');
    NonEmptyIsLess(parts);
    FieldsAreGood(s);
    SplitFree("", ':');
    if ':' !in s { SplitFree(s, ':'); }
    if s != "" {
      AllFields(s);
      if CleanEnds(s) { NonEmptyOfAll(parts); }
      if |NonEmpty(parts)| == 8 && !CleanEnds(s) { EndsHaveLoneColon(s); }
    }
  }

  /** Without `::`, a colon at an end is a lone one. */
  lemma EndsHaveLoneColon(s: string)
    requires CutRun(s).None? && s != "" && !CleanEnds(s)
    ensures !NoLoneColon(s)
  {
    if |s| >= 2 {
      assert s[..2] == [s[0], s[1]];
      NoRunAtEnd(s);
    }
  }

  lemma {:induction false} NoRunAtEnd(s: string)
    requires CutRun(s).None? && |s| >= 2
    ensures !(s[|s| - 2] == ':' && s[|s| - 1] == ':')
  {
    assert s[..2] == [s[0], s[1]];
    if |s| > 2 { NoRunAtEnd(s[1..]); }
  }

  /** Around a `::`, the ends of both sides are clean exactly when no colon is too many. */
  lemma EndsAroundRun(left: string, right: string)
    requires CutRun(left).None? && CutRun(right).None? && (left != "" ==> left[|left| - 1] != ':')
    ensures NoLoneColon(left + "::" + right) && (right == "" || right[0] != ':') <==>
      (left == "" || CleanEnds(left)) && (right == "" || CleanEnds(right))
  {
    var s := left + "::" + right;
    if |left| >= 2 { assert left[..2] == [left[0], left[1]]; }
    if right != "" {
      assert s[|s| - 1] == right[|right| - 1];
      if |right| >= 2 {
        assert s[|s| - 2] == right[|right| - 2];
        NoRunAtEnd(right);
      } else {
        assert s[|s| - 2] == ':';
      }
    } else {
      assert s[|s| - 1] == ':' && s[|s| - 2] == ':';
    }
    if left != "" { assert s[0] == left[0] && (|left| >= 2 ==> s[1] == left[1]); }
  }

  lemma CharsAroundRun(left: string, right: string)
    ensures HexOrColon(left + "::" + right) <==> HexOrColons(left) && HexOrColons(right)
  {
    hide IsHex;
    var s := left + "::" + right;
    assert forall c :: c in s <==> c in left || c == ':' || c in right;
  }

  lemma AddressAroundRun(s: string)
    requires CutRun(s).Some?
    ensures PlainAddress(s).Some? <==> IsIpv6Text(s) && WellPlaced(s)
  {
    hide Split, Contains, Runs, CutRun, GoodFields, NoLoneColon, HexOrColon, HexOrColons, Fields, CleanEnds;
    var left, right := CutRun(s).value.0, CutRun(s).value.1;
    CutRunParts(s);
    CutRunParts(right);
    TripleAfterCut(s);
    FieldsAreGood(left);
    if CutRun(right).Some? {
      RunIsNotGood(right);
    } else {
      FieldsAreGood(right);
      EndsAroundRun(left, right);
      CharsAroundRun(left, right);
      if (left == "" || CleanEnds(left)) && (right == "" || CleanEnds(right)) { GroupsAroundRun(s, left, right); }
    }
  }

  lemma RunIsNotGood(s: string)
    requires CutRun(s).Some?
    ensures !GoodFields(Fields(s)) && Runs(s) >= 1
  {
    hide Split, AllHex;
    CutRunParts(s);
    RunLeavesEmpty(s);
    GoodIsAllThree(Fields(s));
  }

  /** The groups are the fields of both sides. */
  lemma GroupsAroundRun(s: string, left: string, right: string)
    requires ReplaceRun(s) == left + ":" + right && CutRun(left).None? && CutRun(right).None?
    requires (left == "" || CleanEnds(left)) && (right == "" || CleanEnds(right))
    requires s == left + "::" + right
    ensures Groups(s) == Fields(left) + Fields(right) && ':' in s
    ensures (forall i :: 0 <= i < |Groups(s)| ==> |Groups(s)[i]| <= 4) <==>
      ShortFields(Fields(left)) && ShortFields(Fields(right))
  {
    hide Split, CutRun, CleanEnds, ReplaceRun, Fields;
    assert left + ":" + right == left + [':'] + right;
    SplitConcat(left, ':', right);
    NonEmptyConcat(Split(left, ':'), Split(right, ':'));
    FieldsOf(left);
    FieldsOf(right);
    assert s[|left|] == ':';
    ShortConcat(Fields(left), Fields(right));
  }

  lemma ShortConcat(a: seq<string>, b: seq<string>)
    ensures ShortFields(a + b) <==> ShortFields(a) && ShortFields(b)
  {
    if ShortFields(a + b) {
      assert forall i :: 0 <= i < |a| ==> (a + b)[i] == a[i];
      assert forall i :: 0 <= i < |b| ==> (a + b)[|a| + i] == b[i];
    }
  }

  /**
    Which texts of groups are addresses, exactly: those the code accepts in which the groups are
    eight, or at most seven around a `::`, and no colon stands alone at an end.
   */
  lemma PlainAddresses(s: string)
    ensures PlainAddress(s).Some? <==> IsIpv6Text(s) && WellPlaced(s)
  {
    hide PlainAddress, IsIpv6Text, WellPlaced;
    if CutRun(s).None? { AddressWithoutRun(s); } else { AddressAroundRun(s); }
  }

  lemma {:induction false} JoinLength(parts: seq<string>)
    requires ShortFields(parts)
    ensures |Join(parts, ":")| <= 5 * |parts|
  {
    if |parts| > 1 { JoinLength(parts[1..]); }
  }

  /** A text of groups is bounded, so the code's limit never meets one. */
  lemma PlainLength(s: string)
    requires PlainAddress(s).Some?
    ensures |s| <= 40
  {
    hide Split, Join, CutRun, AllHex;
    CutRunParts(s);
    if CutRun(s).None? {
      JoinSplit(s, ':');
      JoinLength(Split(s, ':'));
    } else {
      FieldsLength(CutRun(s).value.0);
      FieldsLength(CutRun(s).value.1);
    }
  }

  lemma FieldsLength(s: string)
    requires GoodFields(Fields(s))
    ensures |s| <= 5 * |Fields(s)|
  {
    hide Split, Join, AllHex;
    if s != "" {
      JoinSplit(s, ':');
      JoinLength(Split(s, ':'));
    }
  }

  // ---------------------------------------------------------------------------
  // Dotted tails
  // ---------------------------------------------------------------------------

  /** The text up to its last colon and with it, and what follows. */
  function CutLast(s: string): (cut: (string, string))
    ensures s == cut.0 + cut.1 && ':' !in cut.1 && (cut.0 != "" ==> cut.0[|cut.0| - 1] == ':')
  {
    if s == "" || s[|s| - 1] == ':' then (s, "")
    else
      var cut, c := CutLast(s[..|s| - 1]), s[|s| - 1];
      assert s == cut.0 + (cut.1 + [c]);
      (cut.0, cut.1 + [c])
  }

  lemma CutLastIsUnique(head: string, tail: string)
    requires head != "" && head[|head| - 1] == ':' && ':' !in tail
    ensures CutLast(head + tail) == (head, tail)
  {
    hide CutLast;
    var s := head + tail;
    var cut := CutLast(s);
    forall k | |cut.0| <= k < |s| ensures s[k] != ':' { assert s[k] == cut.1[k - |cut.0|] && s[k] in cut.1; }
    forall k | |head| <= k < |s| ensures s[k] != ':' { assert s[k] == tail[k - |head|] && s[k] in tail; }
    assert s[|head| - 1] == ':' && (cut.0 != "" ==> s[|cut.0| - 1] == ':');
    assert s[..|head|] == head && s[|head|..] == tail;
  }

  /** A lower-case text in which a dotted IPv4 address writes the last two groups. */
  function TailedAddress(s: string): Option<seq<nat>> {
    var cut := CutLast(s);
    if !IsDottedQuad(cut.1) || Ipv4Of(cut.1).None? then None
    else match PlainAddress(cut.0 + "0:0")
      case None => None
      case Some(groups) => Some(groups[..6] + LowGroups(OctetsOf(cut.1)))
  }

  /** The eight groups of a lower-case text, in any of the forms. */
  function Ipv6Address(s: string): Option<seq<nat>> {
    if '.' in s then TailedAddress(s) else PlainAddress(s)
  }

  /** The numbers of an accepted dotted text. */
  function OctetsOf(quad: string): (octets: seq<nat>)
    requires IsDottedQuad(quad)
    ensures |octets| == 4
  {
    seq(4, i requires 0 <= i < 4 => Value(Split(quad, '.')[i]))
  }

  function LowGroups(octets: seq<nat>): seq<nat>
    requires |octets| == 4
  {
    [octets[0] * 256 + octets[1], octets[2] * 256 + octets[3]]
  }

  function MappedGroups(octets: seq<nat>): seq<nat>
    requires |octets| == 4
  {
    [0, 0, 0, 0, 0, 0xffff] + LowGroups(octets)
  }

  lemma MappedPrefix()
    ensures PlainAddress("::ffff:0:0") == Some([0, 0, 0, 0, 0, 0xffff, 0, 0])
  {
    hide Hex, GoodField, Split, Join;
    var right := ["ffff", "0", "0"];
    assert "::ffff:0:0"[..2] == "::" && "::ffff:0:0"[2..] == "ffff:0:0";
    assert CutRun("::ffff:0:0") == Some(("", "ffff:0:0"));
    JoinThree(right);
    assert Join(right, ":") == "ffff:0:0";
    SplitJoin(right, ':');
    DigitIsNumber('0', 0);
    AllOnes();
    assert Fields("") == [] && Fields("ffff:0:0") == right && GoodFields([]) && GoodFields(right);
    assert Numbers([]) + seq(8 - 0 - 3, i => 0) + Numbers(right) == [0, 0, 0, 0, 0, 0xffff, 0, 0];
  }

  lemma JoinThree(parts: seq<string>)
    requires |parts| == 3
    ensures Join(parts, ":") == parts[0] + ":" + (parts[1] + ":" + parts[2])
  {
    assert parts[1..][1..] == [parts[2]];
    assert Join(parts[1..], ":") == parts[1] + ":" + parts[2];
  }

  lemma HexSnoc(s: string, c: char)
    requires AllHex(s) && IsHex(c)
    ensures AllHex(s + [c]) && Hex(s + [c]) == Hex(s) * 16 + HexDigit(c)
  {
    assert (s + [c])[..|s|] == s;
  }

  lemma HexOfF(s: string)
    requires AllHex(s)
    ensures AllHex(s + "f") && Hex(s + "f") == Hex(s) * 16 + 15
  {
    assert s + "f" == s + ['f'] && HexDigit('f') == 15;
    HexSnoc(s, 'f');
  }

  lemma AllOnes()
    ensures GoodField("ffff") && Hex("ffff") == 0xffff
  {
    assert Hex("") == 0 && AllHex("");
    hide Hex, AllHex;
    HexOfF("");
    HexOfF("" + "f");
    HexOfF("" + "f" + "f");
    HexOfF("" + "f" + "f" + "f");
    assert "" + "f" + "f" + "f" + "f" == "ffff";
  }

  /** The `::ffff:` spelling of an IPv4 address denotes its mapped form. */
  lemma MappedSpelling(s: string)
    requires IsMapped(s)
    ensures '.' in s && CutLast(s) == (MAPPED, s[|MAPPED|..])
    ensures Ipv6Address(s)
      == if Ipv4Of(s[|MAPPED|..]).Some? then Some(MappedGroups(OctetsOf(s[|MAPPED|..]))) else None
  {
    hide IsDottedQuad, Ipv4Of, PlainAddress, OctetsOf;
    var quad := s[|MAPPED|..];
    DottedChars(quad);
    MappedHasDot(s);
    assert s == MAPPED + quad && MAPPED[6] == ':';
    CutLastIsUnique(MAPPED, quad);
    MappedPrefix();
    assert MAPPED + "0:0" == "::ffff:0:0";
    assert [0, 0, 0, 0, 0, 0xffff, 0, 0][..6] == [0, 0, 0, 0, 0, 0xffff];
  }

  /**
    Which lower-case texts the code accepts as IPv6 addresses and rightly so: well placed groups,
    and the `::ffff:` spelling of four octets.
   */
  lemma AcceptedAddresses(s: string)
    requires Lower(s) == s
    ensures Ipv6Address(s).Some? && Ipv6Of(s).Some? <==>
      (IsIpv6Text(s) && WellPlaced(s)) || (IsMapped(s) && Ipv4Of(s[|MAPPED|..]).Some?)
  {
    hide PlainAddress, IsIpv6Text, WellPlaced, IsDottedQuad, Ipv4Of, TailedAddress;
    PlainAddresses(s);
    MappedHasDot(s);
    if IsIpv6Text(s) { TextHasNoDot(s); }
    if IsMapped(s) { MappedSpelling(s); }
  }

  /** What the code makes of a text of letters, digits, colons and dots, bare and in brackets. */
  lemma BareAndBracketed(s: string)
    requires Hexlike(s)
    ensures AddressOf(Some("[" + s + "]")) == if |s| + 2 > MAX_ADDRESS_LENGTH then None else Ipv6Of(s)
    ensures AddressOf(Some(s)) ==
      if |s| > MAX_ADDRESS_LENGTH then None
      else if StartsWith(Lower(s), MAPPED) || '.' !in s then Ipv6Of(s)
      else if ':' in s then None else Ipv4Of(s)
  {
    hide Trim, UpTo, Ipv6Of, Ipv4Of, Lower;
    HexlikeFacts(s);
    assert NoSpace(s);
    TrimBare(s);
    var bracketed := "[" + s + "]" + "";
    UpToFirst("[" + s, ']', "");
    assert ("[" + s)[1..] == s && bracketed == "[" + s + "]";
    assert NoSpace(bracketed);
    TrimBare(bracketed);
  }

  lemma TextIsHexlike(s: string)
    requires HexOrColon(s)
    ensures Hexlike(s)
  {}

  /** An address is made of letters, digits, colons and dots, and a dotted one has a colon. */
  lemma AddressIsHexlike(s: string)
    requires Ipv6Address(s).Some?
    ensures Hexlike(s) && ':' in s
  {
    hide PlainAddress, WellPlaced, IsDottedQuad, Contains, Runs, Groups, IsHex, CutLast;
    if '.' !in s {
      PlainAddresses(s);
      TextIsHexlike(s);
    } else {
      var cut := CutLast(s);
      PlainAddresses(cut.0 + "0:0");
      DottedChars(cut.1);
      TextIsHexlike(cut.0 + "0:0");
      assert forall c :: c in cut.0 ==> c in cut.0 + "0:0";
      if cut.0 == "" { HalfIsNoAddress(); } else { assert s[|cut.0| - 1] == ':'; }
    }
  }

  lemma HalfIsNoAddress()
    ensures PlainAddress("" + "0:0") == None
  {
    assert "" + "0:0" == "0:0" && "0:0"[..2] == "0:" && "0:0"[1..] == ":0" && ":0"[..2] == ":0" && ":0"[1..] == "0";
    SplitFree("0", ':');
    SplitConcat("0", ':', "0");
    assert "0" + ":" + "0" == "0:0";
  }

  /** Which addresses the code refuses: those with any other dotted tail, bare or in brackets. */
  lemma RefusedAddresses(s: string)
    requires Lower(s) == s && Ipv6Address(s).Some?
    ensures AddressOf(Some(s)).None? <==> '.' in s && !IsMapped(s)
    ensures AddressOf(Some("[" + s + "]")).None? <==> '.' in s && !IsMapped(s)
  {
    hide PlainAddress, WellPlaced, IsDottedQuad, Ipv4Of, IsIpv6Text, AddressOf, TailedAddress;
    AddressIsHexlike(s);
    BareAndBracketed(s);
    MappedHasDot(s);
    if '.' !in s {
      PlainAddresses(s);
      PlainLength(s);
    } else {
      if IsIpv6Text(s) { TextHasNoDot(s); }
      if IsMapped(s) {
        MappedSpelling(s);
        DottedChars(s[|MAPPED|..]);
      }
    }
  }

  /** One of them is the mapped form of 1.2.3.4, written out. */
  lemma LongMappedIsRefused()
    ensures Ipv6Address("0:0:0:0:0:ffff:1.2.3.4") == Some(MappedGroups([1, 2, 3, 4]))
    ensures AddressOf(Some("0:0:0:0:0:ffff:1.2.3.4")) == None
    ensures AddressOf(Some("::ffff:1.2.3.4")) == Some("1.2.3.4")
  {
    hide PlainAddress, AddressOf, IsDottedQuad, Ipv4Of, OctetsOf, CutLast, Trim, Dotted;
    var head, quad := "0:0:0:0:0:ffff:", "1.2.3.4";
    var s := head + quad;
    QuadOfFour();
    DottedChars(quad);
    CutLastIsUnique(head, quad);
    assert s == "0:0:0:0:0:ffff:1.2.3.4" && s[16] == '.';
    WrittenOut();
    assert head + "0:0" == "0:0:0:0:0:ffff:0:0";
    assert [0, 0, 0, 0, 0, 0xffff, 0, 0][..6] == [0, 0, 0, 0, 0, 0xffff];
    assert Lower(s) == s && s[0] == '0' && !IsMapped(s);
    RefusedAddresses(s);
    assert Lower("::ffff:") == MAPPED;
    MappedSharesKey([1, 2, 3, 4], "::ffff:", "", "", "");
    assert "" + ("::ffff:" + quad) + "" == "::ffff:1.2.3.4";
  }

  lemma QuadOfFour()
    ensures Dotted([1, 2, 3, 4]) == "1.2.3.4"
    ensures IsDottedQuad("1.2.3.4") && Ipv4Of("1.2.3.4").Some? && OctetsOf("1.2.3.4") == [1, 2, 3, 4]
  {
    hide Value, Split, Join;
    var octets: seq<nat> := [1, 2, 3, 4];
    var parts := ["1", "2", "3", "4"];
    assert Decimal(1) == "1" && Decimal(2) == "2" && Decimal(3) == "3" && Decimal(4) == "4";
    JoinFour(parts, ".");
    DottedIs(octets, parts);
    assert Join(parts, ".") == "1.2.3.4";
    DottedIsAccepted(octets);
    SplitDotted(octets);
    forall i | 0 <= i < 4 ensures OctetsOf("1.2.3.4")[i] == octets[i] {
      assert Split("1.2.3.4", '.')[i] == Decimal(octets[i]);
      ValueOfDecimal(octets[i]);
    }
  }

  lemma WrittenOut()
    ensures PlainAddress("0:0:0:0:0:ffff:0:0") == Some([0, 0, 0, 0, 0, 0xffff, 0, 0])
  {
    hide Hex, GoodField, Split, CutRun, Join;
    var parts := ["0", "0", "0", "0", "0", "ffff", "0", "0"];
    JoinEight(parts);
    var s := Join(parts, ":");
    assert s == "0:0:0:0:0:ffff:0:0";
    SplitJoin(parts, ':');
    if CutRun(s).Some? { RunLeavesEmpty(s); }
    DigitIsNumber('0', 0);
    AllOnes();
    assert GoodFields(parts);
    assert Numbers(parts) == [0, 0, 0, 0, 0, 0xffff, 0, 0];
  }

  lemma JoinEight(parts: seq<string>)
    requires |parts| == 8
    ensures Join(parts, ":") == parts[0] + ":" + (parts[1] + ":" + (parts[2] + ":" + (parts[3] + ":"
      + (parts[4] + ":" + (parts[5] + ":" + (parts[6] + ":" + parts[7]))))))
  {
    JoinFour(parts[4..], ":");
    JoinStep(parts, 3);
    JoinStep(parts, 2);
    JoinStep(parts, 1);
    JoinStep(parts, 0);
    assert parts[0..] == parts;
  }

  lemma JoinStep(parts: seq<string>, i: nat)
    requires i + 1 < |parts|
    ensures Join(parts[i..], ":") == parts[i] + ":" + Join(parts[i + 1..], ":")
  {
    assert parts[i..][1..] == parts[i + 1..];
  }

  // ---------------------------------------------------------------------------
  // Keys
  // ---------------------------------------------------------------------------

  /** The text without blanks and brackets. */
  function Core(raw: string): string {
    var value := Trim(raw);
    if value != "" && value[0] == '[' && ']' in value then UpTo(value, ']')[1..] else value
  }

  /** The dotted part of a lower-case text. */
  function Quad(s: string): string { if StartsWith(s, MAPPED) then s[|MAPPED|..] else s }

  /** The address a text denotes: an IPv4 address is its IPv4-mapped form. */
  function Denotes(core: string): Option<seq<nat>> {
    var s := Lower(core);
    if ':' in s then Ipv6Address(s)
    else if IsDottedQuad(s) && Ipv4Of(s).Some? then Some(MappedGroups(OctetsOf(s)))
    else None
  }

  /** What accepted texts denote, by their dotted part or by their groups. */
  lemma DenotesBy(core: string)
    ensures var s := Lower(core);
      && ('.' in s && IsDottedQuad(Quad(s)) && Ipv4Of(Quad(s)).Some? ==>
        Denotes(core) == Some(MappedGroups(OctetsOf(Quad(s)))))
      && (IsIpv6Text(s) ==> '.' !in s && Denotes(core) == PlainAddress(s))
  {
    hide IsDottedQuad, Ipv4Of, PlainAddress, OctetsOf, TailedAddress, Lower;
    var s := Lower(core);
    if '.' in s && IsDottedQuad(Quad(s)) {
      DottedChars(Quad(s));
      if IsMapped(s) {
        MappedSpelling(s);
        assert s[0] == ':';
      }
    }
    if IsIpv6Text(s) { TextHasNoDot(s); }
  }

  /** An accepted dotted text is the print of its octets. */
  lemma OctetsArePrinted(quad: string)
    requires IsDottedQuad(quad) && Ipv4Of(quad).Some?
    ensures Octets(OctetsOf(quad)) && Dotted(OctetsOf(quad)) == quad
  {
    hide Split, Join, Value, Decimal;
    var parts := Split(quad, '.');
    forall i | 0 <= i < 4 ensures Decimal(OctetsOf(quad)[i]) == parts[i] { DecimalOfValue(parts[i]); }
    JoinSplit(quad, '.');
    DottedIs(OctetsOf(quad), parts);
  }

  /** A key is the dotted part of the text, or the whole text in lower case. */
  lemma KeyForm(raw: string)
    requires AddressOf(Some(raw)).Some?
    ensures var s, key := Lower(Core(raw)), AddressOf(Some(raw)).value;
      if '.' in s then key == Quad(s) && IsDottedQuad(key) && Ipv4Of(key) == Some(key) && '.' in key
      else key == s && IsIpv6Text(s)
  {
    hide Trim, IsDottedQuad, Ipv4Of, IsIpv6Text, Lower;
    var value := Trim(raw);
    if value[0] == '[' {
      Ipv6KeyForm(UpTo(value, ']')[1..]);
    } else if StartsWith(Lower(value), MAPPED) || '.' !in value {
      Ipv6KeyForm(value);
    } else {
      Ipv4KeyForm(value);
    }
  }

  lemma Ipv6KeyForm(core: string)
    requires Ipv6Of(core).Some?
    ensures var s, key := Lower(core), Ipv6Of(core).value;
      if '.' in s then key == Quad(s) && IsDottedQuad(key) && Ipv4Of(key) == Some(key) && '.' in key
      else key == s && IsIpv6Text(s)
  {
    hide IsDottedQuad, Ipv4Of, Lower;
    var s := Lower(core);
    MappedHasDot(s);
    if IsMapped(s) {
      Ipv4IsQuad(s[|MAPPED|..]);
      DottedChars(s[|MAPPED|..]);
    } else {
      TextHasNoDot(s);
    }
  }

  lemma TextHasNoDot(s: string)
    requires IsIpv6Text(s)
    ensures '.' !in s
  {}

  lemma Ipv4KeyForm(value: string)
    requires Ipv4Of(value).Some? && '.' in value
    ensures Lower(value) == value && Quad(value) == value && IsDottedQuad(value) && Ipv4Of(value) == Some(value)
  {
    hide IsDottedQuad;
    Ipv4IsQuad(value);
    LowerOfQuad(value);
    DottedChars(value);
    assert value[0] in value && MAPPED[0] == ':';
  }

  lemma MappedIsInjective(a: seq<nat>, b: seq<nat>)
    requires Octets(a) && Octets(b) && MappedGroups(a) == MappedGroups(b)
    ensures a == b
  {
    assert MappedGroups(a)[6] == MappedGroups(b)[6] && MappedGroups(a)[7] == MappedGroups(b)[7];
  }

  /**
    Two accepted texts of one address have one key exactly when they are the same text but for
    letter case, or both are dotted.
   */
  lemma KeysOfOneAddress(x: string, y: string)
    requires AddressOf(Some(x)).Some? && AddressOf(Some(y)).Some?
    requires Denotes(Core(x)).Some? && Denotes(Core(x)) == Denotes(Core(y))
    ensures AddressOf(Some(x)) == AddressOf(Some(y)) <==>
      (Lower(Core(x)) == Lower(Core(y)) || ('.' in Lower(Core(x)) && '.' in Lower(Core(y))))
  {
    hide AddressOf, Core, Lower, Denotes, IsIpv6Text, IsDottedQuad, Ipv4Of, MappedGroups, OctetsOf, Quad;
    DenotesBy(Core(x));
    DenotesBy(Core(y));
    var s, t := Lower(Core(x)), Lower(Core(y));
    KeyForm(x);
    KeyForm(y);
    if '.' in s && '.' in t {
      OctetsArePrinted(Quad(s));
      OctetsArePrinted(Quad(t));
      MappedIsInjective(OctetsOf(Quad(s)), OctetsOf(Quad(t)));
    }
  }

  /** And one key is one address: texts of different addresses never share a key. */
  lemma KeysSeparateAddresses(x: string, y: string)
    requires AddressOf(Some(x)).Some? && AddressOf(Some(x)) == AddressOf(Some(y))
    ensures Denotes(Core(x)) == Denotes(Core(y))
  {
    hide AddressOf, Core, Lower, Denotes, IsIpv6Text, IsDottedQuad, Ipv4Of, MappedGroups, OctetsOf, Quad;
    DenotesBy(Core(x));
    DenotesBy(Core(y));
    KeyForm(x);
    KeyForm(y);
    var key := AddressOf(Some(x)).value;
    assert '.' in Lower(Core(x)) <==> '.' in key;
    assert '.' in Lower(Core(y)) <==> '.' in key;
  }

  /** Which accepted texts denote an address at all: every dotted one, and the well placed of the others. */
  lemma AcceptedDenotes(x: string)
    requires AddressOf(Some(x)).Some?
    ensures Denotes(Core(x)).Some? <==> '.' in Lower(Core(x)) || WellPlaced(Lower(Core(x)))
  {
    hide AddressOf, Core, Lower, Denotes, IsIpv6Text, IsDottedQuad, Ipv4Of, MappedGroups, OctetsOf, WellPlaced, Quad;
    DenotesBy(Core(x));
    KeyForm(x);
    PlainAddresses(Lower(Core(x)));
  }

  /** A lone colon is accepted under its own key, and so is half an address; neither denotes anything. */
  lemma JunkIsAccepted()
    ensures AddressOf(Some(":")) == Some(":") && Denotes(":").None?
    ensures AddressOf(Some("1:2")) == Some("1:2") && Denotes("1:2").None?
  {
    hide AddressOf, IsIpv6Text, WellPlaced, PlainAddress;
    LoneColonIsText();
    HalfIsText();
    Ipv6IsFixed(":");
    Ipv6IsFixed("1:2");
    PlainAddresses(":");
    PlainAddresses("1:2");
    DenotesBy(":");
    DenotesBy("1:2");
    assert Lower(":") == ":" && Lower("1:2") == "1:2";
  }

  lemma LoneColonIsText()
    ensures IsIpv6Text(":") && !WellPlaced(":")
  {
    SplitFree("", ':');
    SplitConcat("", ':', "");
    assert "" + ":" + "" == ":" && ":"[1..] == "";
    assert !Contains("", ":::") && !Contains(":", ":::");
  }

  lemma HalfIsText()
    ensures IsIpv6Text("1:2") && !WellPlaced("1:2")
  {
    SplitFree("1", ':');
    SplitFree("2", ':');
    SplitConcat("1", ':', "2");
    assert "1" + ":" + "2" == "1:2" && "1:2"[..2] == "1:" && "1:2"[1..] == ":2";
    assert ":2"[..2] == ":2" && ":2"[1..] == "2";
    assert !Contains("", ":::") && !Contains("2", ":::");
    assert ":2"[1] != ':' && !(":::" <= ":2") && "1:2"[0] != ':' && !(":::" <= "1:2");
    assert "2"[1..] == "" && !Contains(":2", ":::");
  }

  /** One address, spelled in two ways that keep two keys. */
  lemma OneAddressTwoKeys()
    ensures Denotes("::1") == Some([0, 0, 0, 0, 0, 0, 0, 1]) && Denotes("0::1") == Denotes("::1")
    ensures AddressOf(Some("::1")).Some? && AddressOf(Some("0::1")).Some?
    ensures AddressOf(Some("::1")) != AddressOf(Some("0::1"))
  {
    hide AddressOf, PlainAddress;
    SpellingsKeepTheirKeys();
    ShortLoopback();
    LongLoopback();
    assert Lower("::1") == "::1" && Lower("0::1") == "0::1";
  }

  lemma ShortLoopback()
    ensures PlainAddress("::1") == Some([0, 0, 0, 0, 0, 0, 0, 1])
  {
    hide Hex, GoodField;
    SplitFree("1", ':');
    DigitIsNumber('1', 1);
    assert "::1"[..2] == "::" && "::1"[2..] == "1" && CutRun("::1") == Some(("", "1"));
    assert Fields("") == [] && Fields("1") == ["1"] && GoodFields([]) && GoodFields(["1"]);
    assert Numbers([]) + seq(8 - 0 - 1, i => 0) + Numbers(["1"]) == [0, 0, 0, 0, 0, 0, 0, 1];
  }

  lemma LongLoopback()
    ensures PlainAddress("0::1") == Some([0, 0, 0, 0, 0, 0, 0, 1])
  {
    hide Hex, GoodField;
    SplitFree("0", ':');
    SplitFree("1", ':');
    DigitIsNumber('0', 0);
    DigitIsNumber('1', 1);
    assert "0::1"[..2] == "0:" && "0::1"[1..] == "::1" && "::1"[..2] == "::" && "::1"[2..] == "1";
    assert CutRun("::1") == Some(("", "1")) && CutRun("0::1") == Some(("0", "1")) by { assert ['0'] + "" == "0"; }
    assert Fields("0") == ["0"] && Fields("1") == ["1"] && GoodFields(["0"]) && GoodFields(["1"]);
    assert Numbers(["0"]) + seq(8 - 1 - 1, i => 0) + Numbers(["1"]) == [0, 0, 0, 0, 0, 0, 0, 1];
  }

  lemma DigitIsNumber(c: char, n: nat)
    requires IsDigit(c) && (c - '0') as nat == n
    ensures GoodField([c]) && Hex([c]) == n
  {
    assert [c][..0] == "";
  }
}
