/** The sources that are accepted, told by how they are written. */
module CspSources {
  import opened Base
  import opened Text
  import opened CspParser
  import opened Csp

  /** Dot-separated labels, an optional port and an optional path. */
  datatype Host = Host(labels: seq<string>, port: Option<string>, path: Option<string>)

  predicate LabelChar(c: char) { 'a' <= c <= 'z' || 'A' <= c <= 'Z' || '0' <= c <= '9' || c == '-' }

  predicate PathChar(c: char) {
    && '\U{001F}' < c && c != '\U{007F}' && !IsSpace(c)
    && c != '"' && c != '\'' && c != '(' && c != ')' && c != ',' && c != ';' && c != '\\' && c != '@'
  }

  predicate GoodHost(h: Host) {
    && h.labels != []
    && (forall i :: 0 <= i < |h.labels| ==> h.labels[i] != "" && forall c :: c in h.labels[i] ==> LabelChar(c))
    && (h.port.Some? ==> 1 <= |h.port.value| <= 5 && forall c :: c in h.port.value ==> '0' <= c <= '9')
    && (h.path.Some? ==> forall c :: c in h.path.value ==> PathChar(c))
  }

  function Authority(h: Host): string { Join(h.labels, ".") + if h.port.Some? then ":" + h.port.value else "" }

  function PrintHost(h: Host): string { Authority(h) + if h.path.Some? then "/" + h.path.value else "" }

  /** One of six words, or https in any case, an optional wildcard in front, and a host. */
  ghost predicate IsSource(v: string) {
    || v in {"'self'", "'none'", "'strict-dynamic'", "'unsafe-inline'", "data:", "blob:"}
    || exists scheme, star, h :: IsHttps(v, scheme, star, h)
  }

  ghost predicate IsHttps(v: string, scheme: string, star: bool, h: Host) {
    Lower(scheme) == "https://" && GoodHost(h) && v == scheme + (if star then "*." else "") + PrintHost(h)
  }

  lemma {:induction false} BeforeFirst(a: string, c: char, b: string)
    requires c !in a
    ensures Before(a, c) == a && Before(a + [c] + b, c) == a
  {
    if a == "" {
      assert (a + [c] + b)[0] == c;
    } else {
      assert (a + [c] + b)[0] == a[0] && (a + [c] + b)[1..] == a[1..] + [c] + b;
      BeforeFirst(a[1..], c, b);
    }
  }

  lemma {:induction false} JoinChars(labels: seq<string>, c: char)
    requires c in Join(labels, ".")
    ensures c == '.' || exists i :: 0 <= i < |labels| && c in labels[i]
  {
    if |labels| == 1 {
      assert c in labels[0];
    } else if |labels| > 1 {
      if c in labels[0] {
      } else if c != '.' {
        assert c in Join(labels[1..], ".");
        JoinChars(labels[1..], c);
        var i :| 0 <= i < |labels| - 1 && c in labels[1..][i];
        assert c in labels[i + 1];
      }
    }
  }

  lemma AuthorityChars(h: Host)
    requires GoodHost(h)
    ensures forall c :: c in Join(h.labels, ".") ==> LabelChar(c) || c == '.'
    ensures forall c :: c in Authority(h) ==> LabelChar(c) || c == '.' || c == ':'
    ensures Join(h.labels, ".") != "" && Join(h.labels, ".")[0] != '.'
  {
    hide LabelChar, Join;
    forall c | c in Join(h.labels, ".") ensures LabelChar(c) || c == '.' { JoinChars(h.labels, c); }
    forall c | c in Authority(h) ensures LabelChar(c) || c == '.' || c == ':' {
      if c !in Join(h.labels, ".") && c != ':' {
        assert h.port.Some? && c in h.port.value;
        assert LabelChar(c) by { DigitsAreLabelChars(c); }
      }
    }
    JoinHead(h.labels);
    assert h.labels[0][0] in h.labels[0];
    assert LabelChar(h.labels[0][0]) && !LabelChar('.') by { DotIsNone(); }
  }

  lemma DotIsNone()
    ensures !LabelChar('.') && !LabelChar(':') && !LabelChar('/') && !LabelChar('*')
  {}

  lemma DigitsAreLabelChars(c: char)
    requires '0' <= c <= '9'
    ensures LabelChar(c)
  {}

  lemma JoinHead(parts: seq<string>)
    requires parts != [] && parts[0] != ""
    ensures Join(parts, ".") != "" && Join(parts, ".")[0] == parts[0][0]
  {}

  lemma SplitAuthority(h: Host)
    requires GoodHost(h)
    ensures Before(PrintHost(h), '/') == Authority(h)
    ensures Before(Authority(h), ':') == Join(h.labels, ".")
    ensures Split(Join(h.labels, "."), '.') == h.labels
  {
    hide GoodHost, LabelChar, Join, Split, Before;
    AuthorityChars(h);
    DotIsNone();
    var name, authority := Join(h.labels, "."), Authority(h);
    BeforeFirst(authority, '/', h.path.UnwrapOr(""));
    if h.path.Some? { assert PrintHost(h) == authority + ['/'] + h.path.value; }
    else { assert PrintHost(h) == authority; }
    BeforeFirst(name, ':', h.port.UnwrapOr(""));
    if h.port.Some? { assert authority == name + [':'] + h.port.value; }
    else { assert authority == name; }
    assert forall i :: 0 <= i < |h.labels| ==> '.' !in h.labels[i] by { LabelsHaveNoDot(h); }
    assert h.labels != [] by { LabelsHaveNoDot(h); }
    SplitJoin(h.labels, '.');
  }

  lemma LabelsHaveNoDot(h: Host)
    requires GoodHost(h)
    ensures h.labels != [] && forall i :: 0 <= i < |h.labels| ==> '.' !in h.labels[i]
  {}

  predicate Permitted(s: string) { forall c :: c in s ==> !IsForbidden(c) && c != '@' }

  lemma PathChars(s: string)
    ensures Permitted(s) <==> forall c :: c in s ==> PathChar(c)
  {}

  lemma LabelChars(c: char)
    ensures LabelChar(c) <==> IsAlnum(c) || c == '-'
    ensures LabelChar(c) || c == '.' || c == ':' || c == '/' || c == '*' ==> PathChar(c)
  {
    if 'a' <= c <= 'z' || 'A' <= c <= 'Z' || '0' <= c <= '9' {
      assert PathChar(c);
    } else if c == '-' || c == '.' || c == '*' {
      assert PathChar(c);
    } else if c == ':' || c == '/' {
      assert PathChar(c);
    }
  }

  /** What is printed is a host of permitted characters. */
  lemma PrintedHost(h: Host)
    requires GoodHost(h)
    ensures IsHost(PrintHost(h)) && Permitted(PrintHost(h)) && PrintHost(h) != "" && LabelChar(PrintHost(h)[0])
  {
    hide LabelChar, PathChar, Split, Before, Join, IsForbidden;
    SplitAuthority(h);
    AuthorityChars(h);
    var s := PrintHost(h);
    forall c | c in s ensures PathChar(c) {
      LabelChars(c);
      if h.path.Some? { assert c in Authority(h) || c == '/' || c in h.path.value; } else { assert s == Authority(h); }
    }
    PathChars(s);
    forall i | 0 <= i < |h.labels| ensures IsLabel(h.labels[i]) {
      forall c | c in h.labels[i] ensures IsAlnum(c) || c == '-' { LabelChars(c); }
    }
    assert forall c :: c in s[|Authority(h)|..] ==> c in s;
    PathHasNoSpace(s[|Authority(h)|..]);
    PrintedPort(h);
    assert s[0] == Join(h.labels, ".")[0] && s[0] in Join(h.labels, ".");
  }

  lemma PrintedPort(h: Host)
    requires GoodHost(h)
    ensures var name, authority := Join(h.labels, "."), Authority(h);
      |name| < |authority| ==> IsPort(authority[|name| + 1..])
  {
    hide Join;
    if h.port.Some? { assert Authority(h)[|Join(h.labels, ".")| + 1..] == h.port.value; }
  }

  lemma PathHasNoSpace(s: string)
    requires forall c :: c in s ==> PathChar(c)
    ensures NoSpace(s)
  {}

  /** The parts of a host text. */
  function PartsOf(s: string): Host {
    var authority := Before(s, '/');
    var name := Before(authority, ':');
    Host(Split(name, '.'),
         if |name| < |authority| then Some(authority[|name| + 1..]) else None,
         if |authority| < |s| then Some(s[|authority| + 1..]) else None)
  }

  /** And every such text is printed by its parts. */
  lemma PartsOfHost(s: string)
    requires IsHost(s) && Permitted(s)
    ensures GoodHost(PartsOf(s)) && s == PrintHost(PartsOf(s))
  {
    hide LabelChar, PathChar, Permitted, PartsOf, PrintHost;
    HostLabels(s, PartsOf(s));
    PortAndPath(s);
    PartsPrinted(s);
  }

  lemma PartsPrinted(s: string)
    ensures s == PrintHost(PartsOf(s))
  {
    hide Split, Join, Before;
    var authority := Before(s, '/');
    var name := Before(authority, ':');
    JoinSplit(name, '.');
    Rejoined(name, authority, ':');
    Rejoined(authority, s, '/');
    assert Authority(PartsOf(s)) == authority;
  }

  lemma Rejoined(front: string, s: string, c: char)
    requires front <= s && (|front| < |s| ==> s[|front|] == c)
    ensures s == front + if |front| < |s| then [c] + s[|front| + 1..] else ""
  {}

  lemma PortAndPath(s: string)
    requires IsHost(s) && Permitted(s)
    ensures var h := PartsOf(s);
      && (h.port.Some? ==> 1 <= |h.port.value| <= 5 && forall c :: c in h.port.value ==> '0' <= c <= '9')
      && (h.path.Some? ==> forall c :: c in h.path.value ==> PathChar(c))
  {
    hide Split, PathChar, IsForbidden, IsLabel;
    PathChars(s);
    var path := PartsOf(s).path;
    if path.Some? { assert forall c :: c in path.value ==> c in s; }
  }

  lemma HostLabels(s: string, h: Host)
    requires IsHost(s) && h == PartsOf(s)
    ensures h.labels != []
    ensures forall i :: 0 <= i < |h.labels| ==> h.labels[i] != "" && forall c :: c in h.labels[i] ==> LabelChar(c)
  {
    hide Split, Before;
    forall i | 0 <= i < |h.labels| ensures h.labels[i] != "" && forall c :: c in h.labels[i] ==> LabelChar(c) {
      assert IsLabel(h.labels[i]);
      forall c | c in h.labels[i] ensures LabelChar(c) { LabelChars(c); }
    }
  }

  /** Which texts are accepted as sources. */
  lemma SourceTexts(v: string)
    ensures IsCspSource(v) <==> IsSource(v)
  {
    hide IsHost, IsForbidden, GoodHost, PrintHost, LabelChar;
    if v !in {SELF, NONE, STRICT_DYNAMIC, UNSAFE_INLINE, DATA, BLOB} {
      if IsCspSource(v) { SourceParts(v); }
      if scheme, star, h :| IsHttps(v, scheme, star, h) { PrintedSource(scheme, star, h); }
    }
  }

  lemma SourceParts(v: string)
    requires IsCspSource(v) && v !in {SELF, NONE, STRICT_DYNAMIC, UNSAFE_INLINE, DATA, BLOB}
    ensures IsSource(v)
  {
    hide IsHost, IsForbidden, GoodHost, PrintHost;
    var scheme, host := v[..8], v[8..];
    assert Lower(scheme) == Lower(v)[..8] == "https://";
    assert v == scheme + host && forall c :: c in host ==> c in v;
    if StartsWith(host, "*.") {
      var rest := host[2..];
      assert forall c :: c in rest ==> c in host;
      PartsOfHost(rest);
      assert IsHttps(v, scheme, true, PartsOf(rest));
    } else {
      PartsOfHost(host);
      assert IsHttps(v, scheme, false, PartsOf(host));
    }
  }

  lemma SchemeChars(scheme: string)
    requires Lower(scheme) == "https://"
    ensures |scheme| == 8 && forall c :: c in scheme ==> !IsForbidden(c)
  {
    forall c | c in scheme ensures !IsForbidden(c) {
      var i :| 0 <= i < |scheme| && scheme[i] == c;
      assert Lower(scheme)[i] == LowerChar(c) && Lower(scheme)[i] in "https://";
    }
  }

  lemma PrintedSource(scheme: string, star: bool, h: Host)
    requires GoodHost(h) && Lower(scheme) == "https://"
    ensures IsCspSource(scheme + (if star then "*." else "") + PrintHost(h))
  {
    hide IsHost, IsForbidden, GoodHost, PrintHost;
    var front, s := if star then "*." else "", PrintHost(h);
    var v := scheme + front + s;
    PrintedHost(h);
    SchemeChars(scheme);
    assert v[8..] == front + s && Lower(v)[..8] == Lower(scheme);
    forall c | c in v ensures !IsForbidden(c) {
      if c !in scheme && c !in s {
        assert c in "*." && (c == '*' || c == '.');
        LabelChars(c);
        PathChars([c]);
        assert c in [c];
      }
    }
    if star { assert v[8..][2..] == s; } else { assert v[8..] == s; }
  }
}
