/**
  Which address a rate limit is keyed on: the normalisation of one address, and the choice of
  the entry of a forwarded chain.
 */
module ClientAddress {
  import opened Base
  import opened Numerals
  import opened Text

  const UNRESOLVED := "unresolved"
  const MAX_ADDRESS_LENGTH := 45
  const MAPPED := "::ffff:"

  // ---------------------------------------------------------------------------
  // IPv4
  // ---------------------------------------------------------------------------

  predicate IsOctetText(s: string) { 1 <= |s| <= 3 && AllDigits(s) }

  /** What IPV4 matches: four runs of one to three digits. */
  predicate IsDottedQuad(value: string) {
    var parts := Split(value, '.');
    |parts| == 4 && forall i :: 0 <= i < 4 ==> IsOctetText(parts[i])
  }

  predicate IsOctet(s: string)
    requires IsOctetText(s)
  {
    (|s| == 1 || s[0] != '0') && Value(s) <= 255
  }

  function Ipv4Of(value: string): Option<string> {
    if IsDottedQuad(value) && forall i :: 0 <= i < 4 ==> IsOctet(Split(value, '.')[i]) then Some(value) else None
  }

  method NormalizeIpv4(value: string) returns (key: Option<string>)
    ensures key == Ipv4Of(value)
  {
    if !IsDottedQuad(value) { return None; }
    var parts := Split(value, '.');
    for index := 0 to 4
      invariant forall i :: 0 <= i < index ==> IsOctet(parts[i])
    {
      var octet := parts[index];
      if |octet| > 1 && octet[0] == '0' { return None; }
      if Value(octet) > 255 { return None; }
    }
    return Some(value);
  }

  function Dotted(octets: seq<nat>): string
    requires |octets| == 4
  {
    Join(seq(4, i requires 0 <= i < 4 => Decimal(octets[i])), ".")
  }

  predicate Octets(octets: seq<nat>) { |octets| == 4 && forall i :: 0 <= i < 4 ==> octets[i] < 256 }

  lemma {:induction false} SplitDotted(octets: seq<nat>)
    requires |octets| == 4
    ensures Split(Dotted(octets), '.') == seq(4, i requires 0 <= i < 4 => Decimal(octets[i]))
  {
    var parts := seq(4, i requires 0 <= i < 4 => Decimal(octets[i]));
    forall i | 0 <= i < 4 ensures '.' !in parts[i] {
      ValueOfDecimal(octets[i]);
    }
    SplitJoin(parts, '.');
  }

  lemma DottedIsAccepted(octets: seq<nat>)
    requires Octets(octets)
    ensures IsDottedQuad(Dotted(octets)) && Ipv4Of(Dotted(octets)) == Some(Dotted(octets))
  {
    hide Split, Dotted, Decimal, Value;
    SplitDotted(octets);
    forall i | 0 <= i < 4 ensures IsOctetText(Decimal(octets[i])) && IsOctet(Decimal(octets[i])) {
      ValueOfDecimal(octets[i]);
      DecimalLength(octets[i]);
      if octets[i] == 0 { assert Decimal(0) == "0" by { DecimalZero(); } }
    }
  }

  lemma DecimalZero()
    ensures Decimal(0) == "0"
  {}

  /** The accepted dotted texts are exactly the printed forms of four octets. */
  lemma Ipv4Texts(value: string)
    ensures Ipv4Of(value).Some? <==> exists octets :: Octets(octets) && value == Dotted(octets)
  {
    hide Split, Join, Dotted, Value, Decimal;
    if Ipv4Of(value).Some? {
      var parts := Split(value, '.');
      var octets := seq(4, i requires 0 <= i < 4 => Value(parts[i]));
      forall i | 0 <= i < 4 ensures Decimal(octets[i]) == parts[i] { DecimalOfValue(parts[i]); }
      JoinSplit(value, '.');
      DottedIs(octets, parts);
      assert Octets(octets);
    }
    if octets :| Octets(octets) && value == Dotted(octets) { DottedIsAccepted(octets); }
  }

  lemma DottedIs(octets: seq<nat>, parts: seq<string>)
    requires |octets| == |parts| == 4 && forall i :: 0 <= i < 4 ==> Decimal(octets[i]) == parts[i]
    ensures Dotted(octets) == Join(parts, ".")
  {
    assert parts == seq(4, i requires 0 <= i < 4 => Decimal(octets[i]));
  }

  /** Distinct addresses get distinct keys. */
  lemma DottedIsInjective(a: seq<nat>, b: seq<nat>)
    requires |a| == |b| == 4 && Dotted(a) == Dotted(b)
    ensures a == b
  {
    hide Split, Dotted, Decimal, Value;
    SplitDotted(a);
    SplitDotted(b);
    forall i | 0 <= i < 4 ensures a[i] == b[i] {
      assert Split(Dotted(a), '.')[i] == Decimal(a[i]) && Split(Dotted(b), '.')[i] == Decimal(b[i]);
      ValueOfDecimal(a[i]);
      ValueOfDecimal(b[i]);
    }
  }

  // ---------------------------------------------------------------------------
  // IPv6
  // ---------------------------------------------------------------------------

  predicate IsHex(c: char) { IsDigit(c) || 'a' <= c <= 'f' }

  /** What IPV6_CHARS matches. */
  predicate HexOrColon(s: string) { s != "" && forall c :: c in s ==> IsHex(c) || c == ':' }

  /** How many times `::` occurs, from the left, without overlap: s.split('::').length - 1. */
  function Runs(s: string): nat {
    if |s| < 2 then 0 else if s[..2] == "::" then 1 + Runs(s[2..]) else Runs(s[1..])
  }

  /** s.replace('::', ':') */
  function ReplaceRun(s: string): string {
    if |s| < 2 then s else if s[..2] == "::" then s[1..] else [s[0]] + ReplaceRun(s[1..])
  }

  function NonEmpty(parts: seq<string>): seq<string> {
    if parts == [] then []
    else (if parts[0] == "" then [] else [parts[0]]) + NonEmpty(parts[1..])
  }

  function Groups(s: string): seq<string> { NonEmpty(Split(ReplaceRun(s), ':')) }

  /** A lower-case text that is accepted as it is. */
  predicate IsIpv6Text(s: string) {
    && HexOrColon(s) && ':' in s && !Contains(s, ":::") && Runs(s) <= 1
    && |Groups(s)| <= 8 && forall i :: 0 <= i < |Groups(s)| ==> |Groups(s)[i]| <= 4
  }

  predicate IsMapped(s: string) { StartsWith(s, MAPPED) && IsDottedQuad(s[|MAPPED|..]) }

  function Ipv6Of(value: string): Option<string> {
    var lowered := Lower(value);
    if IsMapped(lowered) then Ipv4Of(lowered[|MAPPED|..])
    else if IsIpv6Text(lowered) then Some(lowered)
    else None
  }

  method NormalizeIpv6(value: string) returns (key: Option<string>)
    ensures key == Ipv6Of(value)
  {
    hide Split, Contains, Runs, Groups, IsDottedQuad, Ipv4Of, Lower;
    var lowered := Lower(value);
    if IsMapped(lowered) {
      key := NormalizeIpv4(lowered[|MAPPED|..]);
      return;
    }
    if !HexOrColon(lowered) || ':' !in lowered || Contains(lowered, ":::") || Runs(lowered) > 1 { return None; }
    var groups := Groups(lowered);
    if |groups| > 8 { return None; }
    for i := 0 to |groups|
      invariant forall j :: 0 <= j < i ==> |groups[j]| <= 4
    {
      if |groups[i]| > 4 { return None; }
    }
    return Some(lowered);
  }

  // ---------------------------------------------------------------------------
  // One address
  // ---------------------------------------------------------------------------

  function UpTo(s: string, c: char): (r: string)
    requires c in s
    ensures |r| < |s| && r == s[..|r|] && s[|r|] == c && c !in r
  {
    if s[0] == c then "" else [s[0]] + UpTo(s[1..], c)
  }

  function AddressOf(raw: Option<string>): Option<string> {
    var value := Trim(raw.UnwrapOr(""));
    if value == "" || |value| > MAX_ADDRESS_LENGTH then None
    else if value[0] == '[' then
      if ']' in value then Ipv6Of(UpTo(value, ']')[1..]) else None
    else if StartsWith(Lower(value), MAPPED) then Ipv6Of(value)
    else if '.' in value then
      if ':' in value then None else Ipv4Of(value)
    else Ipv6Of(value)
  }

  method NormalizeAddress(raw: Option<string>) returns (key: Option<string>)
    ensures key == AddressOf(raw)
  {
    hide Ipv6Of, Ipv4Of, Lower, Trim;
    if raw.None? || raw.value == "" {
      TrimOfBlank("");
      return None;
    }
    var value := Trim(raw.value);
    if value == "" || |value| > MAX_ADDRESS_LENGTH { return None; }
    if value[0] == '[' {
      if ']' !in value { return None; }
      key := NormalizeIpv6(UpTo(value, ']')[1..]);
      return;
    }
    if StartsWith(Lower(value), MAPPED) {
      key := NormalizeIpv6(value);
      return;
    }
    if '.' in value {
      if ':' in value { return None; }
      key := NormalizeIpv4(value);
      return;
    }
    key := NormalizeIpv6(value);
  }

  lemma {:induction false} DottedChars(s: string)
    requires IsDottedQuad(s)
    ensures 7 <= |s| <= 15 && forall c :: c in s ==> IsDigit(c) || c == '.'
    ensures '.' in s
  {
    hide Split;
    var parts := Split(s, '.');
    JoinSplit(s, '.');
    JoinFour(parts, ".");
    assert forall i :: 0 <= i < 4 ==> forall c :: c in parts[i] ==> IsDigit(c);
    assert '.' in ".";
  }

  lemma JoinFour(parts: seq<string>, sep: string)
    requires |parts| == 4
    ensures Join(parts, sep) == parts[0] + sep + (parts[1] + sep + (parts[2] + sep + parts[3]))
  {
    assert parts[1..][1..] == parts[2..] && parts[2..][1..] == parts[3..];
    assert Join(parts[2..], sep) == parts[2] + sep + parts[3];
    assert Join(parts[1..], sep) == parts[1] + sep + Join(parts[2..], sep);
  }

  lemma TrimBare(s: string)
    requires NoSpace(s) && s != ""
    ensures Trim(s) == s
  {
    assert s[0] in s && s[|s| - 1] in s;
    TrimPadded("", s, "");
    assert "" + s + "" == s;
  }

  lemma LowerOfLower(s: string)
    ensures Lower(Lower(s)) == Lower(s)
  {}

  /** An IPv4 key is a key of its own. */
  lemma Ipv4IsFixed(k: string)
    requires Ipv4Of(k) == Some(k)
    ensures AddressOf(Some(k)) == Some(k) && |k| <= MAX_ADDRESS_LENGTH
  {
    hide Split, Ipv4Of, Ipv6Of;
    assert IsDottedQuad(k) by { Ipv4IsQuad(k); }
    DottedChars(k);
    TrimBare(k);
    assert k[0] in k;
    assert Lower(k)[0] == k[0];
    assert k[0] != MAPPED[0];
  }

  lemma Ipv4IsQuad(k: string)
    requires Ipv4Of(k).Some?
    ensures IsDottedQuad(k) && Ipv4Of(k) == Some(k)
  {}

  /** Lower-casing twice changes nothing, so an IPv6 key is a key of its own. */
  lemma Ipv6IsFixed(k: string)
    requires IsIpv6Text(k) && Lower(k) == k && |k| <= MAX_ADDRESS_LENGTH
    ensures AddressOf(Some(k)) == Some(k)
  {
    hide Split, Contains, Runs, Groups;
    TrimBare(k);
    assert k[0] in k;
    MappedHasDot(k);
  }

  lemma MappedHasDot(s: string)
    ensures IsMapped(s) ==> '.' in s
  {
    if IsMapped(s) {
      DottedChars(s[|MAPPED|..]);
      assert '.' in s[|MAPPED|..];
    }
  }

  /** What normalizeIpv6 accepts is one of the two kinds of key. */
  lemma Ipv6Keys(value: string)
    requires |value| <= MAX_ADDRESS_LENGTH && Ipv6Of(value).Some?
    ensures AddressOf(Ipv6Of(value)) == Ipv6Of(value) && |Ipv6Of(value).value| <= MAX_ADDRESS_LENGTH
  {
    hide AddressOf, Ipv4Of, IsDottedQuad, IsIpv6Text;
    var lowered := Lower(value);
    if IsMapped(lowered) {
      Ipv4IsQuad(lowered[|MAPPED|..]);
      Ipv4IsFixed(lowered[|MAPPED|..]);
    } else {
      LowerOfLower(value);
      Ipv6IsFixed(lowered);
    }
  }

  /** Every key is at most 45 characters, normalises to itself, and is not the shared bucket's name. */
  lemma {:induction false} KeysAreFixed(raw: Option<string>)
    requires AddressOf(raw).Some?
    ensures AddressOf(AddressOf(raw)) == AddressOf(raw)
    ensures |AddressOf(raw).value| <= MAX_ADDRESS_LENGTH && AddressOf(raw).value != UNRESOLVED
  {
    var value := Trim(raw.UnwrapOr(""));
    assert AddressOf(Some(UNRESOLVED)) == None by { UnresolvedIsNoAddress(); }
    if value[0] == '[' {
      Ipv6Keys(UpTo(value, ']')[1..]);
    } else if StartsWith(Lower(value), MAPPED) || '.' !in value {
      Ipv6Keys(value);
    } else {
      Ipv4IsQuad(value);
      Ipv4IsFixed(value);
    }
  }

  lemma UnresolvedIsNoAddress()
    ensures AddressOf(Some(UNRESOLVED)) == None
  {
    hide Split, Contains, Runs, Groups;
    TrimBare(UNRESOLVED);
    assert Lower(UNRESOLVED)[0] == 'u' && 'u' in Lower(UNRESOLVED);
  }

  // ---------------------------------------------------------------------------
  // Mapped addresses
  // ---------------------------------------------------------------------------

  lemma LowerConcat(a: string, b: string)
    ensures Lower(a + b) == Lower(a) + Lower(b)
  {}

  lemma LowerOfQuad(s: string)
    requires IsDottedQuad(s)
    ensures Lower(s) == s
  {
    hide IsDottedQuad;
    DottedChars(s);
    assert forall i :: 0 <= i < |s| ==> s[i] in s;
  }

  lemma MappedIsIpv4(prefix: string, quad: string)
    requires Lower(prefix) == MAPPED && IsDottedQuad(quad)
    ensures Ipv6Of(prefix + quad) == Ipv4Of(quad)
  {
    hide IsDottedQuad, Ipv4Of, Lower;
    LowerConcat(prefix, quad);
    LowerOfQuad(quad);
    assert (MAPPED + quad)[|MAPPED|..] == quad;
  }

  lemma UpToFirst(a: string, c: char, b: string)
    requires c !in a
    ensures var s := a + [c] + b; c in s && UpTo(s, c) == a
  {
    hide UpTo;
    var s := a + [c] + b;
    assert s[|a|] == c;
    var r := UpTo(s, c);
    forall j | |a| < j <= |s| ensures c in s[..j] { assert s[..j][|a|] == c; }
    assert forall k :: 0 <= k < |a| ==> s[k] == a[k] && a[k] in a;
    assert s[..|a|] == a;
  }

  predicate Hexlike(s: string) { s != "" && forall c :: c in s ==> IsAlnum(c) || c == ':' || c == '.' }

  lemma LowerIsHexlike(s: string)
    requires Hexlike(Lower(s))
    ensures Hexlike(s)
  {
    forall c | c in s ensures IsAlnum(c) || c == ':' || c == '.' {
      var i :| 0 <= i < |s| && s[i] == c;
      assert Lower(s)[i] in Lower(s);
    }
  }

  lemma MappedIsHexlike(prefix: string, quad: string)
    requires Lower(prefix) == MAPPED && IsDottedQuad(quad)
    ensures Hexlike(prefix + quad)
  {
    hide IsDottedQuad;
    LowerIsHexlike(prefix);
    DottedChars(quad);
  }

  /**
    The dotted IPv4-mapped form of an address, in any case, bare or in brackets, with or without
    a port after the bracket, has the key of its IPv4 form.
   */
  lemma MappedSharesKey(octets: seq<nat>, prefix: string, before: string, after: string, port: string)
    requires Octets(octets) && Lower(prefix) == MAPPED && Blank(before) && Blank(after)
    ensures AddressOf(Some(before + (prefix + Dotted(octets)) + after)) == Some(Dotted(octets))
    ensures var bracketed := "[" + (prefix + Dotted(octets)) + "]" + port;
      |port| <= 20 && (port == "" || !IsSpace(port[|port| - 1])) ==>
        AddressOf(Some(before + bracketed + after)) == Some(Dotted(octets))
  {
    hide Dotted, Trim, Lower, Ipv6Of, Ipv4Of, IsDottedQuad, Hexlike, UpTo;
    var quad := Dotted(octets);
    var value := prefix + quad;
    DottedIsAccepted(octets);
    DottedChars(quad);
    MappedIsIpv4(prefix, quad);
    MappedIsHexlike(prefix, quad);
    HexlikeFacts(value);
    TrimPadded(before, value, after);
    LowerConcat(prefix, quad);
    var bracketed := "[" + value + "]" + port;
    UpToFirst("[" + value, ']', port);
    assert ("[" + value)[1..] == value;
    if |port| <= 20 && (port == "" || !IsSpace(port[|port| - 1])) {
      assert bracketed[|bracketed| - 1] == if port == "" then ']' else port[|port| - 1];
      TrimPadded(before, bracketed, after);
    }
  }

  lemma HexlikeFacts(s: string)
    requires Hexlike(s)
    ensures s != "" && s[0] != '[' && ']' !in "[" + s && !IsSpace(s[0]) && !IsSpace(s[|s| - 1])
  {
    assert s[0] in s && s[|s| - 1] in s;
  }

  /** Other spellings of one address are not collapsed: each is accepted under a key of its own. */
  lemma SpellingsKeepTheirKeys()
    ensures AddressOf(Some("::1")) == Some("::1") && AddressOf(Some("0::1")) == Some("0::1")
  {
    hide AddressOf, IsIpv6Text;
    ShortSpelling();
    LongSpelling();
    Ipv6IsFixed("::1");
    Ipv6IsFixed("0::1");
  }

  lemma ShortSpelling()
    ensures IsIpv6Text("::1")
  {
    hide Contains;
    assert "::1"[..2] == "::" && "::1"[2..] == "1" && "::1"[1..] == ":1";
    SplitConcat("", ':', "1");
    SplitFree("", ':');
    SplitFree("1", ':');
    assert "" + ":" + "1" == ":1";
    NoTriple("::1");
  }

  lemma LongSpelling()
    ensures IsIpv6Text("0::1")
  {
    hide Contains;
    assert "0::1"[..2] == "0:" && "0::1"[1..] == "::1";
    assert "::1"[..2] == "::" && "::1"[2..] == "1" && "::1"[1..] == ":1";
    SplitConcat("0", ':', "1");
    SplitFree("0", ':');
    SplitFree("1", ':');
    assert "0" + ":" + "1" == "0:1";
    NoTriple("0::1");
  }

  lemma NoTriple(s: string)
    requires s == "::1" || s == "0::1"
    ensures !Contains(s, ":::")
  {
    assert "0::1"[1..] == "::1" && "::1"[1..] == ":1" && ":1"[1..] == "1" && "1"[1..] == "";
    assert !Contains("", ":::");
    assert !Contains("1", ":::");
    assert !Contains(":1", ":::");
    assert "::1"[2] == '1' && ":::"[2] == ':' && "0::1"[0] != ":::"[0];
    assert !(":::" <= "::1") && !(":::" <= "0::1");
  }

  // ---------------------------------------------------------------------------
  // The chain
  // ---------------------------------------------------------------------------

  datatype Error = BadHops

  /** resolveClientAddress, without its warnings. */
  function Resolve(forwarded: Option<string>, hops: Option<int>, peer: Option<string>): Result<string, Error> {
    var n := hops.UnwrapOr(0);
    if n < 0 then Failure(BadHops)
    else if n == 0 then Success(AddressOf(peer).UnwrapOr(UNRESOLVED))
    else if forwarded.None? || forwarded.value == "" then Success(UNRESOLVED)
    else
      var entries := Split(forwarded.value, ',');
      if |entries| < n then Success(UNRESOLVED)
      else Success(AddressOf(Some(entries[|entries| - n])).UnwrapOr(UNRESOLVED))
  }

  method ResolveClientAddress(forwarded: Option<string>, trustedProxyHops: Option<int>, peerIp: Option<string>)
    returns (result: Result<string, Error>)
    ensures result == Resolve(forwarded, trustedProxyHops, peerIp)
  {
    hide AddressOf, Split;
    var hops := trustedProxyHops.UnwrapOr(0);
    if hops < 0 { return Failure(BadHops); }
    if hops == 0 {
      var peer := NormalizeAddress(peerIp);
      return Success(peer.UnwrapOr(UNRESOLVED));
    }
    if forwarded.None? || forwarded.value == "" { return Success(UNRESOLVED); }
    var entries := Split(forwarded.value, ',');
    if |entries| < hops { return Success(UNRESOLVED); }
    var resolved := NormalizeAddress(Some(entries[|entries| - hops]));
    return Success(resolved.UnwrapOr(UNRESOLVED));
  }

  /** Whatever the headers, a result is the shared bucket or a bounded key that normalises to itself. */
  lemma ResultIsKey(forwarded: Option<string>, hops: Option<int>, peer: Option<string>)
    requires Resolve(forwarded, hops, peer).Success?
    ensures var key := Resolve(forwarded, hops, peer).value;
      |key| <= MAX_ADDRESS_LENGTH && (key == UNRESOLVED || AddressOf(Some(key)) == Some(key))
  {
    hide AddressOf, Split;
    var n := hops.UnwrapOr(0);
    var entries := Split(forwarded.UnwrapOr(""), ',');
    var raw := if n == 0 then peer else if |entries| >= n then Some(entries[|entries| - n]) else None;
    if AddressOf(raw).Some? { KeysAreFixed(raw); }
  }

  /** Two lists of parts, the last of the first run together with the first of the second. */
  function Splice(a: seq<string>, b: seq<string>): seq<string>
    requires a != [] && b != []
  {
    a[..|a| - 1] + [a[|a| - 1] + b[0]] + b[1..]
  }

  lemma SpliceCons(p: string, a: seq<string>, b: seq<string>)
    requires a != [] && b != []
    ensures Splice([p] + a, b) == [p] + Splice(a, b)
  {
    assert ([p] + a)[..|a|] == [p] + a[..|a| - 1];
  }

  lemma SpliceHead(c: char, a: seq<string>, b: seq<string>)
    requires a != [] && b != []
    ensures Splice([[c] + a[0]] + a[1..], b) == [[c] + Splice(a, b)[0]] + Splice(a, b)[1..]
  {
    if |a| == 1 {
      assert [c] + (a[0] + b[0]) == [c] + a[0] + b[0];
    } else {
      var longer := [[c] + a[0]] + a[1..];
      assert longer[..|a| - 1] == [longer[0]] + a[1..|a| - 1];
      assert Splice(a, b)[1..] == a[1..|a| - 1] + [a[|a| - 1] + b[0]] + b[1..];
    }
  }

  /** Splitting after a prefix: only the first entry is touched. */
  lemma {:induction false} SplitGlue(x: string, sep: char, s: string)
    ensures Split(x + s, sep) == Splice(Split(x, sep), Split(s, sep))
  {
    hide Splice;
    var b := Split(s, sep);
    if x == "" {
      assert x + s == s;
      SpliceNothing(b);
    } else {
      assert (x + s)[0] == x[0] && (x + s)[1..] == x[1..] + s;
      SplitGlue(x[1..], sep, s);
      if x[0] == sep { SpliceCons("", Split(x[1..], sep), b); } else { SpliceHead(x[0], Split(x[1..], sep), b); }
    }
  }

  lemma SpliceNothing(b: seq<string>)
    requires b != []
    ensures Splice([""], b) == b
  {
    assert "" + b[0] == b[0];
  }

  /** Entries that a client puts in front of a chain as long as the trusted proxies make it change nothing. */
  lemma PrependedEntriesAreIgnored(x: string, chain: string, hops: nat, peer: Option<string>)
    requires |Split(chain, ',')| >= hops
    ensures Resolve(Some(x + "," + chain), Some(hops), peer) == Resolve(Some(chain), Some(hops), peer)
  {
    hide AddressOf, Split;
    SplitConcat(x, ',', chain);
    var a, b := Split(x, ','), Split(chain, ',');
    if hops > 0 { assert (a + b)[|a + b| - hops] == b[|b| - hops]; }
    NothingIsNoAddress();
    if chain == "" { assert b == [""] by { SplitFree("", ','); } }
  }

  lemma NothingIsNoAddress()
    ensures AddressOf(Some("")) == None
  {}

  /** On every chain of `entries` entries, whatever text is put in front of it changes nothing. */
  ghost predicate Immune(entries: nat, hops: nat) {
    forall x, chain :: |Split(chain, ',')| == entries ==>
      Resolve(Some(x + chain), Some(hops), None) == Resolve(Some(chain), Some(hops), None)
  }

  /** Text that runs into the first entry: harmless exactly when the boundary lies behind that entry. */
  lemma PrependedText(entries: nat, hops: nat)
    requires entries >= 1 && hops >= 1
    ensures Immune(entries, hops) <==> entries > hops
  {
    hide AddressOf, Split, Resolve;
    if entries > hops {
      forall x, chain | |Split(chain, ',')| == entries
        ensures Resolve(Some(x + chain), Some(hops), None) == Resolve(Some(chain), Some(hops), None)
      {
        LongChain(x, chain, hops);
      }
    } else {
      ShortChain(entries, hops);
    }
  }

  lemma LongChain(x: string, chain: string, hops: nat)
    requires |Split(chain, ',')| > hops >= 1
    ensures Resolve(Some(x + chain), Some(hops), None) == Resolve(Some(chain), Some(hops), None)
  {
    hide AddressOf, Split;
    SplitGlue(x, ',', chain);
    SplitFree("", ',');
  }

  function Ones(n: nat): seq<string> { seq(n, i => "1.1.1.1") }

  lemma OnesChain(n: nat)
    requires n >= 1
    ensures Split(Join(Ones(n), ","), ',') == Ones(n)
  {
    SplitJoin(Ones(n), ',');
  }

  lemma QuadKey(a: nat)
    requires a < 256
    ensures AddressOf(Some(Decimal(a) + ".1.1.1")) == Some(Decimal(a) + ".1.1.1")
  {
    hide AddressOf, Ipv4Of;
    var octets := [a, 1, 1, 1];
    DottedIsAccepted(octets);
    JoinFour(seq(4, i requires 0 <= i < 4 => Decimal(octets[i])), ".");
    assert Decimal(1) == "1";
    assert Dotted(octets) == Decimal(a) + ".1.1.1";
    Ipv4IsFixed(Dotted(octets));
  }

  /** A chain of `1.1.1.1`s: a digit or whole entries in front of it choose another key. */
  lemma ShortChain(entries: nat, hops: nat)
    requires 1 <= entries <= hops
    ensures !Immune(entries, hops)
  {
    hide AddressOf, Split, Splice, Ones;
    var chain := Join(Ones(entries), ",");
    OnesChain(entries);
    OnesLength(entries);
    QuadKey(1);
    QuadKey(21);
    assert Decimal(1) == "1" && Decimal(2) == "2" && Decimal(21) == "21";
    assert "1" + ".1.1.1" == "1.1.1.1" && "21" + ".1.1.1" == "21.1.1.1";
    if entries == hops {
      SplitGlue("2", ',', chain);
      SplitFree("2", ',');
      SpliceOne("2", Ones(entries));
      assert "2" + "1.1.1.1" == "21.1.1.1";
      assert Resolve(Some("2" + chain), Some(hops), None) == Success("21.1.1.1");
      assert Resolve(Some(chain), Some(hops), None) == Success("1.1.1.1");
    } else {
      var more := Join(Ones(hops), ",");
      OnesChain(hops);
      OnesLength(hops);
      SplitConcat(more, ',', chain);
      var both := Ones(hops) + Ones(entries);
      assert both[|both| - hops] == "1.1.1.1" by { OnesAt(hops, entries); }
      assert (more + ",") + chain == more + [','] + chain;
      assert Resolve(Some((more + ",") + chain), Some(hops), None) == Success("1.1.1.1");
      assert Resolve(Some(chain), Some(hops), None) == Success(UNRESOLVED);
    }
  }

  lemma OnesLength(n: nat)
    ensures |Ones(n)| == n && (n > 0 ==> Ones(n)[0] == "1.1.1.1")
  {}

  lemma OnesAt(a: nat, b: nat)
    requires 1 <= b < a
    ensures (Ones(a) + Ones(b))[b] == "1.1.1.1"
  {}

  lemma SpliceOne(p: string, b: seq<string>)
    requires b != []
    ensures Splice([p], b) == [p + b[0]] + b[1..]
  {}
}
