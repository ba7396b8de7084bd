/** What a record is filed and fingerprinted under, and why two different calls never share both. */
module Identity {
  import opened Wrappers
  import opened JsValues
  import opened Decimal
  import opened JsonText

  // UTF-8 (RFC 3629).

  function Utf8Char(c: char): (bytes: seq<Byte>)
    ensures 1 <= |bytes| <= 4
  {
    var n := c as int;
    if n < 0x80 then [n]
    else if n < 0x800 then [0xC0 + n / 0x40, 0x80 + n % 0x40]
    else if n < 0x10000 then [0xE0 + n / 0x1000, 0x80 + n / 0x40 % 0x40, 0x80 + n % 0x40]
    else [0xF0 + n / 0x40000, 0x80 + n / 0x1000 % 0x40, 0x80 + n / 0x40 % 0x40, 0x80 + n % 0x40]
  }

  function Utf8(s: string): seq<Byte> {
    if s == "" then [] else Utf8Char(s[0]) + Utf8(s[1..])
  }

  /** How many bytes a character takes, told by its first byte. */
  function WidthOf(first: Byte): int {
    if first < 0x80 then 1 else if first < 0xE0 then 2 else if first < 0xF0 then 3 else 4
  }

  lemma WidthTold(c: char)
    ensures WidthOf(Utf8Char(c)[0]) == |Utf8Char(c)|
  {
  }

  /** The code point a character's bytes stand for, and the ranges of lead and trail bytes (section 3 of RFC 3629). */
  lemma Utf8CodePoint(c: char)
    ensures var (b, n) := (Utf8Char(c), c as int);
      && (n < 0x80 <==> |b| == 1) && (n < 0x800 <==> |b| <= 2) && (n < 0x1_0000 <==> |b| <= 3)
      && (forall i :: 1 <= i < |b| ==> 0x80 <= b[i] < 0xC0)
      && (|b| == 1 ==> b[0] == n < 0x80)
      && (|b| == 2 ==> 0xC0 <= b[0] < 0xE0 && n == Bits(b[0], 0xC0) * 0x40 + Bits(b[1], 0x80))
      && (|b| == 3 ==> 0xE0 <= b[0] < 0xF0 && n == Bits(b[0], 0xE0) * 0x1000 + Bits(b[1], 0x80) * 0x40 + Bits(b[2], 0x80))
      && (|b| == 4 ==>
        && 0xF0 <= b[0] < 0xF8
        && n == Bits(b[0], 0xF0) * 0x4_0000 + Bits(b[1], 0x80) * 0x1000 + Bits(b[2], 0x80) * 0x40 + Bits(b[3], 0x80))
  {
    var n := c as int;
    if n >= 0x800 {
      assert n / 0x40 == 0x40 * (n / 0x1000) + n / 0x40 % 0x40;
    }
    if n >= 0x1_0000 {
      assert n / 0x1000 == 0x40 * (n / 0x4_0000) + n / 0x1000 % 0x40;
    }
  }

  /** The bits of a byte behind its marker. */
  function Bits(b: Byte, marker: int): int {
    b - marker
  }

  /** A number below 2 ** 18 is told by its three groups of bits. */
  lemma ThreeGroups(m: int, n: int)
    requires m >= 0 && n >= 0
    requires m / 0x1000 == n / 0x1000 && m / 0x40 % 0x40 == n / 0x40 % 0x40 && m % 0x40 == n % 0x40
    ensures m == n
  {
    assert m / 0x40 == 0x40 * (m / 0x1000) + m / 0x40 % 0x40;
    assert n / 0x40 == 0x40 * (n / 0x1000) + n / 0x40 % 0x40;
  }

  lemma FourGroups(m: int, n: int)
    requires m >= 0 && n >= 0 && m / 0x40000 == n / 0x40000
    requires m / 0x1000 % 0x40 == n / 0x1000 % 0x40 && m / 0x40 % 0x40 == n / 0x40 % 0x40 && m % 0x40 == n % 0x40
    ensures m == n
  {
    assert m / 0x1000 == 0x40 * (m / 0x40000) + m / 0x1000 % 0x40;
    assert n / 0x1000 == 0x40 * (n / 0x40000) + n / 0x1000 % 0x40;
    ThreeGroups(m, n);
  }

  lemma Utf8CharInjective(c: char, d: char)
    requires Utf8Char(c) == Utf8Char(d)
    ensures c == d
  {
    var a, b := Utf8Char(c), Utf8Char(d);
    assert a[0] == b[0];
    WidthTold(c);
    WidthTold(d);
    if |a| == 2 {
      assert a[1] == b[1];
    } else if |a| == 3 {
      assert a[1] == b[1] && a[2] == b[2];
      ThreeGroups(c as int, d as int);
    } else if |a| == 4 {
      assert a[1] == b[1] && a[2] == b[2] && a[3] == b[3];
      FourGroups(c as int, d as int);
    }
  }

  lemma CancelBytes(p: seq<Byte>, q: seq<Byte>, r1: seq<Byte>, r2: seq<Byte>)
    requires p + r1 == q + r2 && |p| == |q|
    ensures p == q && r1 == r2
  {
    assert p == (p + r1)[..|p|] && q == (q + r2)[..|p|];
    assert r1 == (p + r1)[|p|..] && r2 == (q + r2)[|q|..];
  }

  lemma Utf8CharSeparates(c: char, d: char, r1: seq<Byte>, r2: seq<Byte>)
    requires Utf8Char(c) + r1 == Utf8Char(d) + r2
    ensures c == d && r1 == r2
  {
    assert (Utf8Char(c) + r1)[0] == Utf8Char(c)[0] && (Utf8Char(d) + r2)[0] == Utf8Char(d)[0];
    WidthTold(c);
    WidthTold(d);
    CancelBytes(Utf8Char(c), Utf8Char(d), r1, r2);
    Utf8CharInjective(c, d);
  }

  lemma {:induction false} Utf8Injective(s: string, t: string)
    requires Utf8(s) == Utf8(t)
    ensures s == t
  {
    if s != "" && t != "" {
      Utf8CharSeparates(s[0], t[0], Utf8(s[1..]), Utf8(t[1..]));
      Utf8Injective(s[1..], t[1..]);
      assert s == [s[0]] + s[1..] && t == [t[0]] + t[1..];
    }
  }

  lemma AssociateBytes(a: seq<Byte>, b: seq<Byte>, c: seq<Byte>)
    ensures (a + b) + c == a + (b + c)
  {
  }

  lemma {:induction false} Utf8Append(s: string, t: string)
    ensures Utf8(s + t) == Utf8(s) + Utf8(t)
  {
    if s == "" {
      assert s + t == t && Utf8(s) + Utf8(t) == Utf8(t);
    } else {
      Utf8Append(s[1..], t);
      assert (s + t)[0] == s[0] && (s + t)[1..] == s[1..] + t;
      AssociateBytes(Utf8Char(s[0]), Utf8(s[1..]), Utf8(t));
    }
  }

  // Percent-encoding, as `encodeURIComponent` does it.

  predicate IsUnreserved(c: char) {
    'A' <= c <= 'Z' || 'a' <= c <= 'z' || '0' <= c <= '9' || c in {'-', '_', '.', '!', '~', '*', '\'', '(', ')'}
  }

  function UpperHex(d: int): char
    requires 0 <= d < 16
  {
    if d < 10 then '0' + d as char else 'A' + (d - 10) as char
  }

  function Octet(b: Byte): (s: string)
    ensures |s| == 3
  {
    ['%', UpperHex(b / 16), UpperHex(b % 16)]
  }

  function Octets(bytes: seq<Byte>): (s: string)
    ensures |s| == 3 * |bytes|
  {
    if bytes == [] then "" else Octet(bytes[0]) + Octets(bytes[1..])
  }

  function PercentChar(c: char): (s: string)
    ensures s != ""
  {
    if IsUnreserved(c) then [c] else Octets(Utf8Char(c))
  }

  function Percent(s: string): string {
    if s == "" then "" else PercentChar(s[0]) + Percent(s[1..])
  }

  /** Exactly the unreserved characters stay as they are. */
  lemma {:induction false} PercentKeeps(s: string)
    ensures Percent(s) == s <==> forall i :: 0 <= i < |s| ==> IsUnreserved(s[i])
    ensures |Percent(s)| >= |s|
  {
    if s != "" {
      PercentKeeps(s[1..]);
      assert |PercentChar(s[0])| == 1 <==> IsUnreserved(s[0]);
      assert |Percent(s)| == |PercentChar(s[0])| + |Percent(s[1..])|;
      if IsUnreserved(s[0]) {
        assert Percent(s)[1..] == Percent(s[1..]);
        assert Percent(s) == s <==> Percent(s[1..]) == s[1..];
      }
      assert forall i :: 1 <= i < |s| ==> s[i] == s[1..][i - 1];
    }
  }

  lemma OctetInjective(b: Byte, d: Byte)
    requires Octet(b) == Octet(d)
    ensures b == d
  {
    assert Octet(b)[1] == Octet(d)[1] && Octet(b)[2] == Octet(d)[2];
  }

  lemma CancelText(p: string, q: string, r1: string, r2: string)
    requires p + r1 == q + r2 && |p| == |q|
    ensures p == q && r1 == r2
  {
    assert p == (p + r1)[..|p|] && q == (q + r2)[..|p|];
    Cancel(p, r1, r2);
  }

  /** Octets are read back as long as there are as many. */
  lemma {:induction false} OctetsSeparate(a: seq<Byte>, b: seq<Byte>, r1: string, r2: string)
    requires |a| == |b| && Octets(a) + r1 == Octets(b) + r2
    ensures a == b && r1 == r2
  {
    if a == [] {
      Cancel("", r1, r2);
    } else {
      Associate(Octet(a[0]), Octets(a[1..]), r1);
      Associate(Octet(b[0]), Octets(b[1..]), r2);
      CancelText(Octet(a[0]), Octet(b[0]), Octets(a[1..]) + r1, Octets(b[1..]) + r2);
      OctetInjective(a[0], b[0]);
      OctetsSeparate(a[1..], b[1..], r1, r2);
      assert a == [a[0]] + a[1..] && b == [b[0]] + b[1..];
    }
  }

  lemma PercentCharSeparates(c: char, d: char, r1: string, r2: string)
    requires PercentChar(c) + r1 == PercentChar(d) + r2
    ensures c == d && r1 == r2
  {
    var x, y := PercentChar(c) + r1, PercentChar(d) + r2;
    assert x[0] == PercentChar(c)[0] && y[0] == PercentChar(d)[0];
    if IsUnreserved(c) || IsUnreserved(d) {
      Cancel([c], r1, r2);
    } else {
      var a, b := Utf8Char(c), Utf8Char(d);
      FirstOctet(a, r1);
      FirstOctet(b, r2);
      OctetInjective(a[0], b[0]);
      WidthTold(c);
      WidthTold(d);
      OctetsSeparate(a, b, r1, r2);
      Utf8CharInjective(c, d);
    }
  }

  lemma FirstOctet(bytes: seq<Byte>, r: string)
    requires bytes != []
    ensures (Octets(bytes) + r)[..3] == Octet(bytes[0])
  {
    assert (Octets(bytes) + r)[..3] == Octets(bytes)[..3] == Octet(bytes[0]);
  }

  lemma {:induction false} PercentInjective(s: string, t: string)
    requires Percent(s) == Percent(t)
    ensures s == t
  {
    if s != "" && t != "" {
      PercentCharSeparates(s[0], t[0], Percent(s[1..]), Percent(t[1..]));
      PercentInjective(s[1..], t[1..]);
      assert s == [s[0]] + s[1..] && t == [t[0]] + t[1..];
    }
  }

  predicate NoColon(s: string) {
    forall i :: 0 <= i < |s| ==> s[i] != ':'
  }

  lemma {:induction false} OctetsHaveNoColon(bytes: seq<Byte>)
    ensures NoColon(Octets(bytes))
  {
    if bytes != [] {
      OctetsHaveNoColon(bytes[1..]);
    }
  }

  lemma {:induction false} PercentHasNoColon(s: string)
    ensures NoColon(Percent(s))
  {
    if s != "" {
      OctetsHaveNoColon(Utf8Char(s[0]));
      PercentHasNoColon(s[1..]);
    }
  }

  // The store key.

  /** `join(':')` */
  function Colons(parts: seq<string>): string {
    if parts == [] then "" else if |parts| == 1 then parts[0] else parts[0] + (":" + Colons(parts[1..]))
  }

  function Encoded(parts: seq<string>): (encoded: seq<string>)
    ensures |encoded| == |parts| && forall i :: 0 <= i < |parts| ==> encoded[i] == Percent(parts[i])
  {
    seq(|parts|, i requires 0 <= i < |parts| => Percent(parts[i]))
  }

  function Optional(part: Option<string>): seq<string> {
    if part.Some? && part.value != "" then [part.value] else []
  }

  function KeyParts(scope: Option<string>, key: string, suffix: Option<string>): seq<string> {
    Optional(scope) + [key] + Optional(suffix)
  }

  function StoreKey(scope: Option<string>, key: string, suffix: Option<string>): string {
    Colons(Encoded(KeyParts(scope, key, suffix)))
  }

  predicate AllNoColon(parts: seq<string>) {
    forall i :: 0 <= i < |parts| ==> NoColon(parts[i])
  }

  function UpToColon(s: string): nat {
    if s == "" || s[0] == ':' then 0 else 1 + UpToColon(s[1..])
  }

  lemma {:induction false} ColonFound(x: string, r: string)
    requires NoColon(x) && (r == "" || r[0] == ':')
    ensures UpToColon(x + r) == |x|
  {
    if x == "" {
      assert x + r == r;
    } else {
      ColonFound(x[1..], r);
      assert (x + r)[1..] == x[1..] + r;
    }
  }

  function AfterFirst(parts: seq<string>): (rest: string)
    requires parts != []
    ensures rest == "" <==> |parts| == 1
  {
    if |parts| == 1 then "" else ":" + Colons(parts[1..])
  }

  lemma FirstPart(parts: seq<string>)
    requires parts != [] && AllNoColon(parts)
    ensures Colons(parts) == parts[0] + AfterFirst(parts)
    ensures UpToColon(Colons(parts)) == |parts[0]|
  {
    assert NoColon(parts[0]);
    ColonFound(parts[0], AfterFirst(parts));
    if |parts| == 1 {
      assert parts[0] + "" == parts[0];
    }
  }

  lemma HeadsAgree(a: seq<string>, b: seq<string>)
    requires a != [] && b != [] && AllNoColon(a) && AllNoColon(b) && Colons(a) == Colons(b)
    ensures a[0] == b[0] && AfterFirst(a) == AfterFirst(b)
  {
    FirstPart(a);
    FirstPart(b);
    CancelText(a[0], b[0], AfterFirst(a), AfterFirst(b));
  }

  lemma {:induction false} ColonsInjective(a: seq<string>, b: seq<string>)
    requires a != [] && b != [] && AllNoColon(a) && AllNoColon(b) && Colons(a) == Colons(b)
    ensures a == b
  {
    HeadsAgree(a, b);
    if |a| > 1 {
      Cancel(":", Colons(a[1..]), Colons(b[1..]));
      ColonsInjective(a[1..], b[1..]);
      assert a == [a[0]] + a[1..] && b == [b[0]] + b[1..];
    }
  }

  lemma EncodedInjective(a: seq<string>, b: seq<string>)
    requires Encoded(a) == Encoded(b)
    ensures a == b
  {
    assert |a| == |Encoded(a)| == |b|;
    forall i | 0 <= i < |a|
      ensures a[i] == b[i]
    {
      assert Encoded(a)[i] == Encoded(b)[i];
      PercentInjective(a[i], b[i]);
    }
  }

  /** Exactly when two calls share a store key: the parts that are there are the same, in order. */
  lemma SameStoreKey(s1: Option<string>, k1: string, x1: Option<string>, s2: Option<string>, k2: string, x2: Option<string>)
    ensures StoreKey(s1, k1, x1) == StoreKey(s2, k2, x2) <==> KeyParts(s1, k1, x1) == KeyParts(s2, k2, x2)
  {
    var a, b := KeyParts(s1, k1, x1), KeyParts(s2, k2, x2);
    if StoreKey(s1, k1, x1) == StoreKey(s2, k2, x2) {
      forall i | 0 <= i < |a| ensures NoColon(Encoded(a)[i]) { PercentHasNoColon(a[i]); }
      forall i | 0 <= i < |b| ensures NoColon(Encoded(b)[i]) { PercentHasNoColon(b[i]); }
      ColonsInjective(Encoded(a), Encoded(b));
      EncodedInjective(a, b);
    }
  }

  /** With or without a suffix on both sides, the store key gives back scope, key and suffix. */
  lemma StoreKeyInjective(s1: Option<string>, k1: string, x1: Option<string>, s2: Option<string>, k2: string, x2: Option<string>)
    requires StoreKey(s1, k1, x1) == StoreKey(s2, k2, x2)
    requires Optional(x1) == [] <==> Optional(x2) == []
    ensures Optional(s1) == Optional(s2) && k1 == k2 && Optional(x1) == Optional(x2)
  {
    SameStoreKey(s1, k1, x1, s2, k2, x2);
    var a, b := KeyParts(s1, k1, x1), KeyParts(s2, k2, x2);
    assert |a| == |b|;
    assert a[|a| - 1 - |Optional(x1)|] == k1 && b[|b| - 1 - |Optional(x2)|] == k2;
    assert Optional(s1) == a[..|Optional(s1)|] && Optional(s2) == b[..|Optional(s2)|];
    assert Optional(x1) == a[|Optional(s1)| + 1..] && Optional(x2) == b[|Optional(s2)| + 1..];
  }

  /** An empty scope or suffix is no part of the key; the client's key always is. */
  lemma EmptyIsAbsent(key: string)
    ensures StoreKey(Some(""), key, Some("")) == Percent(key)
    ensures StoreKey(None, key, None) == Percent(key)
    ensures StoreKey(None, "", None) == ""
  {
    assert KeyParts(Some(""), key, Some("")) == [key] && KeyParts(None, key, None) == [key] && KeyParts(None, "", None) == [""];
  }

  lemma ColonsOfTwo(x: string, y: string)
    ensures Colons([x, y]) == x + (":" + y)
  {
    assert [x, y][1..] == [y];
  }

  lemma ColonsOfThree(x: string, y: string, z: string)
    ensures Colons([x, y, z]) == x + (":" + (y + (":" + z)))
  {
    assert [x, y, z][1..] == [y, z];
    ColonsOfTwo(y, z);
  }

  /** A scope, a key and a suffix, each percent-encoded, with a colon between them. */
  lemma StoreKeyForm(scope: string, key: string, suffix: string)
    requires scope != "" && suffix != ""
    ensures StoreKey(Some(scope), key, Some(suffix)) == Percent(scope) + (":" + (Percent(key) + (":" + Percent(suffix))))
    ensures StoreKey(Some(scope), key, None) == Percent(scope) + (":" + Percent(key))
  {
    var (x, y, z) := (Percent(scope), Percent(key), Percent(suffix));
    assert KeyParts(Some(scope), key, Some(suffix)) == [scope, key, suffix];
    assert KeyParts(Some(scope), key, None) == [scope, key];
    assert Encoded([scope, key, suffix]) == [x, y, z] && Encoded([scope, key]) == [x, y];
    ColonsOfTwo(x, y);
    ColonsOfThree(x, y, z);
  }

  /** Across shapes it does not: a scope before one key reads like a suffix behind another. */
  lemma ShapesCollide(scope: string, key: string)
    requires scope != "" && key != ""
    ensures StoreKey(Some(scope), key, None) == StoreKey(None, scope, Some(key))
  {
    SameStoreKey(Some(scope), key, None, None, scope, Some(key));
  }

  // The fingerprint.

  /** What is hashed: every part behind its length in bytes. */
  function Framing(parts: seq<string>): string {
    if parts == [] then "" else NatText(|Utf8(parts[0])|) + (":" + (parts[0] + Framing(parts[1..])))
  }

  lemma LengthsSeparate(n: nat, m: nat, r1: string, r2: string)
    requires NatText(n) + (":" + r1) == NatText(m) + (":" + r2)
    ensures n == m && r1 == r2
  {
    ColonFound(NatText(n), ":" + r1);
    ColonFound(NatText(m), ":" + r2);
    CancelText(NatText(n), NatText(m), ":" + r1, ":" + r2);
    Cancel(":", r1, r2);
    NatRoundTrip(n);
    NatRoundTrip(m);
  }

  lemma {:induction false} LongerHasMoreBytes(p: string, r: string)
    ensures |Utf8(p + r)| == |Utf8(p)| + |Utf8(r)| && |Utf8(r)| >= |r|
    decreases |r|
  {
    Utf8Append(p, r);
    if r != "" {
      LongerHasMoreBytes("", r[1..]);
      assert "" + r[1..] == r[1..];
    }
  }

  /** Two texts of the same length in bytes at the front of the same text are the same. */
  lemma SameBytesSeparate(p: string, q: string, r1: string, r2: string)
    requires |Utf8(p)| == |Utf8(q)| && p + r1 == q + r2
    ensures p == q && r1 == r2
  {
    if |p| <= |q| {
      assert p == (p + r1)[..|p|] && q[..|p|] == (q + r2)[..|p|];
      assert q == p + q[|p|..];
      LongerHasMoreBytes(p, q[|p|..]);
    } else {
      assert q == (q + r2)[..|q|] && p[..|q|] == (p + r1)[..|q|];
      assert p == q + p[|q|..];
      LongerHasMoreBytes(q, p[|q|..]);
    }
    CancelText(p, q, r1, r2);
  }

  /** Parts cannot run into each other: the framing is one list of parts only. */
  lemma {:induction false} FramingInjective(a: seq<string>, b: seq<string>)
    requires Framing(a) == Framing(b)
    ensures a == b
  {
    if a != [] && b != [] {
      LengthsSeparate(|Utf8(a[0])|, |Utf8(b[0])|, a[0] + Framing(a[1..]), b[0] + Framing(b[1..]));
      SameBytesSeparate(a[0], b[0], Framing(a[1..]), Framing(b[1..]));
      FramingInjective(a[1..], b[1..]);
      assert a == [a[0]] + a[1..] && b == [b[0]] + b[1..];
    }
  }

  /** The hash as it is fed: the length of each part, then the part. */
  method Sha256(hash: seq<Byte> -> string, parts: seq<string>) returns (digest: string)
    ensures digest == hash(Utf8(Framing(parts)))
  {
    var fed: seq<Byte> := [];
    assert parts[0..] == parts;
    for i := 0 to |parts|
      invariant fed + Utf8(Framing(parts[i..])) == Utf8(Framing(parts))
    {
      FramingStep(parts, i, fed);
      fed := fed + Utf8(NatText(|Utf8(parts[i])|) + ":") + Utf8(parts[i]);
    }
    assert parts[|parts|..] == [] && fed + [] == fed;
    digest := hash(fed);
  }

  lemma FrameBytes(length: string, part: string, rest: string)
    ensures Utf8(length + (":" + (part + rest))) == Utf8(length + ":") + (Utf8(part) + Utf8(rest))
  {
    Associate(length, ":", part + rest);
    Utf8Append(length + ":", part + rest);
    Utf8Append(part, rest);
  }

  lemma FramingStep(parts: seq<string>, i: nat, fed: seq<Byte>)
    requires i < |parts|
    ensures fed + Utf8(Framing(parts[i..])) ==
      fed + Utf8(NatText(|Utf8(parts[i])|) + ":") + Utf8(parts[i]) + Utf8(Framing(parts[i + 1..]))
  {
    var length, rest := NatText(|Utf8(parts[i])|), Framing(parts[i + 1..]);
    assert parts[i..][0] == parts[i] && parts[i..][1..] == parts[i + 1..];
    FrameBytes(length, parts[i], rest);
    AssociateBytes(fed, Utf8(length + ":"), Utf8(parts[i]) + Utf8(rest));
    AssociateBytes(fed + Utf8(length + ":"), Utf8(parts[i]), Utf8(rest));
  }

  ghost predicate CollisionFree(hash: seq<Byte> -> string) {
    forall a, b :: hash(a) == hash(b) ==> a == b
  }

  /** What a call targets: method and URL, field, or message pattern. */
  datatype Target = Http(verb: string, url: string) | Graphql(field: string) | Rpc(pattern: string)

  function Upper(s: string): (u: string)
    ensures |u| == |s| && forall i :: 0 <= i < |u| ==> !('a' <= u[i] <= 'z')
  {
    seq(|s|, i requires 0 <= i < |s| => if 'a' <= s[i] <= 'z' then s[i] - 'a' + 'A' else s[i])
  }

  /** Lower-case letters move to the upper case, each to its own place in the alphabet; nothing else changes. */
  lemma UpperExactly(s: string, i: nat)
    requires i < |s|
    ensures 'a' <= s[i] <= 'z' ==> 'A' <= Upper(s)[i] <= 'Z' && Upper(s)[i] as int - 'A' as int == s[i] as int - 'a' as int
    ensures !('a' <= s[i] <= 'z') ==> Upper(s)[i] == s[i]
  {
  }

  predicate IsUpper(s: string) {
    forall i :: 0 <= i < |s| ==> !('a' <= s[i] <= 'z')
  }

  /** Calls with upper-case verbs have one identity exactly if verb and URL are the same. */
  lemma VerbsDiffer(verb1: string, url1: string, verb2: string, url2: string)
    requires IsUpper(verb1) && IsUpper(verb2)
    ensures IdentityOf(Http(verb1, url1)) == IdentityOf(Http(verb2, url2)) <==> verb1 == verb2 && url1 == url2
  {
    assert Upper(verb1) == verb1 && Upper(verb2) == verb2;
    if IdentityOf(Http(verb1, url1)) == IdentityOf(Http(verb2, url2)) {
      assert [verb1, url1][0] == [verb2, url2][0] && [verb1, url1][1] == [verb2, url2][1];
    }
  }

  function IdentityOf(target: Target): (parts: seq<string>)
    ensures |parts| == 2
  {
    match target
    case Http(verb, url) => [Upper(verb), url]
    case Graphql(field) => ["graphql", field]
    case Rpc(pattern) => ["rpc", pattern]
  }

  /** A call as it is keyed: a scope that was given is not empty. */
  datatype Call = Call(scope: Option<string>, key: string, suffix: Option<string>, target: Target, text: string) {
    predicate Normalized() { scope != Some("") }

    function RecordKey(): string { StoreKey(scope, key, suffix) }

    function Preimage(): seq<string> {
      [if scope.Some? then scope.value else ""] + IdentityOf(target) + [text]
    }

    function Fingerprint(hash: seq<Byte> -> string): string { hash(Utf8(Framing(Preimage()))) }
  }

  lemma FingerprintSeparates(hash: seq<Byte> -> string, c: Call, d: Call)
    requires CollisionFree(hash) && c.Normalized() && d.Normalized()
    ensures c.Fingerprint(hash) == d.Fingerprint(hash) <==>
      c.scope == d.scope && IdentityOf(c.target) == IdentityOf(d.target) && c.text == d.text
  {
    if c.Fingerprint(hash) == d.Fingerprint(hash) {
      Utf8Injective(Framing(c.Preimage()), Framing(d.Preimage()));
      FramingInjective(c.Preimage(), d.Preimage());
      var p, q := c.Preimage(), d.Preimage();
      assert p[0] == q[0] && p[1] == q[1] && p[2] == q[2] && p[3] == q[3];
      assert IdentityOf(c.target) == [p[1], p[2]] && IdentityOf(d.target) == [q[1], q[2]];
    }
  }

  /** Calls to different kinds of targets are never taken for each other. */
  lemma KindsDiffer(t: Target, u: Target)
    requires IdentityOf(t) == IdentityOf(u)
    ensures t.Http? <==> u.Http?
    ensures t.Graphql? <==> u.Graphql?
    ensures !t.Http? ==> t == u
    ensures t.Http? ==> Upper(t.verb) == Upper(u.verb) && t.url == u.url
  {
    var a, b := IdentityOf(t)[0], IdentityOf(u)[0];
    assert "graphql"[0] == 'g' && "rpc"[0] == 'r';
    assert t.Http? && a != "" ==> !('a' <= a[0] <= 'z');
    assert u.Http? && b != "" ==> !('a' <= b[0] <= 'z');
  }

  /**
   * Key separation: two calls share a record key and a fingerprint exactly
   * when they agree on scope, key, suffix, target and payload text, also
   * where their store keys alone would collide.
   */
  lemma SeparateCalls(hash: seq<Byte> -> string, c: Call, d: Call)
    requires CollisionFree(hash) && c.Normalized() && d.Normalized()
    ensures c.RecordKey() == d.RecordKey() && c.Fingerprint(hash) == d.Fingerprint(hash) <==>
      && c.scope == d.scope && c.key == d.key && Optional(c.suffix) == Optional(d.suffix)
      && IdentityOf(c.target) == IdentityOf(d.target) && c.text == d.text
  {
    FingerprintSeparates(hash, c, d);
    SameStoreKey(c.scope, c.key, c.suffix, d.scope, d.key, d.suffix);
    if c.RecordKey() == d.RecordKey() && c.Fingerprint(hash) == d.Fingerprint(hash) {
      var a, b, n := KeyParts(c.scope, c.key, c.suffix), KeyParts(d.scope, d.key, d.suffix), |Optional(c.scope)|;
      assert a[n] == c.key && b[n] == d.key;
      assert a[n + 1..] == Optional(c.suffix) && b[n + 1..] == Optional(d.suffix);
    }
  }
}
