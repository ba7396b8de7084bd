/** Quoted strings, words and lists as text, and why each can be read off the front of a longer text. */
module JsonText {
  function HexDigit(d: int): char
    requires 0 <= d < 16
  {
    if d < 10 then '0' + d as char else 'a' + (d - 10) as char
  }

  /** A character inside a JSON string, as `JSON.stringify` writes it. */
  function Escape(c: char): (s: string)
    ensures s != "" && s[0] != '"'
  {
    if c == '"' then "\\\""
    else if c == '\\' then "\\\\"
    else if c as int == 8 then "\\b"
    else if c as int == 9 then "\\t"
    else if c as int == 10 then "\\n"
    else if c as int == 12 then "\\f"
    else if c as int == 13 then "\\r"
    else if (c as int) < 32 then "\\u00" + [HexDigit(c as int / 16), HexDigit(c as int % 16)]
    else [c]
  }

  /** The characters of a string, escaped, and the closing quote. */
  function Quoting(s: string): (text: string)
    ensures text != ""
  {
    if s == "" then "\"" else Escape(s[0]) + Quoting(s[1..])
  }

  function Quote(s: string): string {
    "\"" + Quoting(s)
  }

  lemma EscapeSeparates(c: char, d: char, r1: string, r2: string)
    requires Escape(c) + r1 == Escape(d) + r2
    ensures c == d && r1 == r2
  {
    var x, y := Escape(c) + r1, Escape(d) + r2;
    assert x[0] == Escape(c)[0] && y[0] == Escape(d)[0];
    if |Escape(c)| > 1 && |Escape(d)| > 1 {
      assert x[1] == Escape(c)[1] && y[1] == Escape(d)[1];
      if |Escape(c)| == 6 && |Escape(d)| == 6 {
        assert x[4] == Escape(c)[4] && y[4] == Escape(d)[4];
        assert x[5] == Escape(c)[5] && y[5] == Escape(d)[5];
      }
    }
    assert c == d;
    Cancel(Escape(c), r1, r2);
  }

  lemma Cancel(p: string, r1: string, r2: string)
    requires p + r1 == p + r2
    ensures r1 == r2
  {
    assert r1 == (p + r1)[|p|..] && r2 == (p + r2)[|p|..];
  }

  lemma Associate(a: string, b: string, c: string)
    ensures (a + b) + c == a + (b + c)
  {
  }

  lemma {:induction false} QuotingSeparates(s: string, t: string, r1: string, r2: string)
    requires Quoting(s) + r1 == Quoting(t) + r2
    ensures s == t && r1 == r2
  {
    assert (Quoting(s) + r1)[0] == Quoting(s)[0] && (Quoting(t) + r2)[0] == Quoting(t)[0];
    if s == "" && t == "" {
      Cancel("\"", r1, r2);
    } else if s != "" && t != "" {
      Associate(Escape(s[0]), Quoting(s[1..]), r1);
      Associate(Escape(t[0]), Quoting(t[1..]), r2);
      EscapeSeparates(s[0], t[0], Quoting(s[1..]) + r1, Quoting(t[1..]) + r2);
      QuotingSeparates(s[1..], t[1..], r1, r2);
      assert s == [s[0]] + s[1..] && t == [t[0]] + t[1..];
    }
  }

  /** A quoted string ends where its closing quote is, whatever follows. */
  lemma QuoteSeparates(s: string, t: string, r1: string, r2: string)
    requires Quote(s) + r1 == Quote(t) + r2
    ensures s == t && r1 == r2
  {
    Associate("\"", Quoting(s), r1);
    Associate("\"", Quoting(t), r2);
    Cancel("\"", Quoting(s) + r1, Quoting(t) + r2);
    QuotingSeparates(s, t, r1, r2);
  }

  predicate IsDelimiter(c: char) { c in {',', ']', '}'} }

  /** What can follow a value in a text: nothing, or a delimiter. */
  predicate IsRest(r: string) { r == "" || IsDelimiter(r[0]) }

  /** However the two texts go on, they are the same text if the whole is. */
  ghost predicate Separable(x: string, y: string) {
    forall r1, r2 :: IsRest(r1) && IsRest(r2) && x + r1 == y + r2 ==> x == y
  }

  /** A value's text begins with something of its own. */
  predicate Begins(x: string) { x != "" && !IsDelimiter(x[0]) }

  predicate IsWordChar(c: char) {
    'a' <= c <= 'z' || 'A' <= c <= 'Z' || '0' <= c <= '9' || c in {'-', '+', '.', '_'}
  }

  predicate IsWord(x: string) {
    x != "" && forall i :: 0 <= i < |x| ==> IsWordChar(x[i])
  }

  function RunLength(s: string): (n: nat)
  {
    if s == "" || !IsWordChar(s[0]) then 0 else 1 + RunLength(s[1..])
  }

  lemma {:induction false} RunEnds(x: string, r: string)
    requires forall i :: 0 <= i < |x| ==> IsWordChar(x[i])
    requires r == "" || !IsWordChar(r[0])
    ensures RunLength(x + r) == |x|
  {
    if x == "" {
      assert x + r == r;
    } else {
      RunEnds(x[1..], r);
      assert (x + r)[1..] == x[1..] + r;
    }
  }

  /** Two runs of word characters end where the first other character is. */
  lemma RunsSeparate(x: string, y: string, r1: string, r2: string)
    requires forall i :: 0 <= i < |x| ==> IsWordChar(x[i])
    requires forall i :: 0 <= i < |y| ==> IsWordChar(y[i])
    requires r1 == "" || !IsWordChar(r1[0])
    requires r2 == "" || !IsWordChar(r2[0])
    requires x + r1 == y + r2
    ensures x == y && r1 == r2
  {
    RunEnds(x, r1);
    RunEnds(y, r2);
    assert x == (x + r1)[..|x|] && y == (y + r2)[..|y|];
    Cancel(x, r1, r2);
  }

  lemma WordsSeparate(x: string, y: string)
    requires IsWord(x) && IsWord(y)
    ensures Separable(x, y)
  {
    forall r1, r2 | IsRest(r1) && IsRest(r2) && x + r1 == y + r2
      ensures x == y
    {
      RunsSeparate(x, y, r1, r2);
    }
  }

  /** `texts.join(',')` */
  function Join(texts: seq<string>): string {
    if texts == [] then "" else if |texts| == 1 then texts[0] else texts[0] + "," + Join(texts[1..])
  }

  ghost predicate AllSeparable(a: seq<string>, b: seq<string>) {
    && (forall i, j :: 0 <= i < |a| && 0 <= j < |b| ==> Separable(a[i], b[j]))
    && (forall i :: 0 <= i < |a| ==> Begins(a[i]))
    && (forall j :: 0 <= j < |b| ==> Begins(b[j]))
  }

  /** What follows the first text of a list. */
  function Tail(texts: seq<string>, after: string): string
    requires texts != []
  {
    if |texts| == 1 then after else "," + Join(texts[1..]) + after
  }

  lemma JoinHead(texts: seq<string>, after: string)
    requires texts != []
    ensures Join(texts) + after == texts[0] + Tail(texts, after)
  {
    if |texts| > 1 {
      assert texts[0] + "," + Join(texts[1..]) + after == texts[0] + ("," + Join(texts[1..]) + after);
    }
  }

  predicate Closes(after: string) { after != "" && after[0] in {']', '}'} }

  lemma HeadsSeparate(a: seq<string>, b: seq<string>, after1: string, after2: string)
    requires AllSeparable(a, b) && Closes(after1) && Closes(after2) && a != [] && b != []
    requires Join(a) + after1 == Join(b) + after2
    ensures a[0] == b[0] && Tail(a, after1) == Tail(b, after2)
  {
    JoinHead(a, after1);
    JoinHead(b, after2);
    assert Separable(a[0], b[0]);
    Cancel(a[0], Tail(a, after1), Tail(b, after2));
  }

  lemma TailsSeparate(a: seq<string>, b: seq<string>, after1: string, after2: string)
    requires Closes(after1) && Closes(after2) && a != [] && b != []
    requires Tail(a, after1) == Tail(b, after2)
    ensures |a| == 1 <==> |b| == 1
    ensures |a| == 1 ==> after1 == after2
    ensures |a| > 1 ==> Join(a[1..]) + after1 == Join(b[1..]) + after2
  {
    if |a| > 1 && |b| > 1 {
      Associate(",", Join(a[1..]), after1);
      Associate(",", Join(b[1..]), after2);
      Cancel(",", Join(a[1..]) + after1, Join(b[1..]) + after2);
    }
  }

  lemma EmptyListsSeparate(b: seq<string>, after1: string, after2: string)
    requires b != [] && Begins(b[0]) && Closes(after1)
    ensures Join([]) + after1 != Join(b) + after2
  {
    JoinHead(b, after2);
    assert (Join([]) + after1)[0] == after1[0] && (b[0] + Tail(b, after2))[0] == b[0][0];
  }

  /** A list is read back part by part, up to the delimiter that closes it. */
  lemma {:induction false} JoinSeparates(a: seq<string>, b: seq<string>, after1: string, after2: string)
    requires AllSeparable(a, b) && Closes(after1) && Closes(after2)
    requires Join(a) + after1 == Join(b) + after2
    ensures a == b && after1 == after2
  {
    if a == [] && b == [] {
      Cancel("", after1, after2);
    } else if a == [] {
      EmptyListsSeparate(b, after1, after2);
    } else if b == [] {
      EmptyListsSeparate(a, after2, after1);
    } else {
      HeadsSeparate(a, b, after1, after2);
      TailsSeparate(a, b, after1, after2);
      if |a| > 1 {
        JoinSeparates(a[1..], b[1..], after1, after2);
      }
      assert a == [a[0]] + a[1..] && b == [b[0]] + b[1..];
    }
  }
}
