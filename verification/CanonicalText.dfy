/** The canonical text of a payload, and exactly which payloads share one. */
module CanonicalText {
  import opened Wrappers
  import opened JsValues
  import opened Decimal
  import opened Sorting
  import opened JsonText

  /** What stands for something without content to compare. */
  datatype Token = Stream | Promise | Cycle

  /** A payload as it is printed: values without parts, tokens, and compound values in their own order. */
  datatype Doc = Atom(value: Value) | Stub(token: Token) | Group(shape: Shape, kids: seq<Doc>)

  predicate IsAtom(v: Value) {
    v.Null? || v.Bool? || v.Num? || v.BigInt? || v.Str? || v.Bytes?
  }

  predicate WellFormedDoc(d: Doc) {
    match d
    case Atom(value) => IsAtom(value)
    case Stub(_) => true
    case Group(shape, kids) => Fits(shape, |kids|) && forall i :: 0 <= i < |kids| ==> WellFormedDoc(kids[i])
  }

  /** The digest of binary data, as base64url text, taken to be collision-free. */
  ghost predicate IdealDigest(digest: seq<Byte> -> string) {
    && (forall b :: forall i :: 0 <= i < |digest(b)| ==> IsWordChar(digest(b)[i]))
    && (forall b, c :: digest(b) == digest(c) ==> b == c)
  }

  function AtomText(digest: seq<Byte> -> string, v: Value): string
    requires IsAtom(v)
  {
    match v
    case Null => "null"
    case Bool(b) => if b then "true" else "false"
    case Num(text) => text
    case BigInt(n) => IntText(n) + "n"
    case Str(s) => Quote(s)
    case Bytes(bytes) => "<bytes " + digest(bytes) + ">"
  }

  function TokenText(token: Token): string {
    match token
    case Stream => "<stream>"
    case Promise => "<promise>"
    case Cycle => "<cycle>"
  }

  function Opening(shape: Shape): string {
    match shape
    case ArrayShape => "["
    case MapShape => "<map ["
    case SetShape => "<set ["
    case ObjectShape(_) => "{"
  }

  function Closing(shape: Shape): (close: string)
    ensures Closes(close)
  {
    match shape
    case ArrayShape => "]"
    case MapShape => "]>"
    case SetShape => "]>"
    case ObjectShape(_) => "}"
  }

  function EntryText(key: string, value: string): string {
    "[" + Join([key, value]) + "]"
  }

  function EntryTexts(texts: seq<string>): (entries: seq<string>)
    requires |texts| % 2 == 0
    ensures 2 * |entries| == |texts|
  {
    seq(|texts| / 2, i requires 0 <= i < |texts| / 2 => EntryText(texts[2 * i], texts[2 * i + 1]))
  }

  function MemberText(key: string, value: string): string {
    Quote(key) + ":" + value
  }

  /** The part that goes with a key. */
  function PartOf<T>(keys: seq<string>, parts: seq<T>, key: string): T
    requires |keys| == |parts| && key in keys
  {
    parts[IndexOf(keys, key).value]
  }

  function MemberTexts(keys: seq<string>, texts: seq<string>): (members: seq<string>)
    requires |keys| == |texts|
    ensures |members| == |keys|
  {
    var sorted := Sort(keys);
    seq(|keys|, i requires 0 <= i < |keys| =>
      assert sorted[i] in keys;
      MemberText(sorted[i], PartOf(keys, texts, sorted[i])))
  }

  /** The texts between the brackets, in the order they are written in. */
  function Items(shape: Shape, texts: seq<string>): seq<string>
    requires Fits(shape, |texts|)
  {
    match shape
    case ArrayShape => texts
    case MapShape => Sort(EntryTexts(texts))
    case SetShape => Sort(texts)
    case ObjectShape(keys) => MemberTexts(keys, texts)
  }

  function Frame(shape: Shape, texts: seq<string>): string
    requires Fits(shape, |texts|)
  {
    Opening(shape) + Join(Items(shape, texts)) + Closing(shape)
  }

  function Print(digest: seq<Byte> -> string, d: Doc): string
    requires WellFormedDoc(d)
  {
    match d
    case Atom(value) => AtomText(digest, value)
    case Stub(token) => TokenText(token)
    case Group(shape, kids) => Frame(shape, seq(|kids|, i requires 0 <= i < |kids| => Print(digest, kids[i])))
  }

  /** What a canonical text identifies: members by key, Map entries and Set items without their order. */
  datatype Canon =
    | Single(value: Value)
    | Blank(token: Token)
    | List(items: seq<Canon>)
    | Entries(entries: multiset<(Canon, Canon)>)
    | Bag(bag: multiset<Canon>)
    | Members(members: map<string, Canon>)

  function Gather(shape: Shape, parts: seq<Canon>): Canon
    requires Fits(shape, |parts|)
  {
    match shape
    case ArrayShape => List(parts)
    case MapShape => Entries(multiset(Pairs(parts)))
    case SetShape => Bag(multiset(parts))
    case ObjectShape(keys) => Members(ByKey(keys, parts))
  }

  function ByKey<T>(keys: seq<string>, parts: seq<T>): map<string, T>
    requires |keys| == |parts|
  {
    map key | key in keys :: PartOf(keys, parts, key)
  }

  function Norm(d: Doc): Canon
    requires WellFormedDoc(d)
  {
    match d
    case Atom(value) => Single(value)
    case Stub(token) => Blank(token)
    case Group(shape, kids) => Gather(shape, seq(|kids|, i requires 0 <= i < |kids| => Norm(kids[i])))
  }

  // The first characters of a text tell what kind of value it is.

  predicate IsWordAtom(d: Doc) { d.Atom? && !d.value.Str? && !d.value.Bytes? }

  function ShapeLead(shape: Shape): string {
    match shape
    case ArrayShape => "["
    case MapShape => "<ma"
    case SetShape => "<se"
    case ObjectShape(_) => "{"
  }

  function TokenLead(token: Token): string {
    match token
    case Stream => "<st"
    case Promise => "<pr"
    case Cycle => "<cy"
  }

  function Lead(d: Doc): string
    requires WellFormedDoc(d) && !IsWordAtom(d)
  {
    match d
    case Atom(value) => if value.Str? then "\"" else "<by"
    case Stub(token) => TokenLead(token)
    case Group(shape, _) => ShapeLead(shape)
  }

  lemma WordAtoms(digest: seq<Byte> -> string, d: Doc)
    requires WellFormedDoc(d) && IsWordAtom(d)
    ensures IsWord(Print(digest, d))
  {
    var n := if d.value.BigInt? then d.value.n else 0;
    assert AllDigits(NatText(if n < 0 then -n else n));
  }

  lemma OpeningLead(shape: Shape, rest: string)
    ensures ShapeLead(shape) <= Opening(shape) + rest
    ensures ShapeLead(shape)[0] in {'[', '{', '<'} && (|ShapeLead(shape)| == if ShapeLead(shape)[0] == '<' then 3 else 1)
  {
    var text := Opening(shape) + rest;
    assert text[0] == Opening(shape)[0];
    if shape.MapShape? || shape.SetShape? {
      assert text[1] == Opening(shape)[1] && text[2] == Opening(shape)[2];
    }
  }

  lemma Leads(digest: seq<Byte> -> string, d: Doc)
    requires WellFormedDoc(d) && !IsWordAtom(d)
    ensures Lead(d) <= Print(digest, d) && Lead(d)[0] in {'"', '[', '{', '<'}
    ensures |Lead(d)| == if Lead(d)[0] == '<' then 3 else 1
  {
    match d {
      case Atom(value) =>
        if value.Bytes? {
          var text := AtomText(digest, value);
          assert text[0] == '<' && text[1] == 'b' && text[2] == 'y';
        }
      case Stub(token) =>
      case Group(shape, kids) =>
        var texts := seq(|kids|, i requires 0 <= i < |kids| => Print(digest, kids[i]));
        Associate(Opening(shape), Join(Items(shape, texts)), Closing(shape));
        OpeningLead(shape, Join(Items(shape, texts)) + Closing(shape));
    }
  }

  lemma TextBegins(digest: seq<Byte> -> string, d: Doc)
    requires WellFormedDoc(d)
    ensures Begins(Print(digest, d))
  {
    if IsWordAtom(d) {
      WordAtoms(digest, d);
    } else {
      Leads(digest, d);
    }
  }

  lemma LeadsAgree(digest: seq<Byte> -> string, d1: Doc, d2: Doc, r1: string, r2: string)
    requires WellFormedDoc(d1) && WellFormedDoc(d2)
    requires Print(digest, d1) + r1 == Print(digest, d2) + r2
    ensures IsWordAtom(d1) <==> IsWordAtom(d2)
    ensures !IsWordAtom(d1) ==> Lead(d1) == Lead(d2)
  {
    var x, y := Print(digest, d1) + r1, Print(digest, d2) + r2;
    if IsWordAtom(d1) { WordAtoms(digest, d1); } else { Leads(digest, d1); }
    if IsWordAtom(d2) { WordAtoms(digest, d2); } else { Leads(digest, d2); }
    assert x[0] == Print(digest, d1)[0] && y[0] == Print(digest, d2)[0];
    if !IsWordAtom(d1) && !IsWordAtom(d2) {
      assert Lead(d1) == x[..|Lead(d1)|] && Lead(d2) == y[..|Lead(d2)|];
    }
  }

  /** What two texts have in common when they begin the same way. */
  lemma SameLead(d1: Doc, d2: Doc)
    requires WellFormedDoc(d1) && WellFormedDoc(d2) && !IsWordAtom(d1) && !IsWordAtom(d2)
    requires Lead(d1) == Lead(d2)
    ensures d1.Stub? || d2.Stub? ==> d1 == d2
    ensures d1.Atom? ==> d2.Atom? && (d1.value.Str? <==> d2.value.Str?)
    ensures d1.Group? ==> d2.Group? && Opening(d1.shape) == Opening(d2.shape) && Closing(d1.shape) == Closing(d2.shape)
    ensures d1.Group? ==>
      && (d1.shape.ArrayShape? <==> d2.shape.ArrayShape?) && (d1.shape.MapShape? <==> d2.shape.MapShape?)
      && (d1.shape.SetShape? <==> d2.shape.SetShape?) && (d1.shape.ObjectShape? <==> d2.shape.ObjectShape?)
  {
    var x, y := Lead(d1), Lead(d2);
    assert |x| == |y| && x[0] == y[0];
    if |x| == 3 {
      assert x[1] == y[1] && x[2] == y[2];
    }
  }

  // Atoms.

  lemma WordAtomsDiffer(digest: seq<Byte> -> string, d1: Doc, d2: Doc)
    requires WellFormedDoc(d1) && WellFormedDoc(d2) && IsWordAtom(d1) && IsWordAtom(d2)
    requires Print(digest, d1) == Print(digest, d2)
    ensures d1 == d2
  {
    var x, y := d1.value, d2.value;
    LastChar(digest, x);
    LastChar(digest, y);
    if x.BigInt? && y.BigInt? {
      IntRoundTrip(x.n);
      IntRoundTrip(y.n);
      var t := AtomText(digest, x);
      assert IntText(x.n) == t[..|t| - 1] && IntText(y.n) == t[..|t| - 1];
    }
  }

  lemma LastChar(digest: seq<Byte> -> string, v: Value)
    requires IsAtom(v) && !v.Str? && !v.Bytes?
    ensures var t := AtomText(digest, v); t != "" && (v.BigInt? ==> t[|t| - 1] == 'n' && IsNumStart(t[0]))
    ensures var t := AtomText(digest, v); v.Num? ==> t[|t| - 1] != 'n' && IsNumStart(t[0])
  {
    if v.Num? {
      var t: NumText := v.text;
      assert IsNumChar(t[|t| - 1]);
    } else if v.BigInt? {
      var n := v.n;
      assert AllDigits(NatText(if n < 0 then -n else n));
    }
  }

  lemma BytesSeparate(digest: seq<Byte> -> string, b: seq<Byte>, c: seq<Byte>, r1: string, r2: string)
    requires IdealDigest(digest)
    requires AtomText(digest, Bytes(b)) + r1 == AtomText(digest, Bytes(c)) + r2
    ensures b == c
  {
    BytesText(digest, b, r1);
    BytesText(digest, c, r2);
    Cancel("<bytes ", digest(b) + (">" + r1), digest(c) + (">" + r2));
    RunsSeparate(digest(b), digest(c), ">" + r1, ">" + r2);
  }

  lemma BytesText(digest: seq<Byte> -> string, b: seq<Byte>, r: string)
    ensures AtomText(digest, Bytes(b)) + r == "<bytes " + (digest(b) + (">" + r))
  {
    Associate("<bytes " + digest(b), ">", r);
    Associate("<bytes ", digest(b), ">" + r);
  }

  /** Texts of values without parts: equal only for the same value, whatever follows them. */
  lemma PlainDocsSeparate(digest: seq<Byte> -> string, d1: Doc, d2: Doc, r1: string, r2: string)
    requires IdealDigest(digest) && WellFormedDoc(d1) && WellFormedDoc(d2) && !d1.Group?
    requires IsRest(r1) && IsRest(r2) && Print(digest, d1) + r1 == Print(digest, d2) + r2
    ensures d1 == d2
  {
    LeadsAgree(digest, d1, d2, r1, r2);
    if IsWordAtom(d1) {
      WordAtoms(digest, d1);
      WordAtoms(digest, d2);
      WordsSeparate(Print(digest, d1), Print(digest, d2));
      WordAtomsDiffer(digest, d1, d2);
      return;
    }
    SameLead(d1, d2);
    if d1.Atom? && d1.value.Str? {
      QuoteSeparates(d1.value.s, d2.value.s, r1, r2);
    } else if d1.Atom? {
      BytesSeparate(digest, d1.value.bytes, d2.value.bytes, r1, r2);
    }
  }

  // Compound values.

  lemma EntriesSeparate(k1: string, v1: string, k2: string, v2: string, r1: string, r2: string)
    requires AllSeparable([k1, v1], [k2, v2])
    requires EntryText(k1, v1) + r1 == EntryText(k2, v2) + r2
    ensures k1 == k2 && v1 == v2 && r1 == r2
  {
    var a, b := [k1, v1], [k2, v2];
    Associate("[" + Join(a), "]", r1);
    Associate("[", Join(a), "]" + r1);
    Associate("[" + Join(b), "]", r2);
    Associate("[", Join(b), "]" + r2);
    Cancel("[", Join(a) + ("]" + r1), Join(b) + ("]" + r2));
    JoinSeparates(a, b, "]" + r1, "]" + r2);
    Cancel("]", r1, r2);
    assert a[0] == b[0] && a[1] == b[1];
  }

  lemma EntrySeparable(k1: string, v1: string, k2: string, v2: string)
    requires AllSeparable([k1, v1], [k2, v2])
    ensures Separable(EntryText(k1, v1), EntryText(k2, v2))
  {
    forall r1, r2 | IsRest(r1) && IsRest(r2) && EntryText(k1, v1) + r1 == EntryText(k2, v2) + r2
      ensures EntryText(k1, v1) == EntryText(k2, v2)
    {
      EntriesSeparate(k1, v1, k2, v2, r1, r2);
    }
  }

  /** The two parts of an entry are as separable as the lists they come from. */
  lemma PartsSeparable(a: seq<string>, b: seq<string>, i: nat, j: nat)
    requires AllSeparable(a, b) && i + 1 < |a| && j + 1 < |b|
    ensures AllSeparable([a[i], a[i + 1]], [b[j], b[j + 1]])
  {
    SubsetSeparates(a, b, [a[i], a[i + 1]], [b[j], b[j + 1]]);
  }

  lemma EntryAt(texts: seq<string>, i: nat)
    requires |texts| % 2 == 0 && 2 * i < |texts|
    ensures EntryTexts(texts)[i] == EntryText(texts[2 * i], texts[2 * i + 1])
    ensures Begins(EntryTexts(texts)[i])
  {
    assert EntryTexts(texts)[i][0] == '[';
  }

  lemma EntryTextsSeparate(a: seq<string>, b: seq<string>)
    requires AllSeparable(a, b) && |a| % 2 == 0 && |b| % 2 == 0
    ensures AllSeparable(EntryTexts(a), EntryTexts(b))
  {
    var x, y, n, m := EntryTexts(a), EntryTexts(b), |a| / 2, |b| / 2;
    forall i | 0 <= i < n ensures Begins(x[i]) { EntryAt(a, i); }
    forall j | 0 <= j < m ensures Begins(y[j]) { EntryAt(b, j); }
    forall i, j | 0 <= i < n && 0 <= j < m
      ensures Separable(x[i], y[j])
    {
      EntryAt(a, i);
      EntryAt(b, j);
      PartsSeparable(a, b, 2 * i, 2 * j);
      EntrySeparable(a[2 * i], a[2 * i + 1], b[2 * j], b[2 * j + 1]);
    }
  }

  lemma SubsetSeparates(a: seq<string>, b: seq<string>, x: seq<string>, y: seq<string>)
    requires AllSeparable(a, b)
    requires forall s :: s in x ==> s in a
    requires forall s :: s in y ==> s in b
    ensures AllSeparable(x, y)
  {
    forall i, j | 0 <= i < |x| && 0 <= j < |y|
      ensures Separable(x[i], y[j])
    {
      assert x[i] in a && y[j] in b;
    }
    forall i | 0 <= i < |x|
      ensures Begins(x[i])
    {
      assert x[i] in a;
    }
    forall j | 0 <= j < |y|
      ensures Begins(y[j])
    {
      assert y[j] in b;
    }
  }

  lemma MembersSeparate(k1: string, v1: string, k2: string, v2: string, r1: string, r2: string)
    requires Separable(v1, v2) && IsRest(r1) && IsRest(r2)
    requires MemberText(k1, v1) + r1 == MemberText(k2, v2) + r2
    ensures k1 == k2 && v1 == v2
  {
    Associate(Quote(k1) + ":", v1, r1);
    Associate(Quote(k1), ":", v1 + r1);
    Associate(Quote(k2) + ":", v2, r2);
    Associate(Quote(k2), ":", v2 + r2);
    QuoteSeparates(k1, k2, ":" + (v1 + r1), ":" + (v2 + r2));
    Cancel(":", v1 + r1, v2 + r2);
  }

  lemma MemberSeparable(k1: string, v1: string, k2: string, v2: string)
    requires Separable(v1, v2)
    ensures Separable(MemberText(k1, v1), MemberText(k2, v2))
  {
    forall r1, r2 | IsRest(r1) && IsRest(r2) && MemberText(k1, v1) + r1 == MemberText(k2, v2) + r2
      ensures MemberText(k1, v1) == MemberText(k2, v2)
    {
      MembersSeparate(k1, v1, k2, v2, r1, r2);
    }
  }

  lemma MemberAt(keys: seq<string>, texts: seq<string>, i: nat)
    requires |keys| == |texts| && i < |keys|
    ensures Sort(keys)[i] in keys
    ensures MemberTexts(keys, texts)[i] == MemberText(Sort(keys)[i], PartOf(keys, texts, Sort(keys)[i]))
    ensures Begins(MemberTexts(keys, texts)[i])
    ensures PartOf(keys, texts, Sort(keys)[i]) in texts
  {
    assert Sort(keys)[i] in keys;
    assert MemberTexts(keys, texts)[i][0] == '"';
  }

  lemma MemberTextsSeparate(keys1: seq<string>, texts1: seq<string>, keys2: seq<string>, texts2: seq<string>)
    requires |keys1| == |texts1| && |keys2| == |texts2| && AllSeparable(texts1, texts2)
    ensures AllSeparable(MemberTexts(keys1, texts1), MemberTexts(keys2, texts2))
  {
    var x, y, n, m := MemberTexts(keys1, texts1), MemberTexts(keys2, texts2), |keys1|, |keys2|;
    forall i | 0 <= i < n ensures Begins(x[i]) { MemberAt(keys1, texts1, i); }
    forall j | 0 <= j < m ensures Begins(y[j]) { MemberAt(keys2, texts2, j); }
    forall i, j | 0 <= i < n && 0 <= j < m
      ensures Separable(x[i], y[j])
    {
      MemberAt(keys1, texts1, i);
      MemberAt(keys2, texts2, j);
      var k1, k2 := Sort(keys1)[i], Sort(keys2)[j];
      MemberSeparable(k1, PartOf(keys1, texts1, k1), k2, PartOf(keys2, texts2, k2));
    }
  }

  lemma ItemsSeparate(shape1: Shape, texts1: seq<string>, shape2: Shape, texts2: seq<string>)
    requires Fits(shape1, |texts1|) && Fits(shape2, |texts2|) && SameSort(shape1, shape2) && AllSeparable(texts1, texts2)
    ensures AllSeparable(Items(shape1, texts1), Items(shape2, texts2))
  {
    match shape1 {
      case ArrayShape =>
      case MapShape =>
        var x, y := EntryTexts(texts1), EntryTexts(texts2);
        EntryTextsSeparate(texts1, texts2);
        SubsetSeparates(x, y, Sort(x), Sort(y));
      case SetShape =>
        SubsetSeparates(texts1, texts2, Sort(texts1), Sort(texts2));
      case ObjectShape(keys) =>
        MemberTextsSeparate(keys, texts1, shape2.keys, texts2);
    }
  }

  predicate SameSort(s1: Shape, s2: Shape) {
    match s1
    case ArrayShape => s2.ArrayShape?
    case MapShape => s2.MapShape?
    case SetShape => s2.SetShape?
    case ObjectShape(_) => s2.ObjectShape?
  }

  /** Two framed lists are the same text only if they list the same, whatever follows them. */
  lemma FramesSeparate(shape1: Shape, texts1: seq<string>, shape2: Shape, texts2: seq<string>, r1: string, r2: string)
    requires Fits(shape1, |texts1|) && Fits(shape2, |texts2|) && SameSort(shape1, shape2) && AllSeparable(texts1, texts2)
    requires Frame(shape1, texts1) + r1 == Frame(shape2, texts2) + r2
    ensures Items(shape1, texts1) == Items(shape2, texts2)
  {
    ItemsSeparate(shape1, texts1, shape2, texts2);
    FramesCancel(Opening(shape1), Closing(shape1), Items(shape1, texts1), Items(shape2, texts2), r1, r2);
  }

  lemma FramesCancel(opening: string, closing: string, a: seq<string>, b: seq<string>, r1: string, r2: string)
    requires AllSeparable(a, b) && Closes(closing)
    requires opening + Join(a) + closing + r1 == opening + Join(b) + closing + r2
    ensures a == b
  {
    Associate(opening + Join(a), closing, r1);
    Associate(opening, Join(a), closing + r1);
    Associate(opening + Join(b), closing, r2);
    Associate(opening, Join(b), closing + r2);
    Cancel(opening, Join(a) + (closing + r1), Join(b) + (closing + r2));
    JoinSeparates(a, b, closing + r1, closing + r2);
  }

  function KidTexts(digest: seq<Byte> -> string, kids: seq<Doc>): (texts: seq<string>)
    requires forall i :: 0 <= i < |kids| ==> WellFormedDoc(kids[i])
    ensures |texts| == |kids| && forall i :: 0 <= i < |kids| ==> texts[i] == Print(digest, kids[i])
  {
    seq(|kids|, i requires 0 <= i < |kids| => Print(digest, kids[i]))
  }

  /** A text ends where its value ends: nothing that may follow it can change how it is read. */
  lemma {:induction false} TextsSeparate(digest: seq<Byte> -> string, d1: Doc, d2: Doc)
    requires IdealDigest(digest) && WellFormedDoc(d1) && WellFormedDoc(d2)
    ensures Separable(Print(digest, d1), Print(digest, d2))
    decreases d1
  {
    if d1.Group? && d2.Group? {
      forall i, j | 0 <= i < |d1.kids| && 0 <= j < |d2.kids|
        ensures Separable(Print(digest, d1.kids[i]), Print(digest, d2.kids[j]))
      {
        TextsSeparate(digest, d1.kids[i], d2.kids[j]);
      }
    }
    forall r1, r2 | IsRest(r1) && IsRest(r2) && Print(digest, d1) + r1 == Print(digest, d2) + r2
      ensures Print(digest, d1) == Print(digest, d2)
    {
      if !d1.Group? {
        PlainDocsSeparate(digest, d1, d2, r1, r2);
      } else {
        LeadsAgree(digest, d1, d2, r1, r2);
        SameLead(d1, d2);
        KidsSeparate(digest, d1.kids, d2.kids);
        FramesSeparate(d1.shape, KidTexts(digest, d1.kids), d2.shape, KidTexts(digest, d2.kids), r1, r2);
      }
    }
  }

  lemma KidsSeparate(digest: seq<Byte> -> string, kids1: seq<Doc>, kids2: seq<Doc>)
    requires forall i :: 0 <= i < |kids1| ==> WellFormedDoc(kids1[i])
    requires forall j :: 0 <= j < |kids2| ==> WellFormedDoc(kids2[j])
    requires forall i, j :: 0 <= i < |kids1| && 0 <= j < |kids2| ==>
      Separable(Print(digest, kids1[i]), Print(digest, kids2[j]))
    ensures AllSeparable(KidTexts(digest, kids1), KidTexts(digest, kids2))
  {
    forall i | 0 <= i < |kids1|
      ensures Begins(KidTexts(digest, kids1)[i])
    {
      TextBegins(digest, kids1[i]);
    }
    forall j | 0 <= j < |kids2|
      ensures Begins(KidTexts(digest, kids2)[j])
    {
      TextBegins(digest, kids2[j]);
    }
  }

  // Equal texts and equal normal forms.

  /** Across the two lists, parts have the same text exactly when they have the same normal form. */
  ghost predicate Cross<T, U>(a1: seq<T>, a2: seq<T>, b1: seq<U>, b2: seq<U>) {
    Follows(a1, a2, b1, b2) && Follows(b1, b2, a1, a2)
  }

  /** Across the two lists, what is equal in the first stays equal in the second. */
  ghost predicate Follows<T, U>(a1: seq<T>, a2: seq<T>, b1: seq<U>, b2: seq<U>) {
    && |a1| == |b1| && |a2| == |b2|
    && forall i, j :: 0 <= i < |a1| && 0 <= j < |a2| ==> (a1[i] == a2[j] ==> b1[i] == b2[j])
  }

  function Without<T>(s: seq<T>, i: nat): (r: seq<T>)
    requires i < |s|
    ensures |r| == |s| - 1
  {
    s[..i] + s[i + 1..]
  }

  lemma WithoutOne<T>(s: seq<T>, i: nat)
    requires i < |s|
    ensures multiset(s) == multiset(Without(s, i)) + multiset{s[i]}
  {
    assert s == s[..i] + [s[i]] + s[i + 1..];
  }

  lemma WithoutTheSame<T>(s: seq<T>, t: seq<T>, i: nat, j: nat)
    requires i < |s| && j < |t| && s[i] == t[j]
    ensures multiset(s) == multiset(t) <==> multiset(Without(s, i)) == multiset(Without(t, j))
  {
    WithoutOne(s, i);
    WithoutOne(t, j);
    var m, n := multiset(Without(s, i)), multiset(Without(t, j));
    assert m == m + multiset{s[i]} - multiset{s[i]} && n == n + multiset{s[i]} - multiset{s[i]};
  }

  lemma FollowsWithout<T, U>(a1: seq<T>, a2: seq<T>, b1: seq<U>, b2: seq<U>, i: nat, j: nat)
    requires Follows(a1, a2, b1, b2) && i < |a1| && j < |a2|
    ensures Follows(Without(a1, i), Without(a2, j), Without(b1, i), Without(b2, j))
  {
    forall m, n | 0 <= m < |a1| - 1 && 0 <= n < |a2| - 1
      ensures Without(a1, i)[m] == Without(a2, j)[n] ==> Without(b1, i)[m] == Without(b2, j)[n]
    {
      var m', n' := if m < i then m else m + 1, if n < j then n else n + 1;
      assert a1[m'] == a2[n'] ==> b1[m'] == b2[n'];
    }
  }

  lemma {:induction false} SameBags<T, U>(a1: seq<T>, a2: seq<T>, b1: seq<U>, b2: seq<U>)
    requires Follows(a1, a2, b1, b2) && multiset(a1) == multiset(a2)
    ensures multiset(b1) == multiset(b2)
    decreases |a1|
  {
    SameMultiset(a1, a2);
    if a1 != [] {
      assert a1[0] in a2;
      var j :| 0 <= j < |a2| && a2[j] == a1[0];
      FollowsWithout(a1, a2, b1, b2, 0, j);
      WithoutTheSame(a1, a2, 0, j);
      SameBags(Without(a1, 0), Without(a2, j), Without(b1, 0), Without(b2, j));
      WithoutTheSame(b1, b2, 0, j);
    }
  }

  lemma CrossMultisets<T, U>(a1: seq<T>, a2: seq<T>, b1: seq<U>, b2: seq<U>)
    requires Cross(a1, a2, b1, b2)
    ensures multiset(a1) == multiset(a2) <==> multiset(b1) == multiset(b2)
  {
    if multiset(a1) == multiset(a2) {
      SameBags(a1, a2, b1, b2);
    }
    if multiset(b1) == multiset(b2) {
      SameBags(b1, b2, a1, a2);
    }
  }

  lemma CrossSequences<T, U>(a1: seq<T>, a2: seq<T>, b1: seq<U>, b2: seq<U>)
    requires Cross(a1, a2, b1, b2)
    ensures a1 == a2 <==> b1 == b2
  {
    if a1 == a2 {
      forall i | 0 <= i < |b1|
        ensures b1[i] == b2[i]
      {
        assert a1[i] == a2[i];
      }
    }
    if b1 == b2 {
      forall i | 0 <= i < |a1|
        ensures a1[i] == a2[i]
      {
        assert b1[i] == b2[i];
      }
    }
  }

  lemma EntryCross(t1: seq<string>, t2: seq<string>, n1: seq<Canon>, n2: seq<Canon>, i: nat, j: nat)
    requires Cross(t1, t2, n1, n2) && AllSeparable(t1, t2) && i + 1 < |t1| && j + 1 < |t2|
    ensures EntryText(t1[i], t1[i + 1]) == EntryText(t2[j], t2[j + 1]) <==> (n1[i], n1[i + 1]) == (n2[j], n2[j + 1])
  {
    PartsSeparable(t1, t2, i, j);
    if EntryText(t1[i], t1[i + 1]) == EntryText(t2[j], t2[j + 1]) {
      EntriesSeparate(t1[i], t1[i + 1], t2[j], t2[j + 1], "", "");
    }
  }

  lemma EntriesCross(t1: seq<string>, t2: seq<string>, n1: seq<Canon>, n2: seq<Canon>)
    requires Cross(t1, t2, n1, n2) && AllSeparable(t1, t2) && |t1| % 2 == 0 && |t2| % 2 == 0
    ensures Cross(EntryTexts(t1), EntryTexts(t2), Pairs(n1), Pairs(n2))
  {
    var n, m := |t1| / 2, |t2| / 2;
    forall i, j | 0 <= i < n && 0 <= j < m
      ensures EntryTexts(t1)[i] == EntryTexts(t2)[j] <==> Pairs(n1)[i] == Pairs(n2)[j]
    {
      EntryAt(t1, i);
      EntryAt(t2, j);
      EntryCross(t1, t2, n1, n2, 2 * i, 2 * j);
    }
  }

  lemma SameKeysSortAlike(keys1: seq<string>, keys2: seq<string>)
    requires Distinct(keys1) && Distinct(keys2)
    requires forall key :: key in keys1 <==> key in keys2
    ensures Sort(keys1) == Sort(keys2)
  {
    DistinctCounts(keys1);
    DistinctCounts(keys2);
    assert multiset(keys1) == multiset(keys2) by {
      forall key
        ensures multiset(keys1)[key] == multiset(keys2)[key]
      {
        assert key in keys1 <==> key in multiset(keys1);
        assert key in keys2 <==> key in multiset(keys2);
      }
    }
    SortForgetsOrder(keys1, keys2);
  }

  lemma {:induction false} DistinctCounts(keys: seq<string>)
    requires Distinct(keys)
    ensures forall key :: multiset(keys)[key] == if key in keys then 1 else 0
  {
    if keys != [] {
      assert keys == [keys[0]] + keys[1..];
      DistinctCounts(keys[1..]);
      assert keys[0] !in keys[1..];
    }
  }

  lemma PartsCross(keys1: seq<string>, keys2: seq<string>, key1: string, key2: string,
      t1: seq<string>, t2: seq<string>, n1: seq<Canon>, n2: seq<Canon>)
    requires Cross(t1, t2, n1, n2) && |keys1| == |t1| && |keys2| == |t2| && key1 in keys1 && key2 in keys2
    ensures PartOf(keys1, t1, key1) == PartOf(keys2, t2, key2) <==> PartOf(keys1, n1, key1) == PartOf(keys2, n2, key2)
  {
  }

  lemma EqualMembers(keys1: seq<string>, keys2: seq<string>, t1: seq<string>, t2: seq<string>, n1: seq<Canon>, n2: seq<Canon>)
    requires Cross(t1, t2, n1, n2) && |keys1| == |t1| && |keys2| == |t2| && AllSeparable(t1, t2)
    requires MemberTexts(keys1, t1) == MemberTexts(keys2, t2)
    ensures ByKey(keys1, n1) == ByKey(keys2, n2)
  {
    assert |keys1| == |MemberTexts(keys1, t1)| == |keys2|;
    forall i | 0 <= i < |keys1|
      ensures Sort(keys1)[i] == Sort(keys2)[i]
      ensures Sort(keys1)[i] in keys1 && Sort(keys1)[i] in keys2
      ensures PartOf(keys1, n1, Sort(keys1)[i]) == PartOf(keys2, n2, Sort(keys1)[i])
    {
      EqualMember(keys1, keys2, t1, t2, n1, n2, i);
    }
    assert Sort(keys1) == Sort(keys2);
    SameDomain(keys1, keys2);
    forall key | key in keys1
      ensures PartOf(keys1, n1, key) == PartOf(keys2, n2, key)
    {
      assert key in Sort(keys1);
    }
  }

  lemma SameDomain(keys1: seq<string>, keys2: seq<string>)
    requires Sort(keys1) == Sort(keys2)
    ensures forall key :: key in keys1 <==> key in keys2
  {
    forall key
      ensures key in keys1 <==> key in keys2
    {
      assert key in Sort(keys1) <==> key in Sort(keys2);
    }
  }

  lemma EqualMember(keys1: seq<string>, keys2: seq<string>, t1: seq<string>, t2: seq<string>, n1: seq<Canon>, n2: seq<Canon>, i: nat)
    requires Cross(t1, t2, n1, n2) && |keys1| == |t1| && |keys2| == |t2| && AllSeparable(t1, t2)
    requires i < |keys1| && i < |keys2| && MemberTexts(keys1, t1)[i] == MemberTexts(keys2, t2)[i]
    ensures Sort(keys1)[i] == Sort(keys2)[i]
    ensures Sort(keys1)[i] in keys1 && Sort(keys1)[i] in keys2
    ensures PartOf(keys1, n1, Sort(keys1)[i]) == PartOf(keys2, n2, Sort(keys1)[i])
  {
    MemberAt(keys1, t1, i);
    MemberAt(keys2, t2, i);
    var k1, k2 := Sort(keys1)[i], Sort(keys2)[i];
    var v1, v2 := PartOf(keys1, t1, k1), PartOf(keys2, t2, k2);
    assert Separable(v1, v2);
    MembersSeparate(k1, v1, k2, v2, "", "");
    PartsCross(keys1, keys2, k1, k2, t1, t2, n1, n2);
  }

  lemma EqualGathers(keys1: seq<string>, keys2: seq<string>, t1: seq<string>, t2: seq<string>, n1: seq<Canon>, n2: seq<Canon>)
    requires Cross(t1, t2, n1, n2) && |keys1| == |t1| && |keys2| == |t2| && Distinct(keys1) && Distinct(keys2)
    requires ByKey(keys1, n1) == ByKey(keys2, n2)
    ensures MemberTexts(keys1, t1) == MemberTexts(keys2, t2)
  {
    forall key
      ensures key in keys1 <==> key in keys2
    {
      assert key in keys1 <==> key in ByKey(keys1, n1);
      assert key in keys2 <==> key in ByKey(keys2, n2);
    }
    forall key | key in keys1
      ensures PartOf(keys1, t1, key) == PartOf(keys2, t2, key)
    {
      assert ByKey(keys1, n1)[key] == ByKey(keys2, n2)[key];
      PartsCross(keys1, keys2, key, key, t1, t2, n1, n2);
    }
    SameMembersSameTexts(keys1, keys2, t1, t2);
  }

  lemma SameMembersSameTexts(keys1: seq<string>, keys2: seq<string>, t1: seq<string>, t2: seq<string>)
    requires |keys1| == |t1| && |keys2| == |t2| && Distinct(keys1) && Distinct(keys2)
    requires forall key :: key in keys1 <==> key in keys2
    requires forall key | key in keys1 :: PartOf(keys1, t1, key) == PartOf(keys2, t2, key)
    ensures MemberTexts(keys1, t1) == MemberTexts(keys2, t2)
  {
    SameKeysSortAlike(keys1, keys2);
    assert |keys1| == |Sort(keys1)| == |Sort(keys2)| == |keys2|;
    forall i | 0 <= i < |keys1|
      ensures MemberTexts(keys1, t1)[i] == MemberTexts(keys2, t2)[i]
    {
      MemberAt(keys1, t1, i);
      MemberAt(keys2, t2, i);
    }
  }

  lemma SameItems(shape1: Shape, shape2: Shape, t1: seq<string>, t2: seq<string>, n1: seq<Canon>, n2: seq<Canon>)
    requires SameSort(shape1, shape2) && Fits(shape1, |t1|) && Fits(shape2, |t2|)
    requires Cross(t1, t2, n1, n2) && AllSeparable(t1, t2)
    ensures Items(shape1, t1) == Items(shape2, t2) <==> Gather(shape1, n1) == Gather(shape2, n2)
  {
    match shape1 {
      case ArrayShape =>
        CrossSequences(t1, t2, n1, n2);
      case MapShape =>
        EntriesCross(t1, t2, n1, n2);
        CrossMultisets(EntryTexts(t1), EntryTexts(t2), Pairs(n1), Pairs(n2));
        SortForgetsOrder(EntryTexts(t1), EntryTexts(t2));
      case SetShape =>
        CrossMultisets(t1, t2, n1, n2);
        SortForgetsOrder(t1, t2);
      case ObjectShape(keys1) =>
        SameMembers(keys1, shape2.keys, t1, t2, n1, n2);
    }
  }

  lemma SameMembers(keys1: seq<string>, keys2: seq<string>, t1: seq<string>, t2: seq<string>, n1: seq<Canon>, n2: seq<Canon>)
    requires Cross(t1, t2, n1, n2) && |keys1| == |t1| && |keys2| == |t2| && Distinct(keys1) && Distinct(keys2)
    requires AllSeparable(t1, t2)
    ensures MemberTexts(keys1, t1) == MemberTexts(keys2, t2) <==> ByKey(keys1, n1) == ByKey(keys2, n2)
  {
    if MemberTexts(keys1, t1) == MemberTexts(keys2, t2) {
      EqualMembers(keys1, keys2, t1, t2, n1, n2);
    }
    if ByKey(keys1, n1) == ByKey(keys2, n2) {
      EqualGathers(keys1, keys2, t1, t2, n1, n2);
    }
  }

  function KidNorms(kids: seq<Doc>): (norms: seq<Canon>)
    requires forall i :: 0 <= i < |kids| ==> WellFormedDoc(kids[i])
    ensures |norms| == |kids| && forall i :: 0 <= i < |kids| ==> norms[i] == Norm(kids[i])
  {
    seq(|kids|, i requires 0 <= i < |kids| => Norm(kids[i]))
  }

  lemma GroupsIdentify(digest: seq<Byte> -> string, d1: Doc, d2: Doc)
    requires IdealDigest(digest) && WellFormedDoc(d1) && WellFormedDoc(d2) && d1.Group? && d2.Group?
    requires Cross(KidTexts(digest, d1.kids), KidTexts(digest, d2.kids), KidNorms(d1.kids), KidNorms(d2.kids))
    requires AllSeparable(KidTexts(digest, d1.kids), KidTexts(digest, d2.kids))
    ensures Print(digest, d1) == Print(digest, d2) <==> Norm(d1) == Norm(d2)
  {
    var t1, t2, n1, n2 := KidTexts(digest, d1.kids), KidTexts(digest, d2.kids), KidNorms(d1.kids), KidNorms(d2.kids);
    assert Print(digest, d1) == Frame(d1.shape, t1) && Print(digest, d2) == Frame(d2.shape, t2);
    assert Norm(d1) == Gather(d1.shape, n1) && Norm(d2) == Gather(d2.shape, n2);
    if Print(digest, d1) == Print(digest, d2) {
      LeadsAgree(digest, d1, d2, "", "");
      SameLead(d1, d2);
      FramesSeparate(d1.shape, t1, d2.shape, t2, "", "");
      SameItems(d1.shape, d2.shape, t1, t2, n1, n2);
    } else if Norm(d1) == Norm(d2) {
      SameItems(d1.shape, d2.shape, t1, t2, n1, n2);
    }
  }

  /**
   * The canonical text is an exact identity: two payloads print the same text
   * if and only if they have the same normal form, at every depth.
   */
  lemma {:induction false} TextIdentifies(digest: seq<Byte> -> string, d1: Doc, d2: Doc)
    requires IdealDigest(digest) && WellFormedDoc(d1) && WellFormedDoc(d2)
    ensures Print(digest, d1) == Print(digest, d2) <==> Norm(d1) == Norm(d2)
    decreases d1
  {
    if d1.Group? && d2.Group? {
      forall i, j | 0 <= i < |d1.kids| && 0 <= j < |d2.kids|
        ensures Print(digest, d1.kids[i]) == Print(digest, d2.kids[j]) <==> Norm(d1.kids[i]) == Norm(d2.kids[j])
        ensures Separable(Print(digest, d1.kids[i]), Print(digest, d2.kids[j]))
      {
        TextIdentifies(digest, d1.kids[i], d2.kids[j]);
        TextsSeparate(digest, d1.kids[i], d2.kids[j]);
      }
      KidsSeparate(digest, d1.kids, d2.kids);
      GroupsIdentify(digest, d1, d2);
    } else if Print(digest, d1) == Print(digest, d2) {
      if d1.Group? {
        PlainDocsSeparate(digest, d2, d1, "", "");
      } else {
        PlainDocsSeparate(digest, d1, d2, "", "");
      }
    }
  }

  /** The order object keys were written in never changes the text. */
  lemma KeyOrderIsForgotten(digest: seq<Byte> -> string, keys1: seq<string>, keys2: seq<string>, kids1: seq<Doc>, kids2: seq<Doc>)
    requires WellFormedDoc(Group(ObjectShape(keys1), kids1)) && WellFormedDoc(Group(ObjectShape(keys2), kids2))
    requires forall key :: key in keys1 <==> key in keys2
    requires forall key | key in keys1 :: PartOf(keys1, kids1, key) == PartOf(keys2, kids2, key)
    ensures Print(digest, Group(ObjectShape(keys1), kids1)) == Print(digest, Group(ObjectShape(keys2), kids2))
  {
    SameMembersSameTexts(keys1, keys2, KidTexts(digest, kids1), KidTexts(digest, kids2));
  }

  /** Nor does the order of a Set's items or of a Map's entries. */
  lemma BagOrderIsForgotten(digest: seq<Byte> -> string, shape: Shape, kids1: seq<Doc>, kids2: seq<Doc>)
    requires WellFormedDoc(Group(shape, kids1)) && WellFormedDoc(Group(shape, kids2))
    requires shape.SetShape? || shape.MapShape?
    requires if shape.SetShape? then multiset(kids1) == multiset(kids2) else multiset(Pairs(kids1)) == multiset(Pairs(kids2))
    ensures Print(digest, Group(shape, kids1)) == Print(digest, Group(shape, kids2))
  {
    var t1, t2 := KidTexts(digest, kids1), KidTexts(digest, kids2);
    if shape.SetShape? {
      SameBags(kids1, kids2, t1, t2);
      SortForgetsOrder(t1, t2);
    } else {
      SameBags(Pairs(kids1), Pairs(kids2), EntryTexts(t1), EntryTexts(t2));
      SortForgetsOrder(EntryTexts(t1), EntryTexts(t2));
    }
  }

  /** The order of an array counts: every item has to be the same payload as the item in its place. */
  lemma ArrayOrderCounts(digest: seq<Byte> -> string, kids1: seq<Doc>, kids2: seq<Doc>)
    requires IdealDigest(digest) && WellFormedDoc(Group(ArrayShape, kids1)) && WellFormedDoc(Group(ArrayShape, kids2))
    ensures Print(digest, Group(ArrayShape, kids1)) == Print(digest, Group(ArrayShape, kids2)) <==>
      |kids1| == |kids2| && forall i :: 0 <= i < |kids1| ==> Print(digest, kids1[i]) == Print(digest, kids2[i])
  {
    var d1, d2 := Group(ArrayShape, kids1), Group(ArrayShape, kids2);
    var n1, n2 := KidNorms(kids1), KidNorms(kids2);
    TextIdentifies(digest, d1, d2);
    assert Norm(d1) == List(n1) && Norm(d2) == List(n2);
    if |kids1| == |kids2| {
      forall i | 0 <= i < |kids1|
        ensures Print(digest, kids1[i]) == Print(digest, kids2[i]) <==> n1[i] == n2[i]
      {
        TextIdentifies(digest, kids1[i], kids2[i]);
      }
      if forall i :: 0 <= i < |kids1| ==> Print(digest, kids1[i]) == Print(digest, kids2[i]) {
        assert n1 == n2;
      }
    }
  }
}
