/** The fingerprint's walk over object graphs: what it prints, and the ancestor set it keeps. */
module GraphWriter {
  import opened Wrappers
  import opened JsValues
  import opened JsHeap
  import opened Decimal
  import opened Sorting
  import opened JsonText
  import opened CanonicalText

  /** The only way a walk fails: a getter that throws. */
  datatype WriteError = Thrown

  datatype Source = Source(heap: Heap, iso: int -> string, digest: seq<Byte> -> string)

  function LeafDoc(iso: int -> string, v: Value): (doc: Option<Doc>)
    requires !v.Compound?
    ensures doc.Some? ==> WellFormedDoc(doc.value) && !doc.value.Group?
  {
    match v
    case NonFinite => Some(Atom(Null))
    case Date(time) => Some(Atom(if time.None? then Null else Str(iso(time.value))))
    case _ => if IsOmitted(v) then None else Some(Atom(v))
  }

  function OrNullDoc(part: Option<Doc>): Doc {
    if part.Some? then part.value else Atom(Null)
  }

  predicate WellFormedParts(parts: seq<Option<Doc>>) {
    forall i :: 0 <= i < |parts| && parts[i].Some? ==> WellFormedDoc(parts[i].value)
  }

  /** A compound payload from its parts: a member without a part is left out, an item without one is `null`. */
  function Settle(shape: Shape, parts: seq<Option<Doc>>): (doc: Doc)
    requires Fits(shape, |parts|) && WellFormedParts(parts)
    ensures WellFormedDoc(doc)
  {
    match shape
    case ObjectShape(keys) =>
      var kept := Kept(keys, parts);
      KeptKeys(keys, parts);
      KeptWellFormed(keys, parts);
      Group(ObjectShape(Keys(kept)), Values(kept))
    case _ => Group(shape, seq(|parts|, i requires 0 <= i < |parts| => OrNullDoc(parts[i])))
  }

  lemma {:induction false} KeptWellFormed(keys: seq<string>, parts: seq<Option<Doc>>)
    requires |keys| == |parts| && WellFormedParts(parts)
    ensures forall i :: 0 <= i < |Kept(keys, parts)| ==> WellFormedDoc(Kept(keys, parts)[i].1)
  {
    if keys != [] {
      KeptWellFormed(keys[1..], parts[1..]);
    }
  }

  predicate WellFormedWalks(walks: seq<Result<Option<Doc>, WriteError>>) {
    forall i :: 0 <= i < |walks| && walks[i].Ok? && walks[i].value.Some? ==> WellFormedDoc(walks[i].value.value)
  }

  /** A compound payload from the walks of its parts, unless one of them failed. */
  function Settled(shape: Shape, walks: seq<Result<Option<Doc>, WriteError>>): (doc: Result<Option<Doc>, WriteError>)
    requires Fits(shape, |walks|) && WellFormedWalks(walks)
    ensures doc.Ok? && doc.value.Some? ==> WellFormedDoc(doc.value.value)
  {
    var parts :- Collect(walks);
    Ok(Some(Settle(shape, parts)))
  }

  /** What the walk finds of a value met inside `ancestors`; `None` for what is left out. */
  function Walk(src: Source, ancestors: set<nat>, v: Val): (doc: Result<Option<Doc>, WriteError>)
    requires Closed(src.heap) && InHeap(src.heap, v)
    ensures doc.Ok? && doc.value.Some? ==> WellFormedDoc(doc.value.value)
    decreases |src.heap.Keys - ancestors|, 0
  {
    match v
    case Throws => Err(Thrown)
    case Leaf(value) => Ok(LeafDoc(src.iso, value))
    case Ref(id) =>
      var node := src.heap[id];
      if node.marks.pipe then Ok(Some(Stub(Stream)))
      else if node.marks.thenable then Ok(Some(Stub(Promise)))
      else if id in ancestors then Ok(Some(Stub(Cycle)))
      else
        Deeper(src.heap, ancestors, id);
        Enter(src, ancestors + {id}, node)
  }

  function Enter(src: Source, ancestors: set<nat>, node: Node): (doc: Result<Option<Doc>, WriteError>)
    requires Closed(src.heap) && NodeInHeap(src.heap, node)
    ensures doc.Ok? && doc.value.Some? ==> WellFormedDoc(doc.value.value)
    decreases |src.heap.Keys - ancestors|, 2
  {
    Settled(node.shape, Walks(src, ancestors, node.kids))
  }

  function Walks(src: Source, ancestors: set<nat>, vals: seq<Val>): (walks: seq<Result<Option<Doc>, WriteError>>)
    requires Closed(src.heap) && AllInHeap(src.heap, vals)
    ensures |walks| == |vals|
    ensures forall i :: 0 <= i < |walks| ==> walks[i] == Walk(src, ancestors, vals[i])
    ensures WellFormedWalks(walks)
    decreases |src.heap.Keys - ancestors|, 1
  {
    seq(|vals|, i requires 0 <= i < |vals| => Walk(src, ancestors, vals[i]))
  }

  function Written(digest: seq<Byte> -> string, doc: Result<Option<Doc>, WriteError>): Result<Option<string>, WriteError>
    requires doc.Ok? && doc.value.Some? ==> WellFormedDoc(doc.value.value)
  {
    if doc.Err? then Err(doc.error)
    else if doc.value.None? then Ok(None)
    else Ok(Some(Print(digest, doc.value.value)))
  }

  /** The text a payload is fingerprinted by; empty for one that is left out altogether. */
  function CanonicalJson(src: Source, v: Val): Result<string, WriteError>
    requires Closed(src.heap) && InHeap(src.heap, v)
  {
    Shown(Written(src.digest, Walk(src, {}, v)))
  }

  function Shown(text: Result<Option<string>, WriteError>): Result<string, WriteError> {
    if text.Err? then Err(text.error) else Ok(if text.value.Some? then text.value.value else "")
  }

  // What a payload means, told without the printer.

  /** A value without parts: itself, its ISO text, `null`, or nothing. */
  function LeafMeaning(iso: int -> string, v: Value): Option<Canon>
    requires !v.Compound?
  {
    match v
    case Null => Some(Single(Null))
    case Bool(b) => Some(Single(Bool(b)))
    case Num(text) => Some(Single(Num(text)))
    case NonFinite => Some(Single(Null))
    case BigInt(n) => Some(Single(BigInt(n)))
    case Str(s) => Some(Single(Str(s)))
    case Date(Some(t)) => Some(Single(Str(iso(t))))
    case Date(None) => Some(Single(Null))
    case Bytes(bytes) => Some(Single(Bytes(bytes)))
    case Undefined => None
    case Function => None
    case Symbol => None
  }

  /**
   * A value with parts: of an object, one member for each own key whose value
   * means something; of anything else, every part, `null` for one that means
   * nothing, in order in an array, without order in a Map or a Set.
   */
  function CompoundMeaning(shape: Shape, parts: seq<Option<Canon>>): Canon
    requires Fits(shape, |parts|)
  {
    var items := seq(|parts|, i requires 0 <= i < |parts| => if parts[i].Some? then parts[i].value else Single(Null));
    match shape
    case ArrayShape => List(items)
    case MapShape =>
      Entries(multiset(seq(|items| / 2, i requires 0 <= i < |items| / 2 => (items[2 * i], items[2 * i + 1]))))
    case SetShape => Bag(multiset(items))
    case ObjectShape(keys) => Members(MembersMeant(keys, parts))
  }

  /** One member for each key that has a part. */
  function MembersMeant(keys: seq<string>, parts: seq<Option<Canon>>): map<string, Canon>
    requires |keys| == |parts|
  {
    if keys == [] then map[]
    else
      var rest := MembersMeant(keys[1..], parts[1..]);
      if parts[0].Some? then rest[keys[0] := parts[0].value] else rest
  }

  /** What a value met inside `ancestors` means; `None` for what is left out. */
  function Meant(src: Source, ancestors: set<nat>, v: Val): Result<Option<Canon>, WriteError>
    requires Closed(src.heap) && InHeap(src.heap, v)
    decreases |src.heap.Keys - ancestors|, 0
  {
    match v
    case Throws => Err(Thrown)
    case Leaf(value) => Ok(LeafMeaning(src.iso, value))
    case Ref(id) =>
      var node := src.heap[id];
      if node.marks.pipe then Ok(Some(Blank(Stream)))
      else if node.marks.thenable then Ok(Some(Blank(Promise)))
      else if id in ancestors then Ok(Some(Blank(Cycle)))
      else
        Deeper(src.heap, ancestors, id);
        MeantObject(src, ancestors + {id}, node)
  }

  function MeantObject(src: Source, ancestors: set<nat>, node: Node): Result<Option<Canon>, WriteError>
    requires Closed(src.heap) && NodeInHeap(src.heap, node)
    decreases |src.heap.Keys - ancestors|, 2
  {
    var parts :- Collect(MeantEach(src, ancestors, node.kids));
    Ok(Some(CompoundMeaning(node.shape, parts)))
  }

  function MeantEach(src: Source, ancestors: set<nat>, vals: seq<Val>): (meanings: seq<Result<Option<Canon>, WriteError>>)
    requires Closed(src.heap) && AllInHeap(src.heap, vals)
    ensures |meanings| == |vals|
    ensures forall i :: 0 <= i < |vals| ==> meanings[i] == Meant(src, ancestors, vals[i])
    decreases |src.heap.Keys - ancestors|, 1
  {
    seq(|vals|, i requires 0 <= i < |vals| => Meant(src, ancestors, vals[i]))
  }

  /** What a payload means; `None` for one that is left out altogether. */
  function Meaning(src: Source, v: Val): Result<Option<Canon>, WriteError>
    requires Closed(src.heap) && InHeap(src.heap, v)
  {
    Meant(src, {}, v)
  }

  // The walk finds what a payload means.

  function NormOf(doc: Option<Doc>): Option<Canon>
    requires doc.Some? ==> WellFormedDoc(doc.value)
  {
    if doc.Some? then Some(Norm(doc.value)) else None
  }

  function NormsOf(parts: seq<Option<Doc>>): (norms: seq<Option<Canon>>)
    requires WellFormedParts(parts)
    ensures |norms| == |parts| && forall i :: 0 <= i < |parts| ==> norms[i] == NormOf(parts[i])
  {
    seq(|parts|, i requires 0 <= i < |parts| => NormOf(parts[i]))
  }

  function MeaningFound(doc: Result<Option<Doc>, WriteError>): Result<Option<Canon>, WriteError>
    requires doc.Ok? && doc.value.Some? ==> WellFormedDoc(doc.value.value)
  {
    if doc.Ok? then Ok(NormOf(doc.value)) else Err(doc.error)
  }

  /** The text of each kind of payload without parts. */
  lemma LeavesPrint(src: Source, v: Value)
    requires Closed(src.heap) && !v.Compound?
    ensures CanonicalJson(src, Leaf(v)) == Ok(
      match v
      case Null => "null"
      case Bool(b) => if b then "true" else "false"
      case Num(text) => text
      case NonFinite => "null"
      case BigInt(n) => (if n < 0 then "-" + NatText(-n) else NatText(n)) + "n"
      case Str(s) => Quote(s)
      case Date(Some(t)) => Quote(src.iso(t))
      case Date(None) => "null"
      case Bytes(bytes) => "<bytes " + src.digest(bytes) + ">"
      case Undefined => ""
      case Function => ""
      case Symbol => "")
  {
  }

  lemma LeafMeans(iso: int -> string, v: Value)
    requires !v.Compound?
    ensures NormOf(LeafDoc(iso, v)) == LeafMeaning(iso, v)
  {
  }

  lemma {:induction false} MeantMember(keys: seq<string>, norms: seq<Option<Canon>>, i: nat)
    requires |keys| == |norms| && Distinct(keys) && i < |keys|
    ensures var meant := MembersMeant(keys, norms);
      (keys[i] in meant <==> norms[i].Some?) && (norms[i].Some? ==> meant[keys[i]] == norms[i].value)
  {
    if i == 0 {
      OnlyOwnKeys(keys[1..], norms[1..]);
      assert keys[0] !in keys[1..];
    } else {
      MeantMember(keys[1..], norms[1..], i - 1);
    }
  }

  lemma {:induction false} OnlyOwnKeys(keys: seq<string>, norms: seq<Option<Canon>>)
    requires |keys| == |norms|
    ensures forall key :: key in MembersMeant(keys, norms) ==> key in keys
  {
    if keys != [] {
      OnlyOwnKeys(keys[1..], norms[1..]);
    }
  }

  lemma KeptMember(keys: seq<string>, parts: seq<Option<Doc>>, i: nat)
    requires |keys| == |parts| && Distinct(keys) && WellFormedParts(parts) && i < |keys|
    requires forall k :: 0 <= k < |Kept(keys, parts)| ==> WellFormedDoc(Values(Kept(keys, parts))[k])
    ensures var found := ByKey(Keys(Kept(keys, parts)), KidNorms(Values(Kept(keys, parts))));
      (keys[i] in found <==> parts[i].Some?) && (parts[i].Some? ==> found[keys[i]] == Norm(parts[i].value))
  {
    var key := keys[i];
    KeptParts(keys, parts, key);
    assert IndexOf(keys, key).value == i;
    var names, docs := Keys(Kept(keys, parts)), Values(Kept(keys, parts));
    if parts[i].Some? {
      assert PartOf(names, docs, key) == parts[i].value;
      assert PartOf(names, KidNorms(docs), key) == Norm(PartOf(names, docs, key));
    }
  }

  lemma MembersMean(keys: seq<string>, parts: seq<Option<Doc>>)
    requires |keys| == |parts| && Distinct(keys) && WellFormedParts(parts)
    ensures Norm(Settle(ObjectShape(keys), parts)) == CompoundMeaning(ObjectShape(keys), NormsOf(parts))
  {
    KeptKeys(keys, parts);
    KeptWellFormed(keys, parts);
    var found := ByKey(Keys(Kept(keys, parts)), KidNorms(Values(Kept(keys, parts))));
    var meant := MembersMeant(keys, NormsOf(parts));
    OnlyOwnKeys(keys, NormsOf(parts));
    forall i | 0 <= i < |keys|
      ensures keys[i] in found <==> keys[i] in meant
      ensures keys[i] in found ==> found[keys[i]] == meant[keys[i]]
    {
      MeantMember(keys, NormsOf(parts), i);
      KeptMember(keys, parts, i);
    }
    assert found == meant;
  }

  lemma ItemsMean(shape: Shape, parts: seq<Option<Doc>>)
    requires Fits(shape, |parts|) && !shape.ObjectShape? && WellFormedParts(parts)
    ensures Norm(Settle(shape, parts)) == CompoundMeaning(shape, NormsOf(parts))
  {
    var docs := Settle(shape, parts).kids;
    var norms := KidNorms(docs);
    var items := seq(|parts|, i requires 0 <= i < |parts| =>
      if NormsOf(parts)[i].Some? then NormsOf(parts)[i].value else Single(Null));
    assert norms == items;
    if shape.MapShape? {
      assert Pairs(norms) == seq(|items| / 2, i requires 0 <= i < |items| / 2 => (items[2 * i], items[2 * i + 1]));
    }
  }

  lemma {:induction false} WalkFindsMeaning(src: Source, ancestors: set<nat>, v: Val)
    requires Closed(src.heap) && InHeap(src.heap, v)
    ensures MeaningFound(Walk(src, ancestors, v)) == Meant(src, ancestors, v)
    decreases |src.heap.Keys - ancestors|
  {
    match v {
      case Throws =>
      case Leaf(value) => LeafMeans(src.iso, value);
      case Ref(id) =>
        var node := src.heap[id];
        if !node.marks.pipe && !node.marks.thenable && id !in ancestors {
          Deeper(src.heap, ancestors, id);
          forall i | 0 <= i < |node.kids|
            ensures MeaningFound(Walk(src, ancestors + {id}, node.kids[i])) == Meant(src, ancestors + {id}, node.kids[i])
          {
            WalkFindsMeaning(src, ancestors + {id}, node.kids[i]);
          }
          EnteredMeans(src, ancestors + {id}, node);
        }
    }
  }

  lemma EnteredMeans(src: Source, ancestors: set<nat>, node: Node)
    requires Closed(src.heap) && NodeInHeap(src.heap, node)
    requires forall i :: 0 <= i < |node.kids| ==>
      MeaningFound(Walk(src, ancestors, node.kids[i])) == Meant(src, ancestors, node.kids[i])
    ensures MeaningFound(Enter(src, ancestors, node)) == MeantObject(src, ancestors, node)
  {
    var meanings := MeantEach(src, ancestors, node.kids);
    PartsMean(node.shape, Walks(src, ancestors, node.kids), meanings);
    assert Collect(meanings).Err? ==> Collect(meanings).error.Thrown?;
  }

  lemma PartsMean(shape: Shape, walks: seq<Result<Option<Doc>, WriteError>>, meanings: seq<Result<Option<Canon>, WriteError>>)
    requires Fits(shape, |walks|) && WellFormedWalks(walks) && |meanings| == |walks|
    requires forall i :: 0 <= i < |walks| ==> meanings[i] == MeaningFound(walks[i])
    ensures MeaningFound(Settled(shape, walks)) ==
      if Collect(meanings).Ok? then Ok(Some(CompoundMeaning(shape, Collect(meanings).value))) else Err(Thrown)
  {
    if Collect(walks).Err? {
      var i := FirstError(walks);
      assert meanings[i].Err?;
      assert Collect(walks).error.Thrown?;
    } else {
      var parts := Collect(walks).value;
      assert Collect(meanings).value == NormsOf(parts);
      if shape.ObjectShape? {
        MembersMean(shape.keys, parts);
      } else {
        ItemsMean(shape, parts);
      }
    }
  }

  /** Payloads, from one heap or two, have the same text if and only if they mean the same. */
  lemma TextIsIdentity(src1: Source, v1: Val, src2: Source, v2: Val)
    requires src1.digest == src2.digest && IdealDigest(src1.digest)
    requires Closed(src1.heap) && InHeap(src1.heap, v1) && Closed(src2.heap) && InHeap(src2.heap, v2)
    ensures CanonicalJson(src1, v1) == CanonicalJson(src2, v2) <==> Meaning(src1, v1) == Meaning(src2, v2)
  {
    var w1, w2 := Walk(src1, {}, v1), Walk(src2, {}, v2);
    WalkFindsMeaning(src1, {}, v1);
    WalkFindsMeaning(src2, {}, v2);
    WrittenIsIdentity(src1.digest, w1, w2);
  }

  lemma WrittenIsIdentity(digest: seq<Byte> -> string, w1: Result<Option<Doc>, WriteError>, w2: Result<Option<Doc>, WriteError>)
    requires IdealDigest(digest)
    requires w1.Ok? && w1.value.Some? ==> WellFormedDoc(w1.value.value)
    requires w2.Ok? && w2.value.Some? ==> WellFormedDoc(w2.value.value)
    ensures Shown(Written(digest, w1)) == Shown(Written(digest, w2)) <==> MeaningFound(w1) == MeaningFound(w2)
  {
    if w1.Ok? && w1.value.Some? {
      TextBegins(digest, w1.value.value);
    }
    if w2.Ok? && w2.value.Some? {
      TextBegins(digest, w2.value.value);
    }
    if w1.Ok? && w2.Ok? && w1.value.Some? && w2.value.Some? {
      TextIdentifies(digest, w1.value.value, w2.value.value);
    }
  }

  // When a payload makes the printing fail.

  /** The printer goes into it: it is no stream and no promise. */
  predicate Entered(h: Heap, id: nat) {
    id in h && !h[id].marks.pipe && !h[id].marks.thenable
  }

  ghost predicate Follows(h: Heap, path: seq<nat>, i: nat)
    requires i + 1 < |path| && path[i] in h
  {
    Ref(path[i + 1]) in h[path[i]].kids
  }

  /** A way through objects the printer goes into, no object twice, that keeps off `ancestors`. */
  ghost predicate IsWay(h: Heap, ancestors: set<nat>, path: seq<nat>) {
    && path != [] && Distinct(path)
    && (forall i :: 0 <= i < |path| ==> Entered(h, path[i]) && path[i] !in ancestors)
    && forall i :: 0 <= i < |path| - 1 ==> Follows(h, path, i)
  }

  /** The way ends at an object that has a getter that throws. */
  ghost predicate EndsInThrow(h: Heap, ancestors: set<nat>, path: seq<nat>) {
    IsWay(h, ancestors, path) && Throws in h[path[|path| - 1]].kids
  }

  lemma WayRest(h: Heap, ancestors: set<nat>, path: seq<nat>)
    requires EndsInThrow(h, ancestors, path) && |path| > 1
    ensures EndsInThrow(h, ancestors + {path[0]}, path[1..])
  {
    var rest := path[1..];
    forall i | 0 <= i < |rest| - 1
      ensures Follows(h, rest, i)
    {
      assert Follows(h, path, i + 1);
    }
  }

  lemma WayBack(h: Heap, ancestors: set<nat>, id: nat, rest: seq<nat>)
    requires Entered(h, id) && id !in ancestors && EndsInThrow(h, ancestors + {id}, rest) && Ref(rest[0]) in h[id].kids
    ensures EndsInThrow(h, ancestors, [id] + rest)
  {
    var path := [id] + rest;
    forall i | 0 <= i < |path| - 1
      ensures Follows(h, path, i)
    {
      if i > 0 {
        assert Follows(h, rest, i - 1);
      }
    }
  }

  lemma PartFails(src: Source, ancestors: set<nat>, id: nat, i: nat)
    requires Closed(src.heap) && Entered(src.heap, id) && id !in ancestors && i < |src.heap[id].kids|
    requires Walk(src, ancestors + {id}, src.heap[id].kids[i]).Err?
    ensures Walk(src, ancestors, Ref(id)).Err?
  {
    var node := src.heap[id];
    Deeper(src.heap, ancestors, id);
    SettledFails(node.shape, Walks(src, ancestors + {id}, node.kids), i);
  }

  lemma {:induction false} ThrowFails(src: Source, ancestors: set<nat>, path: seq<nat>)
    requires Closed(src.heap) && EndsInThrow(src.heap, ancestors, path)
    ensures Walk(src, ancestors, Ref(path[0])).Err?
    decreases |path|
  {
    var kids := src.heap[path[0]].kids;
    if |path| == 1 {
      var i :| 0 <= i < |kids| && kids[i] == Throws;
      PartFails(src, ancestors, path[0], i);
    } else {
      assert Follows(src.heap, path, 0);
      var i :| 0 <= i < |kids| && kids[i] == Ref(path[1]);
      WayRest(src.heap, ancestors, path);
      ThrowFails(src, ancestors + {path[0]}, path[1..]);
      PartFails(src, ancestors, path[0], i);
    }
  }

  lemma FailedPart(src: Source, ancestors: set<nat>, id: nat) returns (i: nat)
    requires Closed(src.heap) && id in src.heap && Walk(src, ancestors, Ref(id)).Err?
    ensures Entered(src.heap, id) && id !in ancestors && i < |src.heap[id].kids|
    ensures Walk(src, ancestors + {id}, src.heap[id].kids[i]).Err?
  {
    Deeper(src.heap, ancestors, id);
    i := FirstError(Walks(src, ancestors + {id}, src.heap[id].kids));
  }

  lemma {:induction false} FailsInThrow(src: Source, ancestors: set<nat>, id: nat) returns (path: seq<nat>)
    requires Closed(src.heap) && id in src.heap && Walk(src, ancestors, Ref(id)).Err?
    ensures EndsInThrow(src.heap, ancestors, path) && path[0] == id
    decreases |src.heap.Keys - ancestors|
  {
    var i := FailedPart(src, ancestors, id);
    var kid := src.heap[id].kids[i];
    assert kid in src.heap[id].kids;
    path := [id];
    if kid.Ref? {
      Deeper(src.heap, ancestors, id);
      var rest := FailsInThrow(src, ancestors + {id}, kid.id);
      WayBack(src.heap, ancestors, id, rest);
      path := path + rest;
    }
  }

  /**
   * Exactly which payloads make a request fail: those from which references
   * between objects the printer goes into lead, without coming back, to an
   * object that has a getter that throws. Every other payload has a text.
   */
  lemma FailsExactly(src: Source, id: nat)
    requires Closed(src.heap) && id in src.heap
    ensures CanonicalJson(src, Ref(id)).Err? <==> exists path :: EndsInThrow(src.heap, {}, path) && path[0] == id
  {
    if CanonicalJson(src, Ref(id)).Err? {
      var path := FailsInThrow(src, {}, id);
    }
    if path :| EndsInThrow(src.heap, {}, path) && path[0] == id {
      ThrowFails(src, {}, path);
    }
  }

  /** A payload that fails: an object whose only member is a getter that throws. */
  lemma ThrowingGetterFails(iso: int -> string, digest: seq<Byte> -> string)
    ensures var node := Node(ObjectShape(["total"]), [Throws], Marks(false, false, false, false), [], []);
      var src := Source(map[0 := node], iso, digest);
      Closed(src.heap) && CanonicalJson(src, Ref(0)) == Err(Thrown)
  {
    var node := Node(ObjectShape(["total"]), [Throws], Marks(false, false, false, false), [], []);
    var src := Source(map[0 := node], iso, digest);
    assert Distinct(["total"]);
    assert Closed(src.heap);
    var path := [0];
    assert EndsInThrow(src.heap, {}, path) && path[0] == 0;
    FailsExactly(src, 0);
    assert CanonicalJson(src, Ref(0)).error.Thrown?;
  }

  // An object's members, printed in the order of all its keys.

  predicate Has(keys: seq<string>, parts: seq<Option<Doc>>, key: string)
    requires |keys| == |parts|
  {
    key in keys && PartOf(keys, parts, key).Some?
  }

  lemma {:induction false} KeptParts(keys: seq<string>, parts: seq<Option<Doc>>, key: string)
    requires |keys| == |parts| && Distinct(keys)
    ensures var kept := Kept(keys, parts);
      && (key in Keys(kept) <==> Has(keys, parts, key))
      && (Has(keys, parts, key) ==> PartOf(Keys(kept), Values(kept), key) == PartOf(keys, parts, key).value)
  {
    if keys != [] {
      KeptParts(keys[1..], parts[1..], key);
      KeptKeys(keys[1..], parts[1..]);
      assert keys[0] !in keys[1..];
      PartOfRest(keys, parts, key);
      if parts[0].Some? {
        var rest := Kept(keys[1..], parts[1..]);
        var kept := [(keys[0], parts[0].value)] + rest;
        KeysOfCons((keys[0], parts[0].value), rest);
        assert Keys(kept)[1..] == Keys(rest) && Values(kept)[1..] == Values(rest);
        PartOfRest(Keys(kept), Values(kept), key);
      }
    }
  }

  lemma PartOfRest<T>(keys: seq<string>, parts: seq<T>, key: string)
    requires |keys| == |parts| > 0
    ensures key in keys <==> key == keys[0] || key in keys[1..]
    ensures key == keys[0] ==> PartOf(keys, parts, key) == parts[0]
    ensures key != keys[0] && key in keys ==> PartOf(keys, parts, key) == PartOf(keys[1..], parts[1..], key)
  {
  }

  /** The keys that have a part, in the order they are visited. */
  function Present(visited: seq<string>, keys: seq<string>, parts: seq<Option<Doc>>): seq<string>
    requires |keys| == |parts|
  {
    if visited == [] then []
    else
      var before, last := Present(visited[..|visited| - 1], keys, parts), visited[|visited| - 1];
      if Has(keys, parts, last) then before + [last] else before
  }

  lemma {:induction false} PresentIs(visited: seq<string>, keys: seq<string>, parts: seq<Option<Doc>>)
    requires |keys| == |parts|
    ensures forall key :: key in Present(visited, keys, parts) <==> key in visited && Has(keys, parts, key)
    ensures Distinct(visited) ==> Distinct(Present(visited, keys, parts))
    ensures IsSorted(visited) ==> IsSorted(Present(visited, keys, parts))
  {
    if visited != [] {
      var front, last := visited[..|visited| - 1], visited[|visited| - 1];
      PresentIs(front, keys, parts);
      var before := Present(front, keys, parts);
      assert visited == front + [last];
      forall i | 0 <= i < |before|
        ensures Distinct(visited) ==> before[i] != last
        ensures IsSorted(visited) ==> AtMost(before[i], last)
      {
        assert before[i] in front;
        var k :| 0 <= k < |front| && front[k] == before[i];
        assert visited[k] == before[i];
      }
    }
  }

  lemma {:induction false} CountsAreDistinct(s: seq<string>)
    requires forall x :: multiset(s)[x] <= 1
    ensures Distinct(s)
  {
    if s != [] {
      assert s == [s[0]] + s[1..];
      forall x
        ensures multiset(s[1..])[x] <= 1
      {
        assert multiset(s)[x] <= 1;
      }
      CountsAreDistinct(s[1..]);
      assert multiset(s)[s[0]] <= 1;
      assert s[0] !in multiset(s[1..]);
    }
  }

  /** Leaving members out after sorting is sorting what is left. */
  lemma SortedKept(keys: seq<string>, parts: seq<Option<Doc>>)
    requires |keys| == |parts| && Distinct(keys)
    ensures Sort(Keys(Kept(keys, parts))) == Present(Sort(keys), keys, parts)
  {
    var kept, shown := Keys(Kept(keys, parts)), Present(Sort(keys), keys, parts);
    SortSorts(keys);
    DistinctCounts(keys);
    CountsAreDistinct(Sort(keys));
    PresentIs(Sort(keys), keys, parts);
    KeptKeys(keys, parts);
    forall key
      ensures key in kept <==> key in shown
    {
      KeptParts(keys, parts, key);
    }
    SameKeysSortAlike(kept, shown);
    SortSorts(shown);
    SortedIsUnique(Sort(shown), shown);
  }

  /** The parts the walks found, where they did not fail. */
  function Found(walks: seq<Result<Option<Doc>, WriteError>>): (parts: seq<Option<Doc>>)
    requires WellFormedWalks(walks)
    ensures |parts| == |walks| && WellFormedParts(parts)
    ensures forall i :: 0 <= i < |walks| && walks[i].Ok? ==> parts[i] == walks[i].value
  {
    seq(|walks|, i requires 0 <= i < |walks| => if walks[i].Ok? then walks[i].value else None)
  }

  lemma SettledFails(shape: Shape, walks: seq<Result<Option<Doc>, WriteError>>, i: nat)
    requires Fits(shape, |walks|) && WellFormedWalks(walks) && i < |walks| && walks[i].Err?
    ensures Collect(walks) == Err(Thrown) && Settled(shape, walks) == Err(Thrown)
  {
    assert Collect(walks).Err? && Collect(walks).error.Thrown?;
  }

  lemma SettledFinds(walks: seq<Result<Option<Doc>, WriteError>>)
    requires WellFormedWalks(walks) && forall i :: 0 <= i < |walks| ==> walks[i].Ok?
    ensures Collect(walks) == Ok(Found(walks))
  {
    assert Collect(walks).value == Found(walks);
  }

  /** The texts of the first walks, none of which failed, with `null` for what is left out. */
  ghost predicate TextsSoFar(digest: seq<Byte> -> string, walks: seq<Result<Option<Doc>, WriteError>>, texts: seq<string>)
    requires WellFormedWalks(walks)
  {
    |texts| <= |walks| && forall k :: 0 <= k < |texts| ==> walks[k].Ok? && texts[k] == Print(digest, OrNullDoc(Found(walks)[k]))
  }

  lemma OneMoreText(digest: seq<Byte> -> string, walks: seq<Result<Option<Doc>, WriteError>>, texts: seq<string>, line: Option<string>)
    requires WellFormedWalks(walks) && TextsSoFar(digest, walks, texts) && |texts| < |walks|
    requires Ok(line) == Written(digest, walks[|texts|])
    ensures TextsSoFar(digest, walks, texts + [if line.Some? then line.value else "null"])
  {
  }

  lemma ItemsPrinted(digest: seq<Byte> -> string, shape: Shape, walks: seq<Result<Option<Doc>, WriteError>>, texts: seq<string>)
    requires Fits(shape, |walks|) && !shape.ObjectShape? && WellFormedWalks(walks) && |texts| == |walks|
    requires TextsSoFar(digest, walks, texts)
    ensures Written(digest, Settled(shape, walks)) == Ok(Some(Frame(shape, texts)))
  {
    SettledFinds(walks);
    assert texts == KidTexts(digest, Settle(shape, Found(walks)).kids);
  }

  ghost function MembersOf(digest: seq<Byte> -> string, shown: seq<string>, keys: seq<string>, parts: seq<Option<Doc>>)
    : (members: seq<string>)
    requires |keys| == |parts| && WellFormedParts(parts) && forall key :: key in shown ==> Has(keys, parts, key)
    ensures |members| == |shown|
  {
    seq(|shown|, i requires 0 <= i < |shown| =>
      assert shown[i] in shown && Has(keys, parts, shown[i]);
      MemberText(shown[i], Print(digest, PartOf(keys, parts, shown[i]).value)))
  }

  /** The members printed after visiting `visited`. */
  ghost function Printed(digest: seq<Byte> -> string, visited: seq<string>, keys: seq<string>, parts: seq<Option<Doc>>): seq<string>
    requires |keys| == |parts| && WellFormedParts(parts)
  {
    PresentIs(visited, keys, parts);
    MembersOf(digest, Present(visited, keys, parts), keys, parts)
  }

  lemma PrintedNext(digest: seq<Byte> -> string, visited: seq<string>, i: nat, keys: seq<string>, parts: seq<Option<Doc>>)
    requires |keys| == |parts| && WellFormedParts(parts) && i < |visited|
    ensures Printed(digest, visited[..i + 1], keys, parts) == Printed(digest, visited[..i], keys, parts)
      + if Has(keys, parts, visited[i])
        then [MemberText(visited[i], Print(digest, PartOf(keys, parts, visited[i]).value))] else []
  {
    PresentIs(visited[..i], keys, parts);
    PresentIs(visited[..i + 1], keys, parts);
    assert visited[..i + 1][..i] == visited[..i];
  }

  /** Visiting all keys in sorted order prints the object as its own kept members would be. */
  lemma PrintedAll(digest: seq<Byte> -> string, keys: seq<string>, parts: seq<Option<Doc>>)
    requires |keys| == |parts| && WellFormedParts(parts) && Distinct(keys)
    ensures Print(digest, Settle(ObjectShape(keys), parts)) == "{" + Join(Printed(digest, Sort(keys), keys, parts)) + "}"
  {
    KeptWellFormed(keys, parts);
    SortedKept(keys, parts);
    var kept := Kept(keys, parts);
    var names, texts := Keys(kept), KidTexts(digest, Values(kept));
    var members := Printed(digest, Sort(keys), keys, parts);
    PresentIs(Sort(keys), keys, parts);
    forall i | 0 <= i < |names|
      ensures MemberTexts(names, texts)[i] == members[i]
    {
      MemberAt(names, texts, i);
      KeptParts(keys, parts, Sort(names)[i]);
      assert PartOf(names, texts, Sort(names)[i]) == Print(digest, PartOf(names, Values(kept), Sort(names)[i]));
    }
    assert MemberTexts(names, texts) == members;
  }

  /** The texts of the members that are there, in the order of `keys`. */
  function Lines(digest: seq<Byte> -> string, keys: seq<string>, parts: seq<Option<Doc>>): seq<string>
    requires |keys| == |parts| && WellFormedParts(parts)
  {
    if keys == [] then []
    else
      var n := |keys| - 1;
      Lines(digest, keys[..n], parts[..n])
        + if parts[n].Some? then [MemberText(keys[n], Print(digest, parts[n].value))] else []
  }

  lemma {:induction false} LinesArePrinted(digest: seq<Byte> -> string, visited: seq<string>, found: seq<Option<Doc>>,
      keys: seq<string>, parts: seq<Option<Doc>>)
    requires |visited| == |found| && |keys| == |parts| && WellFormedParts(found) && WellFormedParts(parts)
    requires forall i :: 0 <= i < |visited| ==> visited[i] in keys && found[i] == PartOf(keys, parts, visited[i])
    ensures Lines(digest, visited, found) == Printed(digest, visited, keys, parts)
  {
    if visited != [] {
      var n := |visited| - 1;
      LinesArePrinted(digest, visited[..n], found[..n], keys, parts);
      PrintedNext(digest, visited, n, keys, parts);
      assert visited[..n + 1] == visited;
    }
  }

  /** The member texts of walked values, in the order of `keys`. */
  function WalkedLines(digest: seq<Byte> -> string, keys: seq<string>, walks: seq<Result<Option<Doc>, WriteError>>)
    : Result<seq<string>, WriteError>
    requires |keys| == |walks| && WellFormedWalks(walks)
  {
    var parts :- Collect(walks);
    Ok(Lines(digest, keys, parts))
  }

  /** The parts that go with the keys once they are sorted. */
  function InKeyOrder<T>(keys: seq<string>, parts: seq<T>): (ordered: seq<T>)
    requires |keys| == |parts|
    ensures |ordered| == |parts|
    ensures forall i :: 0 <= i < |parts| ==> Sort(keys)[i] in keys && ordered[i] == PartOf(keys, parts, Sort(keys)[i])
  {
    var sorted := Sort(keys);
    seq(|parts|, i requires 0 <= i < |parts| => assert sorted[i] in sorted; PartOf(keys, parts, sorted[i]))
  }

  /** Sorting moves every part to one place and leaves none out. */
  lemma Moved<T>(keys: seq<string>, parts: seq<T>, k: nat) returns (i: nat)
    requires |keys| == |parts| && Distinct(keys) && k < |keys|
    ensures i < |keys| && InKeyOrder(keys, parts)[i] == parts[k]
  {
    assert keys[k] in Sort(keys);
    i :| 0 <= i < |keys| && Sort(keys)[i] == keys[k];
  }

  lemma Unmoved<T>(keys: seq<string>, parts: seq<T>, i: nat) returns (k: nat)
    requires |keys| == |parts| && i < |keys|
    ensures k < |keys| && InKeyOrder(keys, parts)[i] == parts[k]
  {
    k := IndexOf(keys, Sort(keys)[i]).value;
  }

  lemma OrderedWellFormed(keys: seq<string>, walks: seq<Result<Option<Doc>, WriteError>>)
    requires |keys| == |walks| && WellFormedWalks(walks)
    ensures WellFormedWalks(InKeyOrder(keys, walks))
  {
  }

  lemma OrderedFound(keys: seq<string>, walks: seq<Result<Option<Doc>, WriteError>>)
    requires |keys| == |walks| && WellFormedWalks(walks)
    requires forall i :: 0 <= i < |walks| ==> walks[i].Ok?
    ensures WellFormedWalks(InKeyOrder(keys, walks)) && Collect(InKeyOrder(keys, walks)) == Ok(InKeyOrder(keys, Found(walks)))
  {
    var ordered := InKeyOrder(keys, walks);
    assert Collect(ordered).value == InKeyOrder(keys, Found(walks));
  }

  lemma SortedFails(keys: seq<string>, walks: seq<Result<Option<Doc>, WriteError>>)
    requires |keys| == |walks| && Distinct(keys) && WellFormedWalks(walks) && WellFormedWalks(InKeyOrder(keys, walks))
    requires Collect(walks).Err?
    ensures Settled(ObjectShape(keys), walks) == Err(Thrown) && Collect(InKeyOrder(keys, walks)) == Err(Thrown)
  {
    var k := FirstError(walks);
    var i := Moved(keys, walks, k);
    SettledFails(ObjectShape(keys), walks, k);
    SettledFails(ArrayShape, InKeyOrder(keys, walks), i);
  }

  lemma SortedFinds(digest: seq<Byte> -> string, keys: seq<string>, walks: seq<Result<Option<Doc>, WriteError>>)
    requires |keys| == |walks| && Distinct(keys) && WellFormedWalks(walks) && WellFormedWalks(InKeyOrder(keys, walks))
    requires Collect(walks) == Ok(Found(walks)) && Collect(InKeyOrder(keys, walks)) == Ok(InKeyOrder(keys, Found(walks)))
    ensures WellFormedParts(InKeyOrder(keys, Found(walks)))
    ensures Print(digest, Settle(ObjectShape(keys), Found(walks)))
         == "{" + Join(Lines(digest, Sort(keys), InKeyOrder(keys, Found(walks)))) + "}"
  {
    PrintedAll(digest, keys, Found(walks));
    LinesArePrinted(digest, Sort(keys), InKeyOrder(keys, Found(walks)), keys, Found(walks));
  }

  /** Walking an object in the order of its sorted keys prints what walking it in its own order finds. */
  lemma SortedLines(digest: seq<Byte> -> string, keys: seq<string>, walks: seq<Result<Option<Doc>, WriteError>>)
    requires |keys| == |walks| && Distinct(keys) && WellFormedWalks(walks)
    ensures WellFormedWalks(InKeyOrder(keys, walks))
    ensures var lines := WalkedLines(digest, Sort(keys), InKeyOrder(keys, walks));
      Written(digest, Settled(ObjectShape(keys), walks))
      == if lines.Ok? then Ok(Some("{" + Join(lines.value) + "}")) else Err(Thrown)
  {
    OrderedWellFormed(keys, walks);
    if Collect(walks).Err? {
      SortedFails(keys, walks);
    } else {
      SettledFinds(walks);
      OrderedFound(keys, walks);
      SortedFinds(digest, keys, walks);
    }
  }

  lemma OrderedWalks(src: Source, ancestors: set<nat>, node: Node)
    requires Closed(src.heap) && NodeInHeap(src.heap, node) && node.shape.ObjectShape?
    ensures AllInHeap(src.heap, InKeyOrder(node.shape.keys, node.kids))
    ensures Walks(src, ancestors, InKeyOrder(node.shape.keys, node.kids))
         == InKeyOrder(node.shape.keys, Walks(src, ancestors, node.kids))
  {
    var keys, ordered := node.shape.keys, InKeyOrder(node.shape.keys, node.kids);
    forall i | 0 <= i < |ordered|
      ensures InHeap(src.heap, ordered[i])
    {
      var k := Unmoved(keys, node.kids, i);
    }
    forall i | 0 <= i < |ordered|
      ensures Walks(src, ancestors, ordered)[i] == InKeyOrder(keys, Walks(src, ancestors, node.kids))[i]
    {
      var walks := Walks(src, ancestors, node.kids);
      var k := IndexOf(keys, Sort(keys)[i]).value;
      assert ordered[i] == node.kids[k] && InKeyOrder(keys, walks)[i] == walks[k];
    }
  }

  /** The member texts after the first `i` walks. */
  ghost function LinesUpTo(digest: seq<Byte> -> string, keys: seq<string>, walks: seq<Result<Option<Doc>, WriteError>>, i: nat)
    : seq<string>
    requires |keys| == |walks| && WellFormedWalks(walks) && i <= |walks|
  {
    Lines(digest, keys[..i], Found(walks)[..i])
  }

  lemma LinesNext(digest: seq<Byte> -> string, keys: seq<string>, walks: seq<Result<Option<Doc>, WriteError>>, i: nat,
      line: Option<string>)
    requires |keys| == |walks| && WellFormedWalks(walks) && i < |keys|
    requires Ok(line) == Written(digest, walks[i])
    ensures LinesUpTo(digest, keys, walks, i + 1) == LinesUpTo(digest, keys, walks, i)
      + if line.Some? then [MemberText(keys[i], line.value)] else []
  {
    var parts := Found(walks);
    assert keys[..i + 1][..i] == keys[..i] && parts[..i + 1][..i] == parts[..i];
  }

  lemma LinesDone(digest: seq<Byte> -> string, keys: seq<string>, walks: seq<Result<Option<Doc>, WriteError>>)
    requires |keys| == |walks| && WellFormedWalks(walks) && forall i :: 0 <= i < |walks| ==> walks[i].Ok?
    ensures WalkedLines(digest, keys, walks) == Ok(LinesUpTo(digest, keys, walks, |walks|))
  {
    SettledFinds(walks);
    assert keys[..|keys|] == keys && Found(walks)[..|keys|] == Found(walks);
  }

  /** The printer as the source runs it, with one ancestor set shared by the whole walk. */
  class Writer {
    const src: Source
    var ancestors: set<nat>

    constructor (src: Source)
      ensures this.src == src && ancestors == {}
    {
      this.src := src;
      ancestors := {};
    }

    method Write(v: Val) returns (text: Result<Option<string>, WriteError>)
      requires Closed(src.heap) && InHeap(src.heap, v)
      modifies this
      ensures text == Written(src.digest, Walk(src, old(ancestors), v))
      ensures ancestors == old(ancestors)
      decreases |src.heap.Keys - ancestors|, 1
    {
      match v {
        case Throws =>
          return Err(Thrown);
        case Leaf(value) =>
          var doc := LeafDoc(src.iso, value);
          return Ok(if doc.Some? then Some(Print(src.digest, doc.value)) else None);
        case Ref(id) =>
          var node := src.heap[id];
          if node.marks.pipe {
            return Ok(Some("<stream>"));
          }
          if node.marks.thenable {
            return Ok(Some("<promise>"));
          }
          if id in ancestors {
            return Ok(Some("<cycle>"));
          }
          Deeper(src.heap, ancestors, id);
          ghost var enclosing := ancestors;
          ancestors := ancestors + {id};
          if node.shape.ObjectShape? {
            text := WriteMembers(node);
          } else {
            text := WriteItems(node);
          }
          ancestors := ancestors - {id};
          assert ancestors == enclosing;
      }
    }

    /** An array, a Map or a Set; the texts of the last two are sorted. */
    method WriteItems(node: Node) returns (text: Result<Option<string>, WriteError>)
      requires Closed(src.heap) && NodeInHeap(src.heap, node) && !node.shape.ObjectShape?
      modifies this
      ensures text == Written(src.digest, Enter(src, old(ancestors), node))
      ensures ancestors == old(ancestors)
      decreases |src.heap.Keys - ancestors|, 2
    {
      var texts: seq<string> := [];
      ghost var walks := Walks(src, ancestors, node.kids);
      for i := 0 to |node.kids|
        invariant |texts| == i && ancestors == old(ancestors)
        invariant TextsSoFar(src.digest, walks, texts)
      {
        var part := Write(node.kids[i]);
        if part.Err? {
          SettledFails(node.shape, walks, i);
          return Err(Thrown);
        }
        OneMoreText(src.digest, walks, texts, part.value);
        texts := texts + [if part.value.Some? then part.value.value else "null"];
      }
      ItemsPrinted(src.digest, node.shape, walks, texts);
      text := Ok(Some(Frame(node.shape, texts)));
    }

    /** The members of an object, in the order of its sorted keys. */
    method WriteMembers(node: Node) returns (text: Result<Option<string>, WriteError>)
      requires Closed(src.heap) && NodeInHeap(src.heap, node) && node.shape.ObjectShape?
      modifies this
      ensures text == Written(src.digest, Enter(src, old(ancestors), node))
      ensures ancestors == old(ancestors)
      decreases |src.heap.Keys - ancestors|, 3
    {
      var keys := node.shape.keys;
      OrderedWalks(src, ancestors, node);
      SortedLines(src.digest, keys, Walks(src, ancestors, node.kids));
      var lines := WriteLines(Sort(keys), InKeyOrder(keys, node.kids));
      text := if lines.Ok? then Ok(Some("{" + Join(lines.value) + "}")) else Err(Thrown);
    }

    /** The members loop: a key whose value is left out has no text. */
    method WriteLines(keys: seq<string>, vals: seq<Val>) returns (lines: Result<seq<string>, WriteError>)
      requires Closed(src.heap) && AllInHeap(src.heap, vals) && |keys| == |vals|
      modifies this
      ensures lines == WalkedLines(src.digest, keys, Walks(src, old(ancestors), vals))
      ensures ancestors == old(ancestors)
      decreases |src.heap.Keys - ancestors|, 2
    {
      var members: seq<string> := [];
      ghost var walks := Walks(src, ancestors, vals);
      for i := 0 to |keys|
        invariant ancestors == old(ancestors)
        invariant forall k :: 0 <= k < i ==> walks[k].Ok?
        invariant members == LinesUpTo(src.digest, keys, walks, i)
      {
        var part := Write(vals[i]);
        if part.Err? {
          SettledFails(ArrayShape, walks, i);
          return Err(Thrown);
        }
        LinesNext(src.digest, keys, walks, i, part.value);
        if part.value.Some? {
          members := members + [MemberText(keys[i], part.value.value)];
        }
      }
      LinesDone(src.digest, keys, walks);
      lines := Ok(members);
    }
  }
}
