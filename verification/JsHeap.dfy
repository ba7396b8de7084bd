/** Object graphs as the encoder and the fingerprint meet them: shared and cyclic, with prototypes. */
module JsHeap {
  import opened Wrappers
  import opened JsValues

  /** What a read gives: a value without parts, an object, or an exception thrown by a getter. */
  datatype Val = Leaf(value: Value) | Ref(id: nat) | Throws

  /** The methods that make an object a stream or a promise, and `instanceof StreamableFile`. */
  datatype Marks = Marks(pipe: bool, thenable: bool, asyncIterator: bool, streamableFile: bool)

  /** The own property names of one prototype: `None` for those without a getter. */
  type Level = seq<(string, Option<Val>)>

  /**
   * An object: its parts (of an object, the values of its own enumerable
   * keys), its other own names, and its prototype chain below
   * `Object.prototype`, nearest first.
   */
  datatype Node = Node(shape: Shape, kids: seq<Val>, marks: Marks, hidden: seq<string>, protos: seq<Level>)

  type Heap = map<nat, Node>

  ghost predicate InHeap(h: Heap, v: Val) {
    match v
    case Leaf(value) => !value.Compound?
    case Ref(id) => id in h
    case Throws => true
  }

  ghost predicate AllInHeap(h: Heap, vals: seq<Val>) {
    forall i :: 0 <= i < |vals| ==> InHeap(h, vals[i])
  }

  ghost predicate LevelInHeap(h: Heap, level: Level) {
    forall i :: 0 <= i < |level| && level[i].1.Some? ==> InHeap(h, level[i].1.value)
  }

  ghost predicate NodeInHeap(h: Heap, node: Node) {
    && Fits(node.shape, |node.kids|) && AllInHeap(h, node.kids)
    && forall i :: 0 <= i < |node.protos| ==> LevelInHeap(h, node.protos[i])
  }

  /** No reference leads out of the heap. */
  ghost predicate Closed(h: Heap) {
    forall id :: id in h ==> NodeInHeap(h, h[id])
  }

  /** The measure: every object entered is one fewer that is not yet an ancestor. */
  lemma Deeper(h: Heap, ancestors: set<nat>, id: nat)
    requires id in h && id !in ancestors
    ensures |h.Keys - (ancestors + {id})| < |h.Keys - ancestors|
  {
    assert h.Keys - ancestors == (h.Keys - (ancestors + {id})) + {id};
  }

  /** The getters of a level that nothing in `seen` shadows. */
  function LevelGetters(level: Level, seen: set<string>): seq<(string, Val)> {
    if level == [] then []
    else
      var (name, getter) := level[0];
      var rest := LevelGetters(level[1..], seen + {name});
      if name !in seen && name != "__proto__" && getter.Some? then [(name, getter.value)] + rest else rest
  }

  function Names(level: Level): set<string> {
    if level == [] then {} else {level[0].0} + Names(level[1..])
  }

  function Getters(protos: seq<Level>, seen: set<string>): seq<(string, Val)> {
    if protos == [] then []
    else LevelGetters(protos[0], seen) + Getters(protos[1..], seen + Names(protos[0]))
  }

  function OwnNames(node: Node): set<string> {
    (if node.shape.ObjectShape? then set key | key in node.shape.keys else {}) + set name | name in node.hidden
  }

  function OwnMembers(node: Node): (members: seq<(string, Val)>)
    requires node.shape.ObjectShape? && |node.shape.keys| == |node.kids|
    ensures Keys(members) == node.shape.keys && Values(members) == node.kids
  {
    seq(|node.kids|, i requires 0 <= i < |node.kids| => (node.shape.keys[i], node.kids[i]))
  }

  /** The fields of an object as strict mode reads them: its own, then the getters it inherits. */
  function Fields(node: Node): seq<(string, Val)>
    requires node.shape.ObjectShape? && |node.shape.keys| == |node.kids|
  {
    OwnMembers(node) + Getters(node.protos, OwnNames(node))
  }

  /** The first thing a level says about a name, if it has it. */
  function Find(level: Level, name: string): Option<Option<Val>> {
    if level == [] then None
    else if level[0].0 == name then Some(level[0].1)
    else Find(level[1..], name)
  }

  /** A read through the prototype chain stops at the nearest level that has the name. */
  function Nearest(protos: seq<Level>, name: string): Option<Option<Val>> {
    if protos == [] then None
    else if Find(protos[0], name).Some? then Find(protos[0], name)
    else Nearest(protos[1..], name)
  }

  lemma {:induction false} LevelGettersAre(level: Level, seen: set<string>, name: string, val: Val)
    ensures (name, val) in LevelGetters(level, seen) <==>
      name !in seen && name != "__proto__" && Find(level, name) == Some(Some(val))
    ensures Find(level, name).Some? <==> name in Names(level)
  {
    if level != [] {
      LevelGettersAre(level[1..], seen + {level[0].0}, name, val);
    }
  }

  /**
   * A getter is a field exactly when a read of its name from the object
   * reaches it: nothing nearer, with a getter or without, has the name.
   */
  lemma {:induction false} GettersAre(protos: seq<Level>, seen: set<string>, name: string, val: Val)
    ensures (name, val) in Getters(protos, seen) <==>
      name !in seen && name != "__proto__" && Nearest(protos, name) == Some(Some(val))
  {
    if protos != [] {
      LevelGettersAre(protos[0], seen, name, val);
      GettersAre(protos[1..], seen + Names(protos[0]), name, val);
    }
  }

  lemma {:induction false} LevelGettersDistinct(level: Level, seen: set<string>)
    ensures Distinct(Keys(LevelGetters(level, seen)))
    ensures forall key :: key in Keys(LevelGetters(level, seen)) ==> key in Names(level) && key !in seen
  {
    if level != [] {
      var (name, getter) := level[0];
      var rest := LevelGetters(level[1..], seen + {name});
      LevelGettersDistinct(level[1..], seen + {name});
      if getter.Some? {
        KeysOfCons((name, getter.value), rest);
        DistinctAppend([name], Keys(rest));
      }
    }
  }

  lemma DistinctAppend<T>(s: seq<T>, t: seq<T>)
    requires Distinct(s) && Distinct(t) && forall x :: x in s ==> x !in t
    ensures Distinct(s + t)
  {
    var all := s + t;
    forall i, j | 0 <= i < j < |all|
      ensures all[i] != all[j]
    {
      if i < |s| <= j {
        assert s[i] in s && t[j - |s|] in t;
      }
    }
  }

  lemma {:induction false} GettersDistinct(protos: seq<Level>, seen: set<string>)
    ensures Distinct(Keys(Getters(protos, seen)))
    ensures forall key :: key in Keys(Getters(protos, seen)) ==> key !in seen
  {
    if protos != [] {
      var near, far := LevelGetters(protos[0], seen), Getters(protos[1..], seen + Names(protos[0]));
      LevelGettersDistinct(protos[0], seen);
      GettersDistinct(protos[1..], seen + Names(protos[0]));
      DistinctAppend(Keys(near), Keys(far));
      assert Keys(near + far) == Keys(near) + Keys(far);
    }
  }

  /** No key is a field twice, and an own key stays the field it is. */
  lemma FieldsDistinct(node: Node)
    requires node.shape.ObjectShape? && |node.shape.keys| == |node.kids| && Distinct(node.shape.keys)
    ensures Distinct(Keys(Fields(node)))
    ensures Keys(Fields(node))[..|node.kids|] == node.shape.keys
    ensures Values(Fields(node))[..|node.kids|] == node.kids
  {
    var inherited := Getters(node.protos, OwnNames(node));
    GettersDistinct(node.protos, OwnNames(node));
    DistinctAppend(node.shape.keys, Keys(inherited));
    assert Keys(Fields(node)) == Keys(OwnMembers(node)) + Keys(inherited);
    assert Values(Fields(node)) == Values(OwnMembers(node)) + Values(inherited);
  }

  /**
   * What strict mode reads of an object, from its own names and its prototypes
   * alone: its own members, and each getter that a read of its name reaches,
   * past no own name, enumerable or not.
   */
  lemma FieldsAre(node: Node, name: string, val: Val)
    requires node.shape.ObjectShape? && |node.shape.keys| == |node.kids|
    ensures (name, val) in Fields(node) <==>
      || (exists i :: 0 <= i < |node.kids| && node.shape.keys[i] == name && node.kids[i] == val)
      || (name !in node.shape.keys && name !in node.hidden && name != "__proto__"
          && Nearest(node.protos, name) == Some(Some(val)))
  {
    GettersAre(node.protos, OwnNames(node), name, val);
    var own := OwnMembers(node);
    assert (name, val) in own <==> exists i :: 0 <= i < |node.kids| && own[i] == (name, val);
    forall i | 0 <= i < |node.kids|
      ensures own[i] == (name, val) <==> node.shape.keys[i] == name && node.kids[i] == val
    {
      assert Keys(own)[i] == own[i].0 && Values(own)[i] == own[i].1;
    }
    assert (name, val) in Fields(node) <==> (name, val) in own || (name, val) in Getters(node.protos, OwnNames(node));
  }

  lemma {:induction false} LevelGettersInHeap(h: Heap, level: Level, seen: set<string>)
    requires LevelInHeap(h, level)
    ensures AllInHeap(h, Values(LevelGetters(level, seen)))
  {
    if level != [] {
      assert LevelInHeap(h, level[1..]);
      LevelGettersInHeap(h, level[1..], seen + {level[0].0});
      if level[0].1.Some? {
        KeysOfCons((level[0].0, level[0].1.value), LevelGetters(level[1..], seen + {level[0].0}));
      }
    }
  }

  lemma {:induction false} GettersInHeap(h: Heap, protos: seq<Level>, seen: set<string>)
    requires forall i :: 0 <= i < |protos| ==> LevelInHeap(h, protos[i])
    ensures AllInHeap(h, Values(Getters(protos, seen)))
  {
    if protos != [] {
      LevelGettersInHeap(h, protos[0], seen);
      GettersInHeap(h, protos[1..], seen + Names(protos[0]));
      var near, far := LevelGetters(protos[0], seen), Getters(protos[1..], seen + Names(protos[0]));
      assert Values(near + far) == Values(near) + Values(far);
    }
  }

  /** What the encoder reads of an object: in strict mode, the getters too. */
  function View(node: Node, strict: bool): (shape: Shape)
    requires Fits(node.shape, |node.kids|)
  {
    if strict && node.shape.ObjectShape? then ObjectShape(Keys(Fields(node))) else node.shape
  }

  function Parts(node: Node, strict: bool): seq<Val>
    requires Fits(node.shape, |node.kids|)
  {
    if strict && node.shape.ObjectShape? then Values(Fields(node)) else node.kids
  }

  lemma ViewFits(h: Heap, node: Node, strict: bool)
    requires NodeInHeap(h, node)
    ensures Fits(View(node, strict), |Parts(node, strict)|) && AllInHeap(h, Parts(node, strict))
  {
    if strict && node.shape.ObjectShape? {
      FieldsDistinct(node);
      GettersInHeap(h, node.protos, OwnNames(node));
      assert Values(Fields(node)) == Values(OwnMembers(node)) + Values(Getters(node.protos, OwnNames(node)));
    }
  }

  lemma NextName(level: Level, n: nat, seen: set<string>)
    requires n < |level|
    ensures var (name, getter) := level[n];
      var added := if name !in seen && name != "__proto__" && getter.Some? then [name] else [];
      && Keys(LevelGetters(level[n..], seen)) == added + Keys(LevelGetters(level[n + 1..], seen + {name}))
      && seen + Names(level[n..]) == seen + {name} + Names(level[n + 1..])
  {
    var (name, getter) := level[n];
    assert level[n..][0] == level[n] && level[n..][1..] == level[n + 1..];
    if getter.Some? {
      KeysOfCons((name, getter.value), LevelGetters(level[n + 1..], seen + {name}));
    }
  }

  lemma NextLevel(protos: seq<Level>, p: nat, seen: set<string>)
    requires p < |protos|
    ensures Keys(Getters(protos[p..], seen)) ==
      Keys(LevelGetters(protos[p], seen)) + Keys(Getters(protos[p + 1..], seen + Names(protos[p])))
  {
    assert protos[p..][0] == protos[p] && protos[p..][1..] == protos[p + 1..];
    var near, far := LevelGetters(protos[p], seen), Getters(protos[p + 1..], seen + Names(protos[p]));
    assert Keys(near + far) == Keys(near) + Keys(far);
  }

  /** The getters one level adds, and the names it shadows for the levels behind it. */
  method LevelKeys(level: Level, shadowing: set<string>) returns (keys: seq<string>, seen: set<string>)
    ensures keys == Keys(LevelGetters(level, shadowing))
    ensures seen == shadowing + Names(level)
  {
    keys, seen := [], shadowing;
    assert level[0..] == level;
    for n := 0 to |level|
      invariant seen + Names(level[n..]) == shadowing + Names(level)
      invariant keys + Keys(LevelGetters(level[n..], seen)) == Keys(LevelGetters(level, shadowing))
    {
      var (name, getter) := level[n];
      NextName(level, n, seen);
      if name !in seen && name != "__proto__" && getter.Some? {
        keys := keys + [name];
      }
      seen := seen + {name};
    }
    assert level[|level|..] == [];
  }

  /** The key list of strict mode, as the source collects it. */
  method FieldKeys(node: Node) returns (keys: seq<string>)
    requires node.shape.ObjectShape? && |node.shape.keys| == |node.kids|
    ensures keys == Keys(Fields(node))
  {
    keys := node.shape.keys;
    var seen := OwnNames(node);
    assert node.protos[0..] == node.protos;
    FieldsSplit(node);
    for p := 0 to |node.protos|
      invariant keys + Keys(Getters(node.protos[p..], seen)) == Keys(Fields(node))
    {
      NextLevel(node.protos, p, seen);
      var added: seq<string>;
      added, seen := LevelKeys(node.protos[p], seen);
      keys := keys + added;
    }
    assert node.protos[|node.protos|..] == [];
  }

  lemma FieldsSplit(node: Node)
    requires node.shape.ObjectShape? && |node.shape.keys| == |node.kids|
    ensures Keys(Fields(node)) == node.shape.keys + Keys(Getters(node.protos, OwnNames(node)))
  {
  }
}
