/** The encoder on object graphs: cycles, shared objects, strict mode, and the ancestor set it keeps. */
module GraphEncoder {
  import opened Wrappers
  import opened JsValues
  import opened JsHeap
  import opened ResultCodec

  datatype EncodeError = Circular | HoldsFunction | HoldsAwaited | GetterThrows | Thrown

  datatype Context = Context(texts: Texts, heap: Heap, strict: bool)

  datatype Reason = ReturnedFile | ReturnedStream | ReturnedIterable

  /** Why an object cannot be stored at all; `None` if it can. */
  function UnreplayableReason(marks: Marks): Option<Reason> {
    if marks.streamableFile then Some(ReturnedFile)
    else if marks.pipe then Some(ReturnedStream)
    else if marks.asyncIterator then Some(ReturnedIterable)
    else None
  }

  /** A StreamableFile, a stream or an async iterable, the first of them that it is; a promise alone is no reason. */
  lemma UnreplayableExactly(marks: Marks)
    ensures UnreplayableReason(marks) == Some(ReturnedFile) <==> marks.streamableFile
    ensures UnreplayableReason(marks) == Some(ReturnedStream) <==> !marks.streamableFile && marks.pipe
    ensures UnreplayableReason(marks) == Some(ReturnedIterable) <==> !marks.streamableFile && !marks.pipe && marks.asyncIterator
    ensures UnreplayableReason(marks) == None <==> !marks.streamableFile && !marks.pipe && !marks.asyncIterator
  {
  }

  /** Whether GraphQL would await it. */
  predicate Awaited(marks: Marks) {
    marks.thenable || UnreplayableReason(marks).Some?
  }

  /** How the parts of an object are read: strict mode names a field whose getter throws. */
  predicate Guarded(c: Context, node: Node) { c.strict && node.shape.ObjectShape? }

  /** What `encode` gives for a value met inside `ancestors`; `None` for what is left out. */
  function EncodeVal(c: Context, ancestors: set<nat>, v: Val, guarded: bool): Result<Option<Value>, EncodeError>
    requires Closed(c.heap) && InHeap(c.heap, v)
    decreases |c.heap.Keys - ancestors|, 0
  {
    match v
    case Leaf(value) =>
      if c.strict && value.Function? then Err(HoldsFunction) else Ok(EncodeLeaf(c.texts, value))
    case Throws => Err(if guarded then GetterThrows else Thrown)
    case Ref(id) =>
      var node := c.heap[id];
      if c.strict && Awaited(node.marks) then Err(HoldsAwaited)
      else if id in ancestors then Err(Circular)
      else
        Deeper(c.heap, ancestors, id);
        EncodeNode(c, ancestors + {id}, node)
  }

  function EncodeNode(c: Context, ancestors: set<nat>, node: Node): Result<Option<Value>, EncodeError>
    requires Closed(c.heap) && NodeInHeap(c.heap, node)
    decreases |c.heap.Keys - ancestors|, |Parts(node, c.strict)| + 1
  {
    ViewFits(c.heap, node, c.strict);
    var parts :- EncodeEach(c, ancestors, Parts(node, c.strict), Guarded(c, node));
    Ok(Some(Assemble(View(node, c.strict), parts)))
  }

  function EncodeEach(c: Context, ancestors: set<nat>, vals: seq<Val>, guarded: bool)
    : (parts: Result<seq<Option<Value>>, EncodeError>)
    requires Closed(c.heap) && AllInHeap(c.heap, vals)
    ensures parts.Ok? ==> |parts.value| == |vals|
    decreases |c.heap.Keys - ancestors|, |vals|
  {
    if vals == [] then Ok([])
    else
      var part :- EncodeVal(c, ancestors, vals[0], guarded);
      var rest :- EncodeEach(c, ancestors, vals[1..], guarded);
      Ok([part] + rest)
  }

  function EncodeResult(c: Context, v: Val): Result<Value, EncodeError>
    requires Closed(c.heap) && InHeap(c.heap, v)
  {
    var encoded :- EncodeVal(c, {}, v, false);
    Ok(if encoded.Some? then encoded.value else Undefined)
  }

  /** The tree a graph unfolds to, or what stops the encoder from walking it. */
  function Unfold(c: Context, ancestors: set<nat>, v: Val, guarded: bool): (tree: Result<Value, EncodeError>)
    requires Closed(c.heap) && InHeap(c.heap, v)
    ensures tree.Ok? ==> WellFormed(tree.value)
    decreases |c.heap.Keys - ancestors|, 0
  {
    match v
    case Leaf(value) => if c.strict && value.Function? then Err(HoldsFunction) else Ok(value)
    case Throws => Err(if guarded then GetterThrows else Thrown)
    case Ref(id) =>
      var node := c.heap[id];
      if c.strict && Awaited(node.marks) then Err(HoldsAwaited)
      else if id in ancestors then Err(Circular)
      else
        ViewFits(c.heap, node, c.strict);
        Deeper(c.heap, ancestors, id);
        var kids :- UnfoldEach(c, ancestors + {id}, Parts(node, c.strict), Guarded(c, node));
        Ok(Compound(View(node, c.strict), kids))
  }

  function UnfoldEach(c: Context, ancestors: set<nat>, vals: seq<Val>, guarded: bool)
    : (trees: Result<seq<Value>, EncodeError>)
    requires Closed(c.heap) && AllInHeap(c.heap, vals)
    ensures trees.Ok? ==> |trees.value| == |vals| && forall i :: 0 <= i < |vals| ==> WellFormed(trees.value[i])
    decreases |c.heap.Keys - ancestors|, |vals|
  {
    if vals == [] then Ok([])
    else
      var tree :- Unfold(c, ancestors, vals[0], guarded);
      var rest :- UnfoldEach(c, ancestors, vals[1..], guarded);
      Ok([tree] + rest)
  }

  function EncodedTree(c: Context, tree: Result<Value, EncodeError>): Result<Option<Value>, EncodeError>
    requires tree.Ok? ==> WellFormed(tree.value)
  {
    if tree.Ok? then Ok(Encode(c.texts, tree.value)) else Err(tree.error)
  }

  function EncodedTrees(texts: Texts, trees: seq<Value>): seq<Option<Value>>
    requires forall i :: 0 <= i < |trees| ==> WellFormed(trees[i])
  {
    seq(|trees|, i requires 0 <= i < |trees| => Encode(texts, trees[i]))
  }

  /** Encoding a graph is encoding the tree it unfolds to: sharing leaves no trace. */
  lemma {:induction false} EncodesTheTree(c: Context, ancestors: set<nat>, v: Val, guarded: bool)
    requires Closed(c.heap) && InHeap(c.heap, v)
    ensures EncodeVal(c, ancestors, v, guarded) == EncodedTree(c, Unfold(c, ancestors, v, guarded))
    decreases |c.heap.Keys - ancestors|, 0
  {
    if v.Ref? && v.id !in ancestors {
      var node := c.heap[v.id];
      ViewFits(c.heap, node, c.strict);
      Deeper(c.heap, ancestors, v.id);
      EncodesTheTrees(c, ancestors + {v.id}, Parts(node, c.strict), Guarded(c, node));
    }
  }

  lemma {:induction false} EncodesTheTrees(c: Context, ancestors: set<nat>, vals: seq<Val>, guarded: bool)
    requires Closed(c.heap) && AllInHeap(c.heap, vals)
    ensures var trees := UnfoldEach(c, ancestors, vals, guarded);
      EncodeEach(c, ancestors, vals, guarded)
      == if trees.Ok? then Ok(EncodedTrees(c.texts, trees.value)) else Err(trees.error)
    decreases |c.heap.Keys - ancestors|, |vals|
  {
    if vals != [] {
      EncodesTheTree(c, ancestors, vals[0], guarded);
      EncodesTheTrees(c, ancestors, vals[1..], guarded);
      var trees := UnfoldEach(c, ancestors, vals, guarded);
      if trees.Ok? {
        assert EncodedTrees(c.texts, trees.value) ==
          [Encode(c.texts, trees.value[0])] + EncodedTrees(c.texts, trees.value[1..]);
      }
    }
  }

  /** The parts of an object the encoder goes into: in strict mode, none of an object it refuses. */
  predicate Edge(c: Context, x: nat, y: nat)
    requires x in c.heap && Fits(c.heap[x].shape, |c.heap[x].kids|)
  {
    Ref(y) in Parts(c.heap[x], c.strict)
  }

  ghost predicate IsPath(c: Context, path: seq<nat>)
    requires Closed(c.heap)
  {
    && path != []
    && (forall i :: 0 <= i < |path| ==> path[i] in c.heap)
    && forall i :: 0 <= i < |path| - 1 ==> StepOf(c, path, i)
  }

  ghost predicate StepOf(c: Context, path: seq<nat>, i: nat)
    requires Closed(c.heap) && i + 1 < |path| && path[i] in c.heap
  {
    Edge(c, path[i], path[i + 1])
  }

  /** The path comes back to an object that encloses its last one. */
  predicate Closes(path: seq<nat>, ancestors: set<nat>) {
    path != [] && (path[|path| - 1] in ancestors || path[|path| - 1] in path[..|path| - 1])
  }

  ghost predicate LeadsToCycle(c: Context, ancestors: set<nat>, id: nat)
    requires Closed(c.heap)
  {
    exists path :: IsPath(c, path) && path[0] == id && Closes(path, ancestors)
  }

  lemma {:induction false} EachFails(c: Context, ancestors: set<nat>, vals: seq<Val>, guarded: bool, i: nat)
    requires Closed(c.heap) && AllInHeap(c.heap, vals) && i < |vals|
    requires EncodeVal(c, ancestors, vals[i], guarded).Err?
    ensures EncodeEach(c, ancestors, vals, guarded).Err?
    decreases i
  {
    if i > 0 {
      EachFails(c, ancestors, vals[1..], guarded, i - 1);
    }
  }

  lemma {:induction false} WhichFails(c: Context, ancestors: set<nat>, vals: seq<Val>, guarded: bool) returns (i: nat)
    requires Closed(c.heap) && AllInHeap(c.heap, vals)
    requires EncodeEach(c, ancestors, vals, guarded).Err?
    ensures i < |vals|
    ensures EncodeVal(c, ancestors, vals[i], guarded) == Err(EncodeEach(c, ancestors, vals, guarded).error)
    decreases |vals|
  {
    if EncodeVal(c, ancestors, vals[0], guarded).Err? {
      i := 0;
    } else {
      i := WhichFails(c, ancestors, vals[1..], guarded);
      i := i + 1;
    }
  }

  lemma PathRest(c: Context, path: seq<nat>, ancestors: set<nat>)
    requires Closed(c.heap) && IsPath(c, path) && |path| > 1
    ensures IsPath(c, path[1..])
    ensures Closes(path, ancestors) ==> Closes(path[1..], ancestors + {path[0]})
  {
    var rest, last := path[1..], path[|path| - 1];
    forall i | 0 <= i < |rest| - 1
      ensures StepOf(c, rest, i)
    {
      assert StepOf(c, path, i + 1);
    }
    if last in path[..|path| - 1] && last != path[0] {
      var k :| 0 <= k < |path| - 1 && path[k] == last;
      assert rest[..|rest| - 1][k - 1] == last;
    }
  }

  /** What stops the encoder at an object, other than a way back: a promise or stream, a function, a getter that throws. */
  ghost predicate Blocked(c: Context, id: nat)
    requires Closed(c.heap) && id in c.heap
  {
    || (c.strict && var marks := c.heap[id].marks;
                    marks.thenable || marks.pipe || marks.asyncIterator || marks.streamableFile)
    || Throws in Parts(c.heap[id], c.strict)
    || (c.strict && Leaf(Function) in Parts(c.heap[id], c.strict))
  }

  /** A way through encoded edges to something the encoder cannot pass. */
  ghost predicate Stuck(c: Context, ancestors: set<nat>, path: seq<nat>)
    requires Closed(c.heap)
  {
    IsPath(c, path) && (Closes(path, ancestors) || Blocked(c, path[|path| - 1]))
  }

  lemma BlockedFails(c: Context, ancestors: set<nat>, id: nat, guarded: bool)
    requires Closed(c.heap) && id in c.heap && Blocked(c, id)
    ensures EncodeVal(c, ancestors, Ref(id), guarded).Err?
  {
    var node := c.heap[id];
    ViewFits(c.heap, node, c.strict);
    if id !in ancestors && !(c.strict && Awaited(node.marks)) {
      Deeper(c.heap, ancestors, id);
      var vals := Parts(node, c.strict);
      var i :| 0 <= i < |vals| && (vals[i] == Throws || (c.strict && vals[i] == Leaf(Function)));
      EachFails(c, ancestors + {id}, vals, Guarded(c, node), i);
    }
  }

  /** The encoder never succeeds where there is something it cannot pass. */
  lemma {:induction false} StuckFails(c: Context, ancestors: set<nat>, path: seq<nat>, guarded: bool)
    requires Closed(c.heap) && Stuck(c, ancestors, path)
    ensures EncodeVal(c, ancestors, Ref(path[0]), guarded).Err?
    decreases |path|
  {
    var id := path[0];
    if |path| == 1 {
      if id !in ancestors {
        BlockedFails(c, ancestors, id, guarded);
      }
    } else if id !in ancestors {
      var node, rest := c.heap[id], path[1..];
      ViewFits(c.heap, node, c.strict);
      Deeper(c.heap, ancestors, id);
      assert StepOf(c, path, 0);
      var vals := Parts(node, c.strict);
      var i :| 0 <= i < |vals| && vals[i] == Ref(rest[0]);
      PathRest(c, path, ancestors);
      StuckFails(c, ancestors + {id}, rest, Guarded(c, node));
      EachFails(c, ancestors + {id}, vals, Guarded(c, node), i);
    }
  }

  lemma PathFrom(c: Context, id: nat, rest: seq<nat>)
    requires Closed(c.heap) && id in c.heap && IsPath(c, rest) && Edge(c, id, rest[0])
    ensures IsPath(c, [id] + rest)
    ensures forall ancestors :: Closes(rest, ancestors + {id}) ==> Closes([id] + rest, ancestors)
  {
    var path := [id] + rest;
    assert StepOf(c, path, 0);
    forall k | 0 <= k < |path| - 1
      ensures StepOf(c, path, k)
    {
      if k > 0 {
        assert StepOf(c, rest, k - 1);
      }
    }
    assert path[..|path| - 1] == [id] + rest[..|rest| - 1];
  }

  /** Whatever error it raises, there is something the encoder could not pass. */
  lemma {:induction false} FailsMeansStuck(c: Context, ancestors: set<nat>, id: nat, guarded: bool) returns (path: seq<nat>)
    requires Closed(c.heap) && id in c.heap && EncodeVal(c, ancestors, Ref(id), guarded).Err?
    ensures Stuck(c, ancestors, path) && path[0] == id
    decreases |c.heap.Keys - ancestors|
  {
    var node := c.heap[id];
    if id in ancestors || (c.strict && Awaited(node.marks)) {
      return [id];
    }
    ViewFits(c.heap, node, c.strict);
    Deeper(c.heap, ancestors, id);
    var vals := Parts(node, c.strict);
    var i := WhichFails(c, ancestors + {id}, vals, Guarded(c, node));
    if vals[i].Ref? {
      var rest := FailsMeansStuck(c, ancestors + {id}, vals[i].id, Guarded(c, node));
      PathFrom(c, id, rest);
      return [id] + rest;
    }
    assert vals[i] in vals;
    return [id];
  }

  /** What an error says about the object it was raised at. */
  ghost predicate Explains(c: Context, ancestors: set<nat>, path: seq<nat>, error: EncodeError)
    requires Closed(c.heap) && IsPath(c, path)
  {
    var node := c.heap[path[|path| - 1]];
    match error
    case Circular => Closes(path, ancestors)
    case HoldsFunction => c.strict && Leaf(Function) in Parts(node, c.strict)
    case HoldsAwaited =>
      c.strict && (node.marks.thenable || node.marks.pipe || node.marks.asyncIterator || node.marks.streamableFile)
    case GetterThrows => c.strict && node.shape.ObjectShape? && Throws in Parts(node, c.strict)
    case Thrown => !(c.strict && node.shape.ObjectShape?) && Throws in Parts(node, c.strict)
  }

  /** A part without parts of its own that stops the encoder is explained by the object it belongs to. */
  lemma ErrorHere(c: Context, ancestors: set<nat>, id: nat, i: nat)
    requires Closed(c.heap) && id in c.heap && IsPath(c, [id]) && AllInHeap(c.heap, Parts(c.heap[id], c.strict))
    requires i < |Parts(c.heap[id], c.strict)| && !Parts(c.heap[id], c.strict)[i].Ref?
    requires EncodeVal(c, ancestors + {id}, Parts(c.heap[id], c.strict)[i], Guarded(c, c.heap[id])).Err?
    ensures Explains(c, ancestors, [id],
      EncodeVal(c, ancestors + {id}, Parts(c.heap[id], c.strict)[i], Guarded(c, c.heap[id])).error)
  {
    var vals := Parts(c.heap[id], c.strict);
    assert vals[i] in vals;
  }

  /**
   * The error says what is wrong: whichever it is, a way through encoded edges
   * leads to what it names. A getter that throws is named as one for a field
   * that strict mode reads, and its own exception goes through otherwise.
   */
  lemma {:induction false} ErrorsAreRight(c: Context, ancestors: set<nat>, id: nat, guarded: bool) returns (path: seq<nat>)
    requires Closed(c.heap) && id in c.heap && EncodeVal(c, ancestors, Ref(id), guarded).Err?
    ensures IsPath(c, path) && path[0] == id
    ensures Explains(c, ancestors, path, EncodeVal(c, ancestors, Ref(id), guarded).error)
    decreases |c.heap.Keys - ancestors|
  {
    var node := c.heap[id];
    path := [id];
    if id !in ancestors && !(c.strict && Awaited(node.marks)) {
      ViewFits(c.heap, node, c.strict);
      Deeper(c.heap, ancestors, id);
      var vals := Parts(node, c.strict);
      var i := WhichFails(c, ancestors + {id}, vals, Guarded(c, node));
      if !vals[i].Ref? {
        ErrorHere(c, ancestors, id, i);
      } else {
        assert vals[i] in vals;
        var rest := ErrorsAreRight(c, ancestors + {id}, vals[i].id, Guarded(c, node));
        PathFrom(c, id, rest);
        path := [id] + rest;
        assert path[|path| - 1] == rest[|rest| - 1];
      }
    }
  }

  /**
   * Exactly when a result can be stored, in either mode: the encoder succeeds
   * if and only if no way through encoded edges leads back into an enclosing
   * object, to a getter that throws, or, in strict mode, to a promise, a
   * stream or a function.
   */
  lemma SucceedsExactly(c: Context, id: nat)
    requires Closed(c.heap) && id in c.heap
    ensures EncodeResult(c, Ref(id)).Ok? <==> !exists path :: Stuck(c, {}, path) && path[0] == id
  {
    if EncodeResult(c, Ref(id)).Err? {
      var path := FailsMeansStuck(c, {}, id, false);
    }
    if path :| Stuck(c, {}, path) && path[0] == id {
      StuckFails(c, {}, path, false);
    }
  }

  /** The circular error names a real way back into an enclosing object. */
  lemma {:induction false} CircularMeansCycle(c: Context, ancestors: set<nat>, v: Val, guarded: bool) returns (path: seq<nat>)
    requires Closed(c.heap) && InHeap(c.heap, v)
    requires EncodeVal(c, ancestors, v, guarded) == Err(Circular)
    ensures IsPath(c, path) && v == Ref(path[0]) && Closes(path, ancestors)
    decreases |c.heap.Keys - ancestors|
  {
    var id := v.id;
    if id in ancestors {
      path := [id];
    } else {
      var node := c.heap[id];
      ViewFits(c.heap, node, c.strict);
      Deeper(c.heap, ancestors, id);
      var vals := Parts(node, c.strict);
      var i := WhichFails(c, ancestors + {id}, vals, Guarded(c, node));
      var rest := CircularMeansCycle(c, ancestors + {id}, vals[i], Guarded(c, node));
      path := [id] + rest;
      assert vals[i] in vals;
      PathFrom(c, id, rest);
    }
  }

  /** No object that encoded edges lead to from `id` stops the encoder by what it is. */
  ghost predicate Unblocked(c: Context, id: nat)
    requires Closed(c.heap)
  {
    forall path :: IsPath(c, path) && path[0] == id ==> !Blocked(c, path[|path| - 1])
  }

  lemma UnblockedParts(c: Context, id: nat, next: nat)
    requires Closed(c.heap) && id in c.heap && Unblocked(c, id) && next in c.heap && Edge(c, id, next)
    ensures Unblocked(c, next)
  {
    forall path | IsPath(c, path) && path[0] == next
      ensures !Blocked(c, path[|path| - 1])
    {
      PathFrom(c, id, path);
      var longer := [id] + path;
      assert longer[|longer| - 1] == path[|path| - 1];
    }
  }

  lemma NotBlockedHere(c: Context, id: nat)
    requires Closed(c.heap) && id in c.heap && Unblocked(c, id)
    ensures !Blocked(c, id)
  {
    var path := [id];
    assert IsPath(c, path) && path[|path| - 1] == id;
  }

  /** An object that is not in the way itself fails because one of its parts does, and with the same error. */
  lemma FailingPart(c: Context, ancestors: set<nat>, id: nat, guarded: bool) returns (next: nat)
    requires Closed(c.heap) && id in c.heap && id !in ancestors && !Blocked(c, id)
    requires EncodeVal(c, ancestors, Ref(id), guarded).Err?
    ensures next in c.heap && Edge(c, id, next)
    ensures EncodeVal(c, ancestors + {id}, Ref(next), Guarded(c, c.heap[id])) == EncodeVal(c, ancestors, Ref(id), guarded)
  {
    var node := c.heap[id];
    ViewFits(c.heap, node, c.strict);
    Deeper(c.heap, ancestors, id);
    var vals := Parts(node, c.strict);
    var i := WhichFails(c, ancestors + {id}, vals, Guarded(c, node));
    assert vals[i] in vals;
    next := vals[i].id;
  }

  /** Where nothing else is in the way, a cycle is the only thing that stops the encoder, in either mode. */
  lemma {:induction false} OnlyCyclesFail(c: Context, ancestors: set<nat>, id: nat, guarded: bool)
    requires Closed(c.heap) && id in c.heap && Unblocked(c, id)
    requires EncodeVal(c, ancestors, Ref(id), guarded).Err?
    ensures EncodeVal(c, ancestors, Ref(id), guarded) == Err(Circular)
    decreases |c.heap.Keys - ancestors|
  {
    NotBlockedHere(c, id);
    if id !in ancestors {
      Deeper(c.heap, ancestors, id);
      var next := FailingPart(c, ancestors, id, guarded);
      UnblockedParts(c, id, next);
      OnlyCyclesFail(c, ancestors + {id}, next, Guarded(c, c.heap[id]));
    }
  }

  /**
   * The circular error is exact, in either mode: it comes only from a cycle, a
   * cycle always makes the encoding fail, and where nothing else that can be
   * reached stops the encoder, the error is raised if and only if a cycle can
   * be reached.
   */
  lemma CycleExactness(c: Context, id: nat)
    requires Closed(c.heap) && id in c.heap
    ensures EncodeResult(c, Ref(id)) == Err(Circular) ==> LeadsToCycle(c, {}, id)
    ensures LeadsToCycle(c, {}, id) ==> EncodeResult(c, Ref(id)).Err?
    ensures Unblocked(c, id) ==> (EncodeResult(c, Ref(id)) == Err(Circular) <==> LeadsToCycle(c, {}, id))
  {
    if EncodeResult(c, Ref(id)) == Err(Circular) {
      var path := CircularMeansCycle(c, {}, Ref(id), false);
    }
    if LeadsToCycle(c, {}, id) {
      var path :| IsPath(c, path) && path[0] == id && Closes(path, {});
      StuckFails(c, {}, path, false);
      if Unblocked(c, id) {
        OnlyCyclesFail(c, {}, id, false);
      }
    }
  }

  ghost predicate Descends(c: Context, rank: nat -> nat)
    requires Closed(c.heap)
  {
    forall x, y | x in c.heap && Edge(c, x, y) :: rank(y) < rank(x)
  }

  lemma {:induction false} RanksFall(c: Context, rank: nat -> nat, path: seq<nat>)
    requires Closed(c.heap) && Descends(c, rank) && IsPath(c, path)
    ensures forall i :: 0 <= i < |path| - 1 ==> rank(path[|path| - 1]) < rank(path[i])
    decreases |path|
  {
    if |path| > 1 {
      var rest := path[1..];
      PathRest(c, path, {});
      RanksFall(c, rank, rest);
      assert StepOf(c, path, 0);
      assert rest[|rest| - 1] == path[|path| - 1];
      forall i | 0 <= i < |path| - 1
        ensures rank(path[|path| - 1]) < rank(path[i])
      {
        if i > 0 {
          assert rest[i - 1] == path[i];
        }
      }
    }
  }

  /** However much they share, objects that can be ranked never give the circular error. */
  lemma SharingIsNoCycle(c: Context, rank: nat -> nat, id: nat)
    requires Closed(c.heap) && id in c.heap && Descends(c, rank)
    ensures EncodeResult(c, Ref(id)) != Err(Circular)
    ensures Unblocked(c, id) ==> EncodeResult(c, Ref(id)).Ok?
  {
    if EncodeResult(c, Ref(id)).Err? && (Unblocked(c, id) || EncodeResult(c, Ref(id)) == Err(Circular)) {
      if Unblocked(c, id) {
        OnlyCyclesFail(c, {}, id, false);
      }
      var path := CircularMeansCycle(c, {}, Ref(id), false);
      RanksFall(c, rank, path);
    }
  }

  /**
   * The keys an object is stored with, where it can be stored: its own, and in
   * strict mode the names of getters that a read reaches, too.
   */
  lemma StoredKeys(c: Context, id: nat, name: string)
    requires Closed(c.heap) && id in c.heap && c.heap[id].shape.ObjectShape? && Unfold(c, {}, Ref(id), false).Ok?
    ensures var (node, tree) := (c.heap[id], Unfold(c, {}, Ref(id), false).value);
      && tree.Compound? && tree.shape.ObjectShape?
      && (!c.strict ==> tree.shape.keys == node.shape.keys)
      && (c.strict ==> (name in tree.shape.keys <==>
            || name in node.shape.keys
            || (name !in node.hidden && name != "__proto__"
                && exists val :: Nearest(node.protos, name) == Some(Some(val)))))
  {
    var node := c.heap[id];
    ViewFits(c.heap, node, c.strict);
    Deeper(c.heap, {}, id);
    var fields := Fields(node);
    if c.strict && name in Keys(fields) {
      var i :| 0 <= i < |fields| && Keys(fields)[i] == name;
      assert (name, fields[i].1) in fields;
      FieldsAre(node, name, fields[i].1);
    }
    if i :| 0 <= i < |node.kids| && node.shape.keys[i] == name {
      FieldsAre(node, name, node.kids[i]);
      InFields(fields, name, node.kids[i]);
    }
    if val :| Nearest(node.protos, name) == Some(Some(val)) {
      FieldsAre(node, name, val);
      InFields(fields, name, val);
    }
  }

  lemma InFields(fields: seq<(string, Val)>, name: string, val: Val)
    ensures (name, val) in fields ==> name in Keys(fields)
  {
    if (name, val) in fields {
      var i :| 0 <= i < |fields| && fields[i] == (name, val);
      assert Keys(fields)[i] == name;
    }
  }

  /** What a replay hands out is the normal form of the tree the handler's result unfolded to. */
  lemma GraphRoundTrip(c: Context, v: Val)
    requires Closed(c.heap) && InHeap(c.heap, v) && TextsRoundTrip(c.texts)
    ensures var tree, encoded := Unfold(c, {}, v, false), EncodeResult(c, v);
      && (encoded.Ok? <==> tree.Ok?)
      && (encoded.Ok? && Normal(tree.value).Some? ==>
            JsonSafe(encoded.value) && Decode(c.texts, encoded.value) == Ok(Normal(tree.value).value))
      && (encoded.Ok? && Normal(tree.value).None? ==> encoded.value == Undefined)
  {
    EncodesTheTree(c, {}, v, false);
    var tree := Unfold(c, {}, v, false);
    if tree.Ok? {
      RoundTrip(c.texts, tree.value);
    }
  }

  /** The encoder as the source runs it, with one ancestor set shared by the whole walk. */
  class Encoder {
    const c: Context
    var ancestors: set<nat>

    constructor (c: Context)
      ensures this.c == c && ancestors == {}
    {
      this.c := c;
      ancestors := {};
    }

    method EncodeValue(v: Val, guarded: bool) returns (encoded: Result<Option<Value>, EncodeError>)
      requires Closed(c.heap) && InHeap(c.heap, v)
      modifies this
      ensures encoded == EncodeVal(c, old(ancestors), v, guarded)
      ensures ancestors == old(ancestors)
      decreases |c.heap.Keys - ancestors|, 1
    {
      match v {
        case Throws =>
          return Err(if guarded then GetterThrows else Thrown);
        case Leaf(value) =>
          if value.Function? && c.strict {
            return Err(HoldsFunction);
          }
          return Ok(EncodeLeaf(c.texts, value));
        case Ref(id) =>
          var node := c.heap[id];
          if c.strict && Awaited(node.marks) {
            return Err(HoldsAwaited);
          }
          if id in ancestors {
            return Err(Circular);
          }
          ViewFits(c.heap, node, c.strict);
          Deeper(c.heap, ancestors, id);
          ghost var enclosing := ancestors;
          ancestors := ancestors + {id};
          if node.shape.ObjectShape? {
            encoded := EncodeObject(node);
          } else {
            var parts := EncodeItems(node.kids);
            encoded := if parts.Ok? then Ok(Some(Assemble(node.shape, parts.value))) else Err(parts.error);
          }
          ancestors := ancestors - {id};
          assert ancestors == enclosing;
      }
    }

    /** `map(item)` over the entries of an array, a Map or a Set. */
    method EncodeItems(vals: seq<Val>) returns (parts: Result<seq<Option<Value>>, EncodeError>)
      requires Closed(c.heap) && AllInHeap(c.heap, vals)
      modifies this
      ensures parts == EncodeEach(c, old(ancestors), vals, false)
      ensures ancestors == old(ancestors)
      decreases |c.heap.Keys - ancestors|, 2
    {
      var done: seq<Option<Value>> := [];
      assert vals[0..] == vals;
      JoinedNone(EncodeEach(c, ancestors, vals, false));
      for i := 0 to |vals|
        invariant |done| == i && ancestors == old(ancestors)
        invariant Joined(done, EncodeEach(c, ancestors, vals[i..], false)) == EncodeEach(c, ancestors, vals, false)
      {
        var part := EncodeValue(vals[i], false);
        NextPart(c, ancestors, vals, i, false, done);
        if part.Err? {
          return Err(part.error);
        }
        done := done + [part.value];
      }
      parts := Ok(done);
      assert done + [] == done;
    }

    /** An object: its members, wrapped if they use the tag key. */
    method EncodeObject(node: Node) returns (encoded: Result<Option<Value>, EncodeError>)
      requires Closed(c.heap) && NodeInHeap(c.heap, node) && node.shape.ObjectShape?
      modifies this
      ensures ancestors == old(ancestors)
      ensures encoded == EncodeNode(c, old(ancestors), node)
      decreases |c.heap.Keys - ancestors|, 3
    {
      ViewFits(c.heap, node, c.strict);
      var keys := node.shape.keys;
      if c.strict {
        keys := FieldKeys(node);
      }
      var members := EncodeMembers(keys, Parts(node, c.strict));
      if members.Err? {
        return Err(members.error);
      }
      var target := ObjectOf(members.value);
      encoded := Ok(Some(if TYPE in Keys(members.value) then Tagged("Object", target) else target));
    }

    /** The members loop: what is left out has no member, and `__proto__` is a member like any other. */
    method EncodeMembers(keys: seq<string>, vals: seq<Val>) returns (members: Result<seq<(string, Value)>, EncodeError>)
      requires Closed(c.heap) && AllInHeap(c.heap, vals) && |keys| == |vals| && Distinct(keys)
      modifies this
      ensures ancestors == old(ancestors)
      ensures members == KeptMembers(keys, EncodeEach(c, old(ancestors), vals, c.strict))
      decreases |c.heap.Keys - ancestors|, 2
    {
      var target := new Target();
      ghost var done: seq<Option<Value>> := [];
      assert vals[0..] == vals;
      JoinedNone(EncodeEach(c, ancestors, vals, c.strict));
      for i := 0 to |keys|
        invariant |done| == i && ancestors == old(ancestors)
        invariant Joined(done, EncodeEach(c, ancestors, vals[i..], c.strict)) == EncodeEach(c, ancestors, vals, c.strict)
        invariant target.members == Kept(keys[..i], done) && target.proto == None
      {
        var part := EncodeValue(vals[i], c.strict);
        NextPart(c, ancestors, vals, i, c.strict, done);
        if part.Err? {
          return Err(part.error);
        }
        KeptNext(keys, done, part.value);
        if part.value.Some? {
          target.Assign(keys[i], part.value.value);
        }
        done := done + [part.value];
      }
      assert done + [] == done && keys[..|keys|] == keys;
      members := Ok(target.members);
    }
  }

  function KeptMembers(keys: seq<string>, parts: Result<seq<Option<Value>>, EncodeError>): Result<seq<(string, Value)>, EncodeError>
    requires parts.Ok? ==> |parts.value| == |keys|
  {
    if parts.Ok? then Ok(Kept(keys, parts.value)) else Err(parts.error)
  }

  function Joined(done: seq<Option<Value>>, rest: Result<seq<Option<Value>>, EncodeError>)
    : Result<seq<Option<Value>>, EncodeError>
  {
    if rest.Ok? then Ok(done + rest.value) else rest
  }

  lemma JoinedNone(rest: Result<seq<Option<Value>>, EncodeError>)
    ensures Joined([], rest) == rest
  {
    if rest.Ok? {
      assert [] + rest.value == rest.value;
    }
  }

  lemma NextPart(c: Context, ancestors: set<nat>, vals: seq<Val>, i: nat, guarded: bool, done: seq<Option<Value>>)
    requires Closed(c.heap) && AllInHeap(c.heap, vals) && i < |vals|
    ensures var part, before := EncodeVal(c, ancestors, vals[i], guarded), EncodeEach(c, ancestors, vals[i..], guarded);
      if part.Err? then before == Err(part.error)
      else Joined(done, before) == Joined(done + [part.value], EncodeEach(c, ancestors, vals[i + 1..], guarded))
  {
    assert vals[i..][0] == vals[i] && vals[i..][1..] == vals[i + 1..];
    var part, rest := EncodeVal(c, ancestors, vals[i], guarded), EncodeEach(c, ancestors, vals[i + 1..], guarded);
    if part.Ok? && rest.Ok? {
      assert done + [part.value] + rest.value == done + ([part.value] + rest.value);
    }
  }

  lemma {:induction false} KeptSnoc(keys: seq<string>, parts: seq<Option<Value>>, key: string, part: Option<Value>)
    requires |keys| == |parts|
    ensures Kept(keys + [key], parts + [part]) ==
      Kept(keys, parts) + if part.Some? then [(key, part.value)] else []
  {
    if keys != [] {
      KeptSnoc(keys[1..], parts[1..], key, part);
      assert (keys + [key])[1..] == keys[1..] + [key] && (parts + [part])[1..] == parts[1..] + [part];
    }
  }

  /** One more key: its part goes last, and no member has the key yet. */
  lemma KeptNext(keys: seq<string>, done: seq<Option<Value>>, part: Option<Value>)
    requires |done| < |keys| && Distinct(keys)
    ensures keys[|done|] !in Keys(Kept(keys[..|done|], done))
    ensures Kept(keys[..|done| + 1], done + [part]) ==
      Kept(keys[..|done|], done) + if part.Some? then [(keys[|done|], part.value)] else []
  {
    assert keys[..|done| + 1] == keys[..|done|] + [keys[|done|]];
    KeptSnoc(keys[..|done|], done, keys[|done|], part);
    KeptKeys(keys[..|done|], done);
    assert keys[|done|] !in keys[..|done|];
  }
}
