/** The JavaScript values the package stores and fingerprints, as trees. */
module JsValues {
  import opened Wrappers

  type Byte = b: int | 0 <= b < 256

  /** A finite number, as the text `String(n)` gives it: a digit or a minus sign, then number characters. */
  type NumText = s: string | IsNumText(s) witness "0"

  predicate IsNumText(s: string) {
    s != "" && IsNumStart(s[0]) && forall i :: 0 <= i < |s| ==> IsNumChar(s[i])
  }

  predicate IsNumStart(c: char) { '0' <= c <= '9' || c == '-' }

  predicate IsNumChar(c: char) { IsNumStart(c) || c in {'+', '.', 'e'} }

  datatype Shape = ArrayShape | MapShape | SetShape | ObjectShape(keys: seq<string>)

  /**
   * A value as the encoder and the fingerprint walk it. A compound value holds
   * its parts in order: a Map its keys and values in turn, in insertion order,
   * an object the values of its own enumerable keys, in enumeration order.
   */
  datatype Value =
    | Undefined
    | Function
    | Symbol
    | Null
    | Bool(b: bool)
    | Num(text: NumText)
    | NonFinite
    | BigInt(n: int)
    | Str(s: string)
    | Date(time: Option<int>)
    | Bytes(bytes: seq<Byte>)
    | Compound(shape: Shape, kids: seq<Value>)

  predicate Distinct<T(==)>(s: seq<T>) {
    forall i, j :: 0 <= i < j < |s| ==> s[i] != s[j]
  }

  predicate Fits(shape: Shape, n: nat) {
    match shape
    case MapShape => n % 2 == 0
    case ObjectShape(keys) => |keys| == n && Distinct(keys)
    case _ => true
  }

  predicate WellFormed(v: Value) {
    v.Compound? ==> Fits(v.shape, |v.kids|) && forall i :: 0 <= i < |v.kids| ==> WellFormed(v.kids[i])
  }

  predicate IsOmitted(v: Value) { v.Undefined? || v.Function? || v.Symbol? }

  function ArrayOf(items: seq<Value>): Value { Compound(ArrayShape, items) }

  function ObjectOf(members: seq<(string, Value)>): Value {
    Compound(ObjectShape(Keys(members)), Values(members))
  }

  function Keys<K, T>(members: seq<(K, T)>): (keys: seq<K>)
    ensures |keys| == |members| && forall i :: 0 <= i < |keys| ==> keys[i] == members[i].0
  {
    seq(|members|, i requires 0 <= i < |members| => members[i].0)
  }

  function Values<T>(members: seq<(string, T)>): (values: seq<T>)
    ensures |values| == |members| && forall i :: 0 <= i < |values| ==> values[i] == members[i].1
  {
    seq(|members|, i requires 0 <= i < |members| => members[i].1)
  }

  /** Where `key` is, if it is there. */
  function IndexOf<T(==)>(s: seq<T>, x: T): (at: Option<nat>)
    ensures at.Some? <==> x in s
    ensures at.Some? ==> at.value < |s| && s[at.value] == x && forall i :: 0 <= i < at.value ==> s[i] != x
  {
    if s == [] then None
    else if s[0] == x then Some(0)
    else
      var rest := IndexOf(s[1..], x);
      if rest.Some? then Some(rest.value + 1) else None
  }

  /** The members that are there: a key without a value is left out. */
  function Kept<T>(keys: seq<string>, parts: seq<Option<T>>): (members: seq<(string, T)>)
    requires |keys| == |parts|
  {
    if keys == [] then []
    else
      var rest := Kept(keys[1..], parts[1..]);
      if parts[0].None? then rest else [(keys[0], parts[0].value)] + rest
  }

  lemma KeysOfCons<T>(member: (string, T), rest: seq<(string, T)>)
    ensures Keys([member] + rest) == [member.0] + Keys(rest)
    ensures Values([member] + rest) == [member.1] + Values(rest)
  {
  }

  /** The kept keys are some of the keys, in their order. */
  lemma {:induction false} KeptKeys<T>(keys: seq<string>, parts: seq<Option<T>>)
    requires |keys| == |parts|
    ensures |Kept(keys, parts)| <= |keys|
    ensures forall key :: key in Keys(Kept(keys, parts)) ==> key in keys
    ensures Distinct(keys) ==> Distinct(Keys(Kept(keys, parts)))
  {
    if keys != [] {
      KeptKeys(keys[1..], parts[1..]);
      if parts[0].Some? {
        var rest := Kept(keys[1..], parts[1..]);
        KeysOfCons((keys[0], parts[0].value), rest);
        var kept := [keys[0]] + Keys(rest);
        if Distinct(keys) {
          forall i, j | 0 <= i < j < |kept|
            ensures kept[i] != kept[j]
          {
            assert Distinct(keys[1..]);
            assert kept[j] == Keys(rest)[j - 1] && kept[j] in keys[1..];
          }
        }
      }
    }
  }

  function Pairs<T>(flat: seq<T>): (pairs: seq<(T, T)>)
    requires |flat| % 2 == 0
    ensures 2 * |pairs| == |flat|
    ensures forall i :: 0 <= i < |pairs| ==> pairs[i] == (flat[2 * i], flat[2 * i + 1])
  {
    seq(|flat| / 2, i requires 0 <= i < |flat| / 2 => (flat[2 * i], flat[2 * i + 1]))
  }

  function Flat<T>(pairs: seq<(T, T)>): (flat: seq<T>)
    ensures |flat| == 2 * |pairs|
  {
    seq(2 * |pairs|, i requires 0 <= i < 2 * |pairs| => if i % 2 == 0 then pairs[i / 2].0 else pairs[i / 2].1)
  }

  function OrNull(part: Option<Value>): Value {
    if part.Some? then part.value else Null
  }

  function OrNulls(parts: seq<Option<Value>>): (values: seq<Value>)
    ensures |values| == |parts| && forall i :: 0 <= i < |parts| ==> values[i] == OrNull(parts[i])
  {
    seq(|parts|, i requires 0 <= i < |parts| => OrNull(parts[i]))
  }

  /** What JSON can carry: the only values an encoded result is made of. */
  predicate JsonSafe(v: Value) {
    match v
    case Null => true
    case Bool(_) => true
    case Num(_) => true
    case Str(_) => true
    case Compound(shape, kids) =>
      && (shape.ArrayShape? || shape.ObjectShape?) && Fits(shape, |kids|)
      && forall i :: 0 <= i < |kids| ==> JsonSafe(kids[i])
    case _ => false
  }

  datatype ErrorKind = HttpError | RpcError | GraphqlError

  /** What is persisted for a completed call and replayed to every retry. */
  datatype StoredResponse =
    StoredResponse(status: int, headers: map<string, seq<string>>, body: Value, error: Option<ErrorKind>)

  /** A response JSON text carries unchanged; a body that is `undefined` is left out and read back as such. */
  predicate Storable(response: StoredResponse) {
    response.body.Undefined? || JsonSafe(response.body)
  }

  /** What a store persists: the response itself, or a sealed envelope. */
  datatype Payload = Plain(response: StoredResponse) | Sealed(text: string)

  /** An object under construction: its own members in order, and what its prototype was set to. */
  class Target {
    var members: seq<(string, Value)>
    var proto: Option<Value>

    constructor ()
      ensures members == [] && proto == None
    {
      members := [];
      proto := None;
    }

    /** `target[key] = value`, where `__proto__` is the inherited setter. */
    method Put(key: string, value: Value)
      modifies this
      ensures key == "__proto__" && key !in Keys(old(members)) ==>
        members == old(members) && proto == if value.Compound? || value.Null? then Some(value) else old(proto)
      ensures key != "__proto__" || key in Keys(old(members)) ==> proto == old(proto)
      ensures key != "__proto__" && key !in Keys(old(members)) ==> members == old(members) + [(key, value)]
      ensures key in Keys(old(members)) ==>
        exists i :: 0 <= i < |old(members)| && old(members)[i].0 == key && members == old(members)[i := (key, value)]
    {
      var at := IndexOf(Keys(members), key);
      if at.Some? {
        members := members[at.value := (key, value)];
      } else if key != "__proto__" {
        members := members + [(key, value)];
      } else if value.Compound? || value.Null? {
        proto := Some(value);
      }
    }

    method Define(key: string, value: Value)
      requires key !in Keys(members)
      modifies this
      ensures members == old(members) + [(key, value)] && proto == old(proto)
    {
      members := members + [(key, value)];
    }

    /** A new key becomes an own member, whatever its name, and never the prototype. */
    method Assign(key: string, value: Value)
      requires key !in Keys(members)
      modifies this
      ensures members == old(members) + [(key, value)] && proto == old(proto)
    {
      if key == "__proto__" {
        Define(key, value);
      } else {
        Put(key, value);
      }
    }
  }
}
