/** How a handler's result is kept in a record, JSON-safe and tagged, and read back. */
module ResultCodec {
  import opened Wrappers
  import opened JsValues
  import opened Decimal

  const TYPE := "__idempotencyType"

  /** Library texts the encoder writes and the decoder reads: ISO dates and base64. */
  datatype Texts = Texts(
    iso: int -> string, timeOf: string -> Option<int>,
    base64: seq<Byte> -> string, bytesOf: string -> seq<Byte>)

  ghost predicate TextsRoundTrip(texts: Texts) {
    && (forall t :: texts.timeOf(texts.iso(t)) == Some(t))
    && (forall b :: texts.bytesOf(texts.base64(b)) == b)
  }

  function Tagged(tag: string, value: Value): Value {
    Compound(ObjectShape([TYPE, "value"]), [Str(tag), value])
  }

  function EncodeLeaf(texts: Texts, v: Value): Option<Value>
    requires !v.Compound?
  {
    match v
    case Date(time) => Some(Tagged("Date", if time.None? then Null else Str(texts.iso(time.value))))
    case Bytes(bytes) => Some(Tagged("Bytes", Str(texts.base64(bytes))))
    case BigInt(n) => Some(Tagged("BigInt", Str(IntText(n))))
    case NonFinite => Some(Null)
    case _ => if IsOmitted(v) then None else Some(v)
  }

  /** A compound value from its encoded parts; what is left out of an object is `null` anywhere else. */
  function Assemble(shape: Shape, parts: seq<Option<Value>>): Value
    requires Fits(shape, |parts|)
  {
    match shape
    case ArrayShape => ArrayOf(OrNulls(parts))
    case MapShape => Tagged("Map", ArrayOf(PairArrays(OrNulls(parts))))
    case SetShape => Tagged("Set", ArrayOf(OrNulls(parts)))
    case ObjectShape(keys) =>
      var members := Kept(keys, parts);
      if TYPE in Keys(members) then Tagged("Object", ObjectOf(members)) else ObjectOf(members)
  }

  function PairArrays(flat: seq<Value>): (pairs: seq<Value>)
    requires |flat| % 2 == 0
    ensures 2 * |pairs| == |flat|
    ensures forall i :: 0 <= i < |pairs| ==> pairs[i] == ArrayOf([flat[2 * i], flat[2 * i + 1]])
  {
    seq(|flat| / 2, i requires 0 <= i < |flat| / 2 => ArrayOf([flat[2 * i], flat[2 * i + 1]]))
  }

  /** `None` for what is left out. */
  function Encode(texts: Texts, v: Value): Option<Value>
    requires WellFormed(v)
  {
    if !v.Compound? then EncodeLeaf(texts, v)
    else
      var parts := seq(|v.kids|, i requires 0 <= i < |v.kids| => Encode(texts, v.kids[i]));
      Some(Assemble(v.shape, parts))
  }

  datatype DecodeError = Malformed

  /** The tag of an object that has a text under the tag key. */
  function TagOf(keys: seq<string>, kids: seq<Value>): Option<string>
    requires |keys| == |kids|
  {
    var at := IndexOf(keys, TYPE);
    if at.Some? && kids[at.value].Str? then Some(kids[at.value].s) else None
  }

  predicate IsArray(v: Value) { v.Compound? && v.shape.ArrayShape? }

  predicate IsPlainObject(v: Value) { v.Compound? && v.shape.ObjectShape? }

  predicate IsPairList(v: Value) {
    IsArray(v) && forall i :: 0 <= i < |v.kids| ==> IsArray(v.kids[i]) && |v.kids[i].kids| == 2
  }

  /** A key a Map or Set compares by value; objects are compared by identity, and decoded ones are all fresh. */
  predicate IsPrimitive(v: Value) {
    !v.Compound? && !v.Date? && !v.Bytes?
  }

  /** `map.set(key, value)`: a primitive key that is there keeps its place and gets the new value. */
  function MapPut(entries: seq<(Value, Value)>, key: Value, value: Value): seq<(Value, Value)> {
    var at := IndexOf(Keys(entries), key);
    if IsPrimitive(key) && at.Some? then entries[at.value := (key, value)] else entries + [(key, value)]
  }

  /** `new Map(entries)`. */
  function MapEntries(entries: seq<(Value, Value)>): seq<(Value, Value)> {
    if entries == [] then []
    else
      var last := entries[|entries| - 1];
      MapPut(MapEntries(entries[..|entries| - 1]), last.0, last.1)
  }

  function MapFrom(flat: seq<Value>): Value
    requires |flat| % 2 == 0
  {
    Compound(MapShape, Flat(MapEntries(Pairs(flat))))
  }

  /** `new Set(items)`: a primitive that is there already is not added again. */
  function SetItems(items: seq<Value>): seq<Value> {
    if items == [] then []
    else
      var before, last := SetItems(items[..|items| - 1]), items[|items| - 1];
      if IsPrimitive(last) && last in before then before else before + [last]
  }

  function SetFrom(items: seq<Value>): Value {
    Compound(SetShape, SetItems(items))
  }

  /** The inverse of the encoding; `Malformed` for tagged values the encoder never writes. */
  function Decode(texts: Texts, v: Value): Result<Value, DecodeError>
    requires JsonSafe(v)
    decreases v
  {
    if !v.Compound? then Ok(v)
    else if v.shape.ArrayShape? then
      var items :- Collect(seq(|v.kids|, i requires 0 <= i < |v.kids| => Decode(texts, v.kids[i])));
      Ok(ArrayOf(items))
    else
      var tag := TagOf(v.shape.keys, v.kids);
      var at := IndexOf(v.shape.keys, "value");
      if tag.Some? && tag.value in TAGS then
        if at.Some? then DecodeTagged(texts, tag.value, v.kids[at.value])
        else if tag.value == "Date" then Ok(Date(None))
        else Err(Malformed)
      else
        var members :- Collect(seq(|v.kids|, i requires 0 <= i < |v.kids| => Decode(texts, v.kids[i])));
        Ok(Compound(v.shape, members))
  }

  const TAGS := {"Date", "BigInt", "Bytes", "Map", "Set", "Object"}

  function DecodeTagged(texts: Texts, tag: string, value: Value): Result<Value, DecodeError>
    requires tag in TAGS && JsonSafe(value)
    decreases value
  {
    if tag == "Date" then
      if value.Null? then Ok(Date(None)) else if value.Str? then Ok(Date(texts.timeOf(value.s))) else Err(Malformed)
    else if tag == "BigInt" then
      if value.Str? && IntOf(value.s).Some? then Ok(BigInt(IntOf(value.s).value)) else Err(Malformed)
    else if tag == "Bytes" then
      if value.Str? then Ok(Bytes(texts.bytesOf(value.s))) else Err(Malformed)
    else if tag == "Map" then
      if IsPairList(value) then
        var flat :- Collect(seq(2 * |value.kids|, i requires 0 <= i < 2 * |value.kids| =>
          DecodePart(texts, value.kids[i / 2], i % 2)));
        Ok(MapFrom(flat))
      else Err(Malformed)
    else if tag == "Set" then
      if IsArray(value) then
        var items :- Collect(seq(|value.kids|, i requires 0 <= i < |value.kids| => Decode(texts, value.kids[i])));
        Ok(SetFrom(items))
      else Err(Malformed)
    else if IsPlainObject(value) then
      var members :- Collect(seq(|value.kids|, i requires 0 <= i < |value.kids| => Decode(texts, value.kids[i])));
      Ok(Compound(value.shape, members))
    else Err(Malformed)
  }

  function DecodePart(texts: Texts, pair: Value, part: nat): Result<Value, DecodeError>
    requires IsArray(pair) && JsonSafe(pair) && part < |pair.kids|
    decreases pair
  {
    Decode(texts, pair.kids[part])
  }

  /** The members loop of the decoder: every key, `__proto__` too, becomes an own member again. */
  method DecodeMembers(texts: Texts, v: Value) returns (decoded: Result<Value, DecodeError>)
    requires JsonSafe(v) && IsPlainObject(v)
    ensures decoded == DecodeTagged(texts, "Object", v)
  {
    var keys := v.shape.keys;
    var target := new Target();
    ghost var results := seq(|v.kids|, i requires 0 <= i < |v.kids| => Decode(texts, v.kids[i]));
    for i := 0 to |keys|
      invariant target.proto == None && Keys(target.members) == keys[..i]
      invariant forall k :: 0 <= k < i ==> results[k] == Ok(target.members[k].1)
    {
      var part := Decode(texts, v.kids[i]);
      if part.Err? {
        assert results[i].Err? && Collect(results).Err? && Collect(results).error.Malformed?;
        return Err(Malformed);
      }
      assert keys[i] !in keys[..i];
      target.Assign(keys[i], part.value);
    }
    assert keys[..|keys|] == keys && Collect(results).value == Values(target.members);
    decoded := Ok(ObjectOf(target.members));
    assert decoded.value == Compound(v.shape, Collect(results).value);
  }

  /**
   * What a value is after a round trip, in its own terms: what JSON leaves out
   * is gone from objects and `null` elsewhere, a number JSON cannot write is
   * `null`, a Map or Set is rebuilt from its entries, everything else is itself.
   */
  function Normal(v: Value): Option<Value>
    requires WellFormed(v)
  {
    if v.NonFinite? then Some(Null)
    else if v.Undefined? || v.Function? || v.Symbol? then None
    else if !v.Compound? then Some(v)
    else
      var parts := seq(|v.kids|, i requires 0 <= i < |v.kids| => Normal(v.kids[i]));
      Some(match v.shape
           case ArrayShape => ArrayOf(NormalItems(parts))
           case MapShape => MapFrom(NormalItems(parts))
           case SetShape => SetFrom(NormalItems(parts))
           case ObjectShape(keys) => ObjectOf(Kept(keys, parts)))
  }

  /** The items of an array, a Map or a Set after a round trip: `null` where there is nothing. */
  function NormalItems(parts: seq<Option<Value>>): (items: seq<Value>)
    ensures |items| == |parts|
  {
    seq(|parts|, i requires 0 <= i < |parts| => if parts[i].Some? then parts[i].value else Null)
  }

  /** The encoder fills the same places with `null`. */
  lemma SameItems(parts: seq<Option<Value>>)
    ensures NormalItems(parts) == OrNulls(parts)
  {
  }

  /** What is proved of each part of a compound value before it is assembled. */
  ghost predicate Agrees(texts: Texts, encoded: Option<Value>, normal: Option<Value>) {
    && (encoded.None? <==> normal.None?)
    && (encoded.Some? ==> JsonSafe(encoded.value) && Decode(texts, encoded.value) == Ok(normal.value))
  }

  lemma {:induction false} KeptAgree(texts: Texts, keys: seq<string>, encoded: seq<Option<Value>>, normal: seq<Option<Value>>)
    requires |keys| == |encoded| == |normal|
    requires forall i :: 0 <= i < |keys| ==> Agrees(texts, encoded[i], normal[i])
    ensures Keys(Kept(keys, encoded)) == Keys(Kept(keys, normal))
    ensures forall i :: 0 <= i < |Kept(keys, encoded)| ==>
      && i < |Kept(keys, normal)|
      && JsonSafe(Kept(keys, encoded)[i].1) && Decode(texts, Kept(keys, encoded)[i].1) == Ok(Kept(keys, normal)[i].1)
  {
    if keys != [] {
      KeptAgree(texts, keys[1..], encoded[1..], normal[1..]);
      assert Agrees(texts, encoded[0], normal[0]);
      if encoded[0].Some? {
        KeysOfCons((keys[0], encoded[0].value), Kept(keys[1..], encoded[1..]));
        KeysOfCons((keys[0], normal[0].value), Kept(keys[1..], normal[1..]));
      }
    }
  }

  ghost predicate DecodeTo(texts: Texts, encoded: seq<Value>, values: seq<Value>) {
    && |encoded| == |values|
    && forall i :: 0 <= i < |encoded| ==> JsonSafe(encoded[i]) && Decode(texts, encoded[i]) == Ok(values[i])
  }

  lemma OrNullsAgree(texts: Texts, encoded: seq<Option<Value>>, normal: seq<Option<Value>>)
    requires |encoded| == |normal| && forall i :: 0 <= i < |encoded| ==> Agrees(texts, encoded[i], normal[i])
    ensures DecodeTo(texts, OrNulls(encoded), OrNulls(normal))
  {
    forall i | 0 <= i < |encoded|
      ensures JsonSafe(OrNulls(encoded)[i]) && Decode(texts, OrNulls(encoded)[i]) == Ok(OrNulls(normal)[i])
    {
      assert Agrees(texts, encoded[i], normal[i]);
    }
  }

  lemma PartsDecode(texts: Texts, encoded: seq<Value>, values: seq<Value>)
    requires DecodeTo(texts, encoded, values)
    ensures Collect(seq(|encoded|, i requires 0 <= i < |encoded| => Decode(texts, encoded[i]))) == Ok(values)
  {
    var results := seq(|encoded|, i requires 0 <= i < |encoded| => Decode(texts, encoded[i]));
    assert Collect(results).value == values;
  }

  lemma ArrayDecodes(texts: Texts, encoded: seq<Value>, values: seq<Value>)
    requires DecodeTo(texts, encoded, values)
    ensures JsonSafe(ArrayOf(encoded)) && Decode(texts, ArrayOf(encoded)) == Ok(ArrayOf(values))
  {
    PartsDecode(texts, encoded, values);
  }

  lemma TaggedDecodes(texts: Texts, tag: string, value: Value)
    requires tag in TAGS && JsonSafe(value)
    ensures JsonSafe(Tagged(tag, value))
    ensures Decode(texts, Tagged(tag, value)) == DecodeTagged(texts, tag, value)
  {
    assert TYPE != "value";
    assert [TYPE, "value"][0] == TYPE && [TYPE, "value"][1] == "value";
  }

  lemma SetDecodes(texts: Texts, encoded: seq<Value>, values: seq<Value>)
    requires DecodeTo(texts, encoded, values)
    ensures JsonSafe(Tagged("Set", ArrayOf(encoded)))
    ensures Decode(texts, Tagged("Set", ArrayOf(encoded))) == Ok(SetFrom(values))
  {
    ArrayDecodes(texts, encoded, values);
    TaggedDecodes(texts, "Set", ArrayOf(encoded));
    PartsDecode(texts, encoded, values);
  }

  lemma PairsAreSafe(encoded: seq<Value>)
    requires |encoded| % 2 == 0 && forall i :: 0 <= i < |encoded| ==> JsonSafe(encoded[i])
    ensures JsonSafe(ArrayOf(PairArrays(encoded))) && IsPairList(ArrayOf(PairArrays(encoded)))
  {
    var pairs := PairArrays(encoded);
    forall i | 0 <= i < |pairs|
      ensures JsonSafe(pairs[i])
    {
      assert JsonSafe(encoded[2 * i]) && JsonSafe(encoded[2 * i + 1]);
    }
  }

  lemma PairPart(texts: Texts, x: Value, y: Value, part: nat)
    requires JsonSafe(x) && JsonSafe(y) && part < 2
    ensures JsonSafe(ArrayOf([x, y]))
    ensures DecodePart(texts, ArrayOf([x, y]), part) == Decode(texts, if part == 0 then x else y)
  {
  }

  lemma PairAt(texts: Texts, encoded: seq<Value>, pairs: seq<Value>, i: nat)
    requires |encoded| % 2 == 0 && i < |encoded| && JsonSafe(encoded[i])
    requires pairs == PairArrays(encoded)
    requires JsonSafe(encoded[i - i % 2]) && JsonSafe(encoded[i - i % 2 + 1])
    ensures IsArray(pairs[i / 2]) && JsonSafe(pairs[i / 2]) && |pairs[i / 2].kids| == 2
    ensures DecodePart(texts, pairs[i / 2], i % 2) == Decode(texts, encoded[i])
  {
    var k := i / 2;
    PairPart(texts, encoded[2 * k], encoded[2 * k + 1], i % 2);
  }

  lemma PairsDecode(texts: Texts, list: Value, encoded: seq<Value>, values: seq<Value>)
    requires DecodeTo(texts, encoded, values) && |encoded| % 2 == 0
    requires list == ArrayOf(PairArrays(encoded)) && JsonSafe(list) && IsPairList(list)
    ensures DecodeTagged(texts, "Map", list) == Ok(MapFrom(values))
  {
    var n := |list.kids|;
    var results := seq(2 * n, i requires 0 <= i < 2 * n => DecodePart(texts, list.kids[i / 2], i % 2));
    forall i | 0 <= i < |encoded|
      ensures results[i] == Ok(values[i])
    {
      PairAt(texts, encoded, list.kids, i);
    }
    CollectIs(results, values);
  }

  lemma CollectIs<T, E>(results: seq<Result<T, E>>, values: seq<T>)
    requires |results| == |values| && forall i :: 0 <= i < |results| ==> results[i] == Ok(values[i])
    ensures Collect(results) == Ok(values)
  {
    assert Collect(results).value == values;
  }

  lemma MapDecodes(texts: Texts, encoded: seq<Value>, values: seq<Value>)
    requires DecodeTo(texts, encoded, values) && |encoded| % 2 == 0
    ensures JsonSafe(Tagged("Map", ArrayOf(PairArrays(encoded))))
    ensures Decode(texts, Tagged("Map", ArrayOf(PairArrays(encoded)))) == Ok(MapFrom(values))
  {
    PairsAreSafe(encoded);
    TaggedDecodes(texts, "Map", ArrayOf(PairArrays(encoded)));
    PairsDecode(texts, ArrayOf(PairArrays(encoded)), encoded, values);
  }

  lemma ObjectDecodes(texts: Texts, members: seq<(string, Value)>, normal: seq<(string, Value)>)
    requires Distinct(Keys(members)) && Keys(members) == Keys(normal)
    requires DecodeTo(texts, Values(members), Values(normal))
    ensures JsonSafe(ObjectOf(members)) && JsonSafe(Tagged("Object", ObjectOf(members)))
    ensures TYPE in Keys(members) ==> Decode(texts, Tagged("Object", ObjectOf(members))) == Ok(ObjectOf(normal))
    ensures TYPE !in Keys(members) ==> Decode(texts, ObjectOf(members)) == Ok(ObjectOf(normal))
  {
    assert JsonSafe(ObjectOf(members));
    TaggedDecodes(texts, "Object", ObjectOf(members));
    PartsDecode(texts, Values(members), Values(normal));
  }

  lemma DateRoundTrip(texts: Texts, time: Option<int>)
    requires TextsRoundTrip(texts)
    ensures Agrees(texts, EncodeLeaf(texts, Date(time)), Some(Date(time)))
  {
    var value := if time.None? then Null else Str(texts.iso(time.value));
    TaggedDecodes(texts, "Date", value);
    assert EncodeLeaf(texts, Date(time)) == Some(Tagged("Date", value));
    if time.Some? {
      var t := time.value;
      assert texts.timeOf(texts.iso(t)) == Some(t);
      assert value.s == texts.iso(t);
    }
    assert DecodeTagged(texts, "Date", value) == Ok(Date(time));
  }

  lemma BytesRoundTrip(texts: Texts, bytes: seq<Byte>)
    requires TextsRoundTrip(texts)
    ensures Agrees(texts, EncodeLeaf(texts, Bytes(bytes)), Some(Bytes(bytes)))
  {
    TaggedDecodes(texts, "Bytes", Str(texts.base64(bytes)));
  }

  lemma BigIntRoundTrip(texts: Texts, n: int)
    ensures Agrees(texts, EncodeLeaf(texts, BigInt(n)), Some(BigInt(n)))
  {
    IntRoundTrip(n);
    TaggedDecodes(texts, "BigInt", Str(IntText(n)));
  }

  lemma LeafRoundTrip(texts: Texts, v: Value)
    requires !v.Compound? && TextsRoundTrip(texts)
    ensures Agrees(texts, EncodeLeaf(texts, v), Normal(v))
  {
    match v {
      case Date(time) => DateRoundTrip(texts, time);
      case Bytes(bytes) => BytesRoundTrip(texts, bytes);
      case BigInt(n) => BigIntRoundTrip(texts, n);
      case _ =>
    }
  }

  lemma AssembleRoundTrip(texts: Texts, shape: Shape, encoded: seq<Option<Value>>, normal: seq<Option<Value>>)
    requires |encoded| == |normal| && Fits(shape, |encoded|)
    requires forall i :: 0 <= i < |encoded| ==> Agrees(texts, encoded[i], normal[i])
    ensures Agrees(texts, Some(Assemble(shape, encoded)),
                   Some(match shape
                        case ArrayShape => ArrayOf(NormalItems(normal))
                        case MapShape => MapFrom(NormalItems(normal))
                        case SetShape => SetFrom(NormalItems(normal))
                        case ObjectShape(keys) => ObjectOf(Kept(keys, normal))))
  {
    SameItems(normal);
    match shape {
      case ArrayShape =>
        OrNullsAgree(texts, encoded, normal);
        ArrayDecodes(texts, OrNulls(encoded), OrNulls(normal));
      case MapShape =>
        OrNullsAgree(texts, encoded, normal);
        MapDecodes(texts, OrNulls(encoded), OrNulls(normal));
      case SetShape =>
        OrNullsAgree(texts, encoded, normal);
        SetDecodes(texts, OrNulls(encoded), OrNulls(normal));
      case ObjectShape(keys) =>
        KeptAgree(texts, keys, encoded, normal);
        KeptKeys(keys, encoded);
        ObjectDecodes(texts, Kept(keys, encoded), Kept(keys, normal));
    }
  }

  /**
   * The round trip: decoding an encoded value gives its normal form, whatever
   * it holds and however deeply, also where objects use the tag key
   * themselves; the encoding is JSON-safe throughout, and a value is left out
   * exactly when it has no normal form.
   */
  lemma {:induction false} RoundTrip(texts: Texts, v: Value)
    requires WellFormed(v) && TextsRoundTrip(texts)
    ensures Encode(texts, v).None? <==> Normal(v).None?
    ensures Encode(texts, v).Some? ==>
      JsonSafe(Encode(texts, v).value) && Decode(texts, Encode(texts, v).value) == Ok(Normal(v).value)
  {
    if !v.Compound? {
      LeafRoundTrip(texts, v);
    } else {
      var encoded := seq(|v.kids|, i requires 0 <= i < |v.kids| => Encode(texts, v.kids[i]));
      var normal := seq(|v.kids|, i requires 0 <= i < |v.kids| => Normal(v.kids[i]));
      forall i | 0 <= i < |v.kids|
        ensures Agrees(texts, encoded[i], normal[i])
      {
        RoundTrip(texts, v.kids[i]);
      }
      AssembleRoundTrip(texts, v.shape, encoded, normal);
    }
  }

  predicate PrimitivesDiffer(s: seq<Value>) {
    forall i, j :: 0 <= i < j < |s| && IsPrimitive(s[j]) ==> s[i] != s[j]
  }

  /** Nothing in it is left out or written as `null`, and no two keys or items of it become one. */
  predicate Faithful(v: Value)
    requires WellFormed(v)
  {
    && !v.NonFinite? && !IsOmitted(v)
    && (v.Compound? ==>
      && (forall i :: 0 <= i < |v.kids| ==> Faithful(v.kids[i]))
      && (v.shape.MapShape? ==> PrimitivesDiffer(Keys(Pairs(v.kids))))
      && (v.shape.SetShape? ==> PrimitivesDiffer(v.kids)))
  }

  lemma OneMoreDiffers(s: seq<Value>, x: Value)
    ensures PrimitivesDiffer(s + [x]) <==> PrimitivesDiffer(s) && !(IsPrimitive(x) && x in s)
  {
    var all := s + [x];
    if PrimitivesDiffer(all) {
      forall i, j | 0 <= i < j < |s| && IsPrimitive(s[j])
        ensures s[i] != s[j]
      {
        assert all[i] == s[i] && all[j] == s[j];
      }
      forall i | 0 <= i < |s| && IsPrimitive(x)
        ensures s[i] != x
      {
        assert all[i] != all[|s|];
      }
    }
  }

  lemma {:induction false} SetKeepsAll(items: seq<Value>)
    ensures |SetItems(items)| <= |items|
    ensures |SetItems(items)| == |items| ==> SetItems(items) == items
    ensures |SetItems(items)| == |items| <==> PrimitivesDiffer(items)
  {
    if items != [] {
      var front, last := items[..|items| - 1], items[|items| - 1];
      SetKeepsAll(front);
      assert items == front + [last];
      OneMoreDiffers(front, last);
    }
  }

  lemma MapPutKeeps(entries: seq<(Value, Value)>, last: (Value, Value))
    ensures var put := MapPut(entries, last.0, last.1);
      if IsPrimitive(last.0) && last.0 in Keys(entries) then |put| == |entries| else put == entries + [last]
  {
  }

  lemma {:induction false} MapKeepsAll(entries: seq<(Value, Value)>)
    ensures |MapEntries(entries)| <= |entries|
    ensures |MapEntries(entries)| == |entries| ==> MapEntries(entries) == entries
    ensures |MapEntries(entries)| == |entries| <==> PrimitivesDiffer(Keys(entries))
  {
    if entries != [] {
      var front, last := entries[..|entries| - 1], entries[|entries| - 1];
      MapKeepsAll(front);
      MapPutKeeps(MapEntries(front), last);
      assert entries == front + [last];
      assert Keys(entries) == Keys(front) + [last.0];
      OneMoreDiffers(Keys(front), last.0);
    }
  }

  lemma {:induction false} KeptAll(keys: seq<string>, parts: seq<Option<Value>>)
    requires |keys| == |parts|
    ensures |Kept(keys, parts)| == |keys| <==> forall i :: 0 <= i < |parts| ==> parts[i].Some?
    ensures |Kept(keys, parts)| == |keys| ==>
      && Keys(Kept(keys, parts)) == keys
      && forall i :: 0 <= i < |keys| ==> parts[i].Some? && Values(Kept(keys, parts))[i] == parts[i].value
  {
    if keys != [] {
      KeptAll(keys[1..], parts[1..]);
      if parts[0].Some? {
        KeysOfCons((keys[0], parts[0].value), Kept(keys[1..], parts[1..]));
      } else {
        KeptKeys(keys[1..], parts[1..]);
      }
    }
  }

  lemma FlatOfPairs<T>(flat: seq<T>)
    requires |flat| % 2 == 0
    ensures Flat(Pairs(flat)) == flat
  {
    var pairs := Pairs(flat);
    forall i | 0 <= i < |flat|
      ensures Flat(pairs)[i] == flat[i]
    {
      var k := i / 2;
      assert pairs[k] == (flat[2 * k], flat[2 * k + 1]);
    }
  }

  lemma MapFromKeeps(flat: seq<Value>)
    requires |flat| % 2 == 0
    ensures |MapFrom(flat).kids| == |flat| <==> PrimitivesDiffer(Keys(Pairs(flat)))
    ensures |MapFrom(flat).kids| == |flat| ==> MapFrom(flat) == Compound(MapShape, flat)
  {
    MapKeepsAll(Pairs(flat));
    FlatOfPairs(flat);
  }

  lemma ExactItems(kids: seq<Value>, parts: seq<Option<Value>>)
    requires |kids| == |parts| && forall i :: 0 <= i < |kids| ==> WellFormed(kids[i])
    requires forall i :: 0 <= i < |kids| ==> (OrNull(parts[i]) == kids[i] ==> Faithful(kids[i]))
    requires forall i :: 0 <= i < |kids| ==> (Faithful(kids[i]) ==> parts[i] == Some(kids[i]))
    ensures NormalItems(parts) == kids <==> forall i :: 0 <= i < |kids| ==> Faithful(kids[i])
  {
    SameItems(parts);
    if NormalItems(parts) == kids {
      forall i | 0 <= i < |kids|
        ensures Faithful(kids[i])
      {
        assert OrNulls(parts)[i] == kids[i];
      }
    }
  }

  lemma ExactMembers(keys: seq<string>, kids: seq<Value>, parts: seq<Option<Value>>)
    requires |keys| == |kids| == |parts| && forall i :: 0 <= i < |kids| ==> WellFormed(kids[i])
    requires forall i :: 0 <= i < |kids| ==> (OrNull(parts[i]) == kids[i] ==> Faithful(kids[i]))
    requires forall i :: 0 <= i < |kids| ==> (Faithful(kids[i]) ==> parts[i] == Some(kids[i]))
    ensures ObjectOf(Kept(keys, parts)) == Compound(ObjectShape(keys), kids) <==>
      forall i :: 0 <= i < |kids| ==> Faithful(kids[i])
  {
    KeptAll(keys, parts);
    var members := Kept(keys, parts);
    if forall i :: 0 <= i < |kids| ==> Faithful(kids[i]) {
      assert Values(members) == kids;
    } else if Values(members) == kids {
      assert |members| == |keys|;
      forall i | 0 <= i < |kids|
        ensures Faithful(kids[i])
      {
        assert OrNull(parts[i]) == kids[i];
      }
    }
  }

  /** The round trip gives back exactly the values in which nothing is lost. */
  lemma {:induction false} ExactWhenFaithful(v: Value)
    requires WellFormed(v)
    ensures Normal(v) == Some(v) <==> Faithful(v)
  {
    if v.Compound? {
      var parts := seq(|v.kids|, i requires 0 <= i < |v.kids| => Normal(v.kids[i]));
      forall i | 0 <= i < |v.kids|
        ensures OrNull(parts[i]) == v.kids[i] ==> Faithful(v.kids[i])
        ensures Faithful(v.kids[i]) ==> parts[i] == Some(v.kids[i])
      {
        ExactWhenFaithful(v.kids[i]);
      }
      ExactItems(v.kids, parts);
      match v.shape {
        case ArrayShape =>
        case MapShape => MapFromKeeps(NormalItems(parts));
        case SetShape => SetKeepsAll(NormalItems(parts));
        case ObjectShape(keys) =>
          ExactMembers(keys, v.kids, parts);
          assert Normal(v) == Some(ObjectOf(Kept(keys, parts)));
      }
    }
  }
}
