/**
 * The stored form of a result and what a replay makes of it, written out: each
 * kind of value, the places of what is left out, and the entries of Maps and
 * items of Sets that become one.
 */
module StoredForm {
  import opened Wrappers
  import opened JsValues
  import opened Decimal
  import opened ResultCodec

  /** How each value without parts is stored. */
  lemma StoredLeaves(texts: Texts, v: Value)
    requires !v.Compound?
    ensures v.Null? || v.Bool? || v.Num? || v.Str? ==> Encode(texts, v) == Some(v)
    ensures v.NonFinite? ==> Encode(texts, v) == Some(Null)
    ensures v.Undefined? || v.Function? || v.Symbol? ==> Encode(texts, v) == None
    ensures v.Date? && v.time.Some? ==>
      Encode(texts, v) == Some(Compound(ObjectShape(["__idempotencyType", "value"]), [Str("Date"), Str(texts.iso(v.time.value))]))
    ensures v.Date? && v.time.None? ==>
      Encode(texts, v) == Some(Compound(ObjectShape(["__idempotencyType", "value"]), [Str("Date"), Null]))
    ensures v.BigInt? ==>
      Encode(texts, v) == Some(Compound(ObjectShape(["__idempotencyType", "value"]), [Str("BigInt"), Str(IntText(v.n))]))
    ensures v.Bytes? ==>
      Encode(texts, v) == Some(Compound(ObjectShape(["__idempotencyType", "value"]), [Str("Bytes"), Str(texts.base64(v.bytes))]))
  {
  }

  /**
   * How arrays, Sets and Maps are stored: item by item, in order, with `null`
   * for what is left out, a Map as its entries.
   */
  lemma StoredItems(texts: Texts, v: Value) returns (items: seq<Value>)
    requires WellFormed(v) && v.Compound? && !v.shape.ObjectShape?
    ensures |items| == |v.kids|
    ensures forall i :: 0 <= i < |v.kids| ==>
      items[i] == match Encode(texts, v.kids[i]) case Some(part) => part case None => Null
    ensures forall i :: 0 <= i < |v.kids| && (v.kids[i].Undefined? || v.kids[i].Function? || v.kids[i].Symbol?) ==>
      items[i] == Null
    ensures v.shape.ArrayShape? ==> Encode(texts, v) == Some(Compound(ArrayShape, items))
    ensures v.shape.SetShape? ==>
      Encode(texts, v) == Some(Compound(ObjectShape(["__idempotencyType", "value"]), [Str("Set"), Compound(ArrayShape, items)]))
    ensures v.shape.MapShape? ==>
      exists pairs: seq<Value> ::
        && 2 * |pairs| == |items|
        && (forall k :: 0 <= k < |pairs| ==> pairs[k] == Compound(ArrayShape, [items[2 * k], items[2 * k + 1]]))
        && Encode(texts, v) ==
             Some(Compound(ObjectShape(["__idempotencyType", "value"]), [Str("Map"), Compound(ArrayShape, pairs)]))
  {
    var parts := seq(|v.kids|, i requires 0 <= i < |v.kids| => Encode(texts, v.kids[i]));
    items := OrNulls(parts);
    forall i | 0 <= i < |v.kids| && !v.kids[i].Compound?
      ensures v.kids[i].Undefined? || v.kids[i].Function? || v.kids[i].Symbol? ==> items[i] == Null
    {
      StoredLeaves(texts, v.kids[i]);
    }
    if v.shape.MapShape? {
      var pairs := PairArrays(items);
      assert Encode(texts, v) == Some(Tagged("Map", Compound(ArrayShape, pairs)));
    }
  }

  /**
   * How objects are stored: with one member for each key whose value is not
   * left out, and wrapped if one of those keys is the tag key.
   */
  lemma StoredMembers(texts: Texts, v: Value) returns (names: seq<string>, values: seq<Value>)
    requires WellFormed(v) && v.Compound? && v.shape.ObjectShape?
    ensures |names| == |values| && Distinct(names)
    ensures forall i :: 0 <= i < |v.kids| ==> (v.shape.keys[i] in names <==> Encode(texts, v.kids[i]).Some?)
    ensures forall name :: name in names ==> name in v.shape.keys
    ensures forall i, k :: 0 <= i < |v.kids| && 0 <= k < |names| && v.shape.keys[i] == names[k] ==>
      Encode(texts, v.kids[i]) == Some(values[k])
    ensures Encode(texts, v) == Some(
      if "__idempotencyType" in names
      then Compound(ObjectShape(["__idempotencyType", "value"]), [Str("Object"), Compound(ObjectShape(names), values)])
      else Compound(ObjectShape(names), values))
  {
    var keys := v.shape.keys;
    var parts := seq(|v.kids|, i requires 0 <= i < |v.kids| => Encode(texts, v.kids[i]));
    var kept := Kept(keys, parts);
    names, values := Keys(kept), Values(kept);
    KeptKeys(keys, parts);
    KeptExactly(keys, parts);
  }

  /** What is kept of a list of members: exactly those that have a part, each with its own. */
  lemma {:induction false} KeptExactly(keys: seq<string>, parts: seq<Option<Value>>)
    requires |keys| == |parts| && Distinct(keys)
    ensures var kept := Kept(keys, parts);
      && (forall i :: 0 <= i < |keys| ==> (keys[i] in Keys(kept) <==> parts[i].Some?))
      && (forall i, k :: 0 <= i < |keys| && 0 <= k < |kept| && keys[i] == kept[k].0 ==> parts[i] == Some(kept[k].1))
  {
    if keys != [] {
      var rest := Kept(keys[1..], parts[1..]);
      KeptExactly(keys[1..], parts[1..]);
      KeptKeys(keys[1..], parts[1..]);
      assert keys[0] !in keys[1..];
      assert forall i :: 1 <= i < |keys| ==> keys[i] == keys[1..][i - 1] && parts[i] == parts[1..][i - 1];
      if parts[0].Some? {
        KeysOfCons((keys[0], parts[0].value), rest);
      }
      forall k | 0 <= k < |rest|
        ensures rest[k].0 in keys[1..]
      {
        assert Keys(rest)[k] in Keys(rest);
      }
    }
  }

  /** What a replay makes of the items of arrays, Sets and Maps: each item's normal form, and `null` for what was left out. */
  lemma ReplayedItems(v: Value) returns (items: seq<Value>)
    requires WellFormed(v) && v.Compound? && !v.shape.ObjectShape?
    ensures |items| == |v.kids|
    ensures forall i :: 0 <= i < |v.kids| ==> items[i] == match Normal(v.kids[i]) case Some(part) => part case None => Null
    ensures forall i :: 0 <= i < |v.kids| ==>
      (v.kids[i].Undefined? || v.kids[i].Function? || v.kids[i].Symbol? || v.kids[i].NonFinite? ==> items[i] == Null)
    ensures v.shape.ArrayShape? ==> Normal(v) == Some(Compound(ArrayShape, items))
    ensures v.shape.SetShape? ==> Normal(v) == Some(Compound(SetShape, SetItems(items)))
    ensures v.shape.MapShape? ==>
      exists entries: seq<(Value, Value)> ::
        && 2 * |entries| == |items|
        && (forall k :: 0 <= k < |entries| ==> entries[k] == (items[2 * k], items[2 * k + 1]))
        && Normal(v) == Some(Compound(MapShape, Flat(MapEntries(entries))))
  {
    items := NormalItems(seq(|v.kids|, i requires 0 <= i < |v.kids| => Normal(v.kids[i])));
    if v.shape.MapShape? {
      var entries := Pairs(items);
      assert Normal(v) == Some(Compound(MapShape, Flat(MapEntries(entries))));
    }
  }

  /** A key that a Map or a Set compares by value, of those a replay can have. */
  predicate ComparedByValue(v: Value) {
    v.Null? || v.Bool? || v.Num? || v.BigInt? || v.Str?
  }

  /** `Map.set()` of a normal key: one that is there keeps its place and takes the later value; any other goes last. */
  lemma MapPutExactly(entries: seq<(Value, Value)>, key: Value, value: Value)
    requires ComparedByValue(key) || key.Date? || key.Bytes? || key.Compound?
    ensures ComparedByValue(key) && (exists i :: 0 <= i < |entries| && entries[i].0 == key) ==>
      exists i ::
        && 0 <= i < |entries| && entries[i].0 == key && (forall k :: 0 <= k < i ==> entries[k].0 != key)
        && MapPut(entries, key, value) == entries[..i] + [(key, value)] + entries[i + 1..]
    ensures !ComparedByValue(key) || (forall i :: 0 <= i < |entries| ==> entries[i].0 != key) ==>
      MapPut(entries, key, value) == entries + [(key, value)]
  {
    var at := IndexOf(Keys(entries), key);
    if at.Some? {
      var i := at.value;
      assert forall k :: 0 <= k < i ==> Keys(entries)[k] != key;
      assert entries[i := (key, value)] == entries[..i] + [(key, value)] + entries[i + 1..];
    } else {
      assert forall i :: 0 <= i < |entries| ==> Keys(entries)[i] in Keys(entries);
    }
  }

  /** A Set takes an item unless it compares it by value and has it. */
  lemma SetAddExactly(items: seq<Value>, item: Value)
    requires ComparedByValue(item) || item.Date? || item.Bytes? || item.Compound?
    ensures SetItems(items + [item]) ==
      if ComparedByValue(item) && item in items then SetItems(items) else SetItems(items) + [item]
  {
    assert (items + [item])[..|items|] == items;
    SetHasItems(items);
  }

  lemma {:induction false} SetHasItems(items: seq<Value>)
    ensures forall x :: x in SetItems(items) <==> x in items
  {
    if items != [] {
      SetHasItems(items[..|items| - 1]);
      assert items == items[..|items| - 1] + [items[|items| - 1]];
    }
  }

  /** `new Map()` adds its entries one by one, in order, to an empty Map. */
  lemma MapFromEntries(entries: seq<(Value, Value)>, last: (Value, Value))
    ensures MapEntries([]) == []
    ensures MapEntries(entries + [last]) == MapPut(MapEntries(entries), last.0, last.1)
  {
    assert (entries + [last])[..|entries|] == entries;
  }

  /** `x` is `v` or occurs somewhere in it. */
  ghost predicate Within(x: Value, v: Value) {
    x == v || (v.Compound? && exists i :: 0 <= i < |v.kids| && Within(x, v.kids[i]))
  }

  /** Nothing but JSON is stored, at any depth: no Date, no BigInt, no bytes, no Map, no Set, nothing left out. */
  lemma OnlyJsonIsStored(texts: Texts, v: Value, x: Value)
    requires WellFormed(v) && TextsRoundTrip(texts)
    requires Encode(texts, v).Some? && Within(x, Encode(texts, v).value)
    ensures x.Null? || x.Bool? || x.Num? || x.Str? || (x.Compound? && (x.shape.ArrayShape? || x.shape.ObjectShape?))
  {
    RoundTrip(texts, v);
    SafeWithin(Encode(texts, v).value, x);
  }

  lemma {:induction false} SafeWithin(v: Value, x: Value)
    requires JsonSafe(v) && Within(x, v)
    ensures x.Null? || x.Bool? || x.Num? || x.Str? || (x.Compound? && (x.shape.ArrayShape? || x.shape.ObjectShape?))
    decreases v
  {
    if x != v {
      var i :| 0 <= i < |v.kids| && Within(x, v.kids[i]);
      SafeWithin(v.kids[i], x);
    }
  }
}
