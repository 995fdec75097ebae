/** The normaliser that turns a decoded protobuf message into a plain,
    serialisation-safe JavaScript value tree before it is handed to the pages
    (`toPlainObject` in data/stardoc.ts). */
module PlainValues {
  import opened Basics

  /** JavaScript values that are not objects: the normaliser returns them as they are. */
  datatype Primitive = Num(n: int) | Str(s: string) | Bool(b: bool)

  /** A JavaScript value as the normaliser sees it. An object is the sequence
      `Object.entries` yields, own enumerable properties in order. */
  datatype Value =
    | Null
    | Undefined
    | Prim(p: Primitive)
    | Bytes(bytes: seq<bv8>)          // a Uint8Array
    | Arr(items: seq<Value>)
    | Obj(properties: seq<Property>)

  datatype Property = Property(key: string, value: Value)

  /** protobuf-es marks framework-internal properties (`$typeName`, `$unknown`) with a `$`. */
  predicate IsInternalKey(key: string) {
    StartsWith(key, "$")
  }

  /** Property lookup `obj[key]`: the value of the first property with that key. */
  function Lookup(props: seq<Property>, key: string): Option<Value> {
    if props == [] then None
    else if props[0].key == key then Some(props[0].value)
    else Lookup(props[1..], key)
  }

  function KeySet(props: seq<Property>): set<string> {
    set i | 0 <= i < |props| :: props[i].key
  }

  lemma KeySetCons(p: Property, rest: seq<Property>)
    ensures KeySet([p] + rest) == {p.key} + KeySet(rest)
  {
    var s := [p] + rest;
    forall k | k in KeySet(s) ensures k in {p.key} + KeySet(rest) {
      var i :| 0 <= i < |s| && s[i].key == k;
      if i > 0 { assert rest[i - 1].key == k; }
    }
    forall k | k in KeySet(rest) ensures k in KeySet(s) {
      var i :| 0 <= i < |rest| && rest[i].key == k;
      assert s[i + 1].key == k;
    }
    assert s[0].key == p.key;
  }

  predicate DistinctKeys(props: seq<Property>) {
    forall i, j :: 0 <= i < j < |props| ==> props[i].key != props[j].key
  }

  /** A value that is a real JavaScript value: no object has the same key twice. */
  predicate WellFormed(v: Value)
    decreases v
  {
    match v
    case Arr(items) => forall i :: 0 <= i < |items| ==> WellFormed(items[i])
    case Obj(props) =>
      DistinctKeys(props) && forall i :: 0 <= i < |props| ==> WellFormed(props[i].value)
    case _ => true
  }

  /** A normalised value: no byte array and no internal key anywhere in the tree. */
  predicate Plain(v: Value)
    decreases v
  {
    match v
    case Bytes(_) => false
    case Arr(items) => forall i :: 0 <= i < |items| ==> Plain(items[i])
    case Obj(props) =>
      forall i :: 0 <= i < |props| ==> !IsInternalKey(props[i].key) && Plain(props[i].value)
    case _ => true
  }

  /** `toPlainObject(obj)` */
  function ToPlain(v: Value): (r: Value)
    ensures Plain(r)
    ensures WellFormed(v) ==> WellFormed(r)
    ensures v.Null? || v.Undefined? || v.Prim? ==> r == v
    decreases v
  {
    match v
    case Null => v
    case Undefined => v
    case Prim(_) => v
    case Bytes(bs) => Arr(BytesToNumbers(bs))
    case Arr(items) => Arr(PlainItems(items))
    case Obj(props) => Obj(PlainProperties(props))
  }

  /** `Array.from(uint8Array)`: each byte becomes a number. */
  function BytesToNumbers(bs: seq<bv8>): (r: seq<Value>)
    ensures forall i :: 0 <= i < |r| ==> Plain(r[i]) && WellFormed(r[i])
  {
    seq(|bs|, i requires 0 <= i < |bs| => Prim(Num(bs[i] as int)))
  }

  /** `items.map(toPlainObject)` */
  function PlainItems(items: seq<Value>): (r: seq<Value>)
    ensures |r| == |items|
    ensures forall i :: 0 <= i < |items| ==> r[i] == ToPlain(items[i])
    decreases items
  {
    if items == [] then [] else [ToPlain(items[0])] + PlainItems(items[1..])
  }

  /** The loop over `Object.entries(obj)` that skips internal keys and
      normalises every other value. */
  function PlainProperties(props: seq<Property>): (r: seq<Property>)
    ensures forall i :: 0 <= i < |r| ==> !IsInternalKey(r[i].key) && Plain(r[i].value)
    ensures KeySet(r) == set k | k in KeySet(props) && !IsInternalKey(k)
    ensures DistinctKeys(props) ==> DistinctKeys(r)
    ensures (forall i :: 0 <= i < |props| ==> WellFormed(props[i].value)) ==>
              forall i :: 0 <= i < |r| ==> WellFormed(r[i].value)
    decreases props
  {
    if props == [] then []
    else
      assert KeySet(props) == {props[0].key} + KeySet(props[1..]);
      if IsInternalKey(props[0].key) then PlainProperties(props[1..])
      else
        var rest := PlainProperties(props[1..]);
        var r := [Property(props[0].key, ToPlain(props[0].value))] + rest;
        KeySetCons(Property(props[0].key, ToPlain(props[0].value)), rest);
        assert DistinctKeys(props) ==> props[0].key !in KeySet(rest) by {
          if DistinctKeys(props) {
            assert forall i :: 0 <= i < |props| - 1 ==> props[1..][i].key != props[0].key;
          }
        }
        assert forall j :: 0 < j < |r| ==> r[j].key == rest[j - 1].key && r[j].key in KeySet(rest);
        r
  }

  function MapPlain(o: Option<Value>): Option<Value> {
    match o
    case None => None
    case Some(v) => Some(ToPlain(v))
  }

  /** Every key of a normalised object is absent when internal and otherwise
      holds the normalised value of the input's property. */
  lemma {:induction false} PlainPropertiesLookup(props: seq<Property>, key: string)
    ensures Lookup(PlainProperties(props), key) ==
              if IsInternalKey(key) then None else MapPlain(Lookup(props, key))
    decreases props
  {
    if props != [] {
      PlainPropertiesLookup(props[1..], key);
    }
  }

  /** Normalising an object keeps the non-internal keys in their original order. */
  lemma {:induction false} PlainPropertiesKeepOrder(props: seq<Property>)
    ensures KeysOf(PlainProperties(props)) == NonInternal(KeysOf(props))
    decreases props
  {
    if props != [] {
      PlainPropertiesKeepOrder(props[1..]);
      assert KeysOf(props) == [props[0].key] + KeysOf(props[1..]);
    }
  }

  function KeysOf(props: seq<Property>): seq<string> {
    seq(|props|, i requires 0 <= i < |props| => props[i].key)
  }

  function NonInternal(keys: seq<string>): seq<string> {
    if keys == [] then []
    else if IsInternalKey(keys[0]) then NonInternal(keys[1..])
    else [keys[0]] + NonInternal(keys[1..])
  }

  /** A normalised value is left unchanged by a second normalisation. */
  lemma {:induction false} PlainFixedPoint(v: Value)
    requires Plain(v)
    ensures ToPlain(v) == v
    decreases v
  {
    match v
    case Arr(items) =>
      forall i | 0 <= i < |items|
        ensures ToPlain(items[i]) == items[i]
      {
        PlainFixedPoint(items[i]);
      }
      assert PlainItems(items) == items;
    case Obj(props) =>
      PlainPropertiesFixedPoint(props);
    case _ =>
  }

  lemma {:induction false} PlainPropertiesFixedPoint(props: seq<Property>)
    requires forall i :: 0 <= i < |props| ==> !IsInternalKey(props[i].key) && Plain(props[i].value)
    ensures PlainProperties(props) == props
    decreases props
  {
    if props != [] {
      PlainFixedPoint(props[0].value);
      PlainPropertiesFixedPoint(props[1..]);
      assert props == [props[0]] + props[1..];
    }
  }

  /** `toPlainObject` is idempotent. */
  lemma ToPlainIdempotent(v: Value)
    ensures ToPlain(ToPlain(v)) == ToPlain(v)
  {
    PlainFixedPoint(ToPlain(v));
  }

  /** Reads a plain array of numbers back as bytes; the inverse of `Array.from`. */
  function AsBytes(items: seq<Value>): Option<seq<bv8>> {
    if items == [] then Some([])
    else match items[0]
      case Prim(Num(n)) =>
        if 0 <= n < 256 then
          match AsBytes(items[1..])
          case Some(rest) => Some([n as bv8] + rest)
          case None => None
        else None
      case _ => None
  }

  /** A byte array becomes an array of the same bytes, in the same order. */
  lemma {:induction false} BytesRoundTrip(bs: seq<bv8>)
    ensures ToPlain(Bytes(bs)).Arr?
    ensures AsBytes(ToPlain(Bytes(bs)).items) == Some(bs)
    decreases bs
  {
    if bs != [] {
      BytesRoundTrip(bs[1..]);
      assert BytesToNumbers(bs)[1..] == BytesToNumbers(bs[1..]);
      assert (bs[0] as int) as bv8 == bs[0];
      assert bs == [bs[0]] + bs[1..];
    }
  }
}
