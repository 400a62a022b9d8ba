/**
 `noarray.UnmarshalAsObject`: the bounded variant. It turns an array of at
 most ten elements into a JSON object keyed by the names in `Offsets`, then
 lets the JSON library decode that object into the target. The JSON parser, the
 marshaller and the final typed decode are parameters.
 */
module Noarray {
  import opened Wrappers
  import opened Json

  /** The key each array position is renamed to, position 0 first. */
  const Offsets: seq<string> := [
    "offset_zero",
    "offset_one",
    "offset_two",
    "offset_three",
    "offset_four",
    "offset_five",
    "offset_six",
    "offset_seven",
    "offset_eight",
    "offset_nine"
  ]

  /** The errors the call can return. */
  datatype Error<+J> =
    | JsonError(cause: J)   // from the parse, the marshal or the final decode, passed through
    | ArrayTooLong          // the sentinel `ErrArrayTooLong`

  /** The target as the call leaves it, and the error it returned, if any. */
  datatype Reply<+T, +J> = Reply(target: T, err: Option<Error<J>>)

  /** The table has ten keys and no two positions share one. */
  lemma OffsetsDistinct()
    ensures |Offsets| == 10
    ensures Distinct(Offsets)
  {
    forall i, j | 0 <= i < j < |Offsets|
      ensures Offsets[i] != Offsets[j]
    {
      var a, b := Offsets[i], Offsets[j];
      if |a| == |b| {
        assert a[7] != b[7] || a[8] != b[8];
      }
    }
  }

  /** No key occurs twice in `keys`. */
  predicate Distinct<K(==)>(keys: seq<K>) {
    forall i, j :: 0 <= i < j < |keys| ==> keys[i] != keys[j]
  }

  /** The map that puts `raw[i]` under `keys[i]` for each of the first `n` positions. */
  function Keyed<K(==), E>(keys: seq<K>, raw: seq<E>, n: nat): map<K, E>
    requires n <= |raw| <= |keys| && Distinct(keys)
  {
    map i | 0 <= i < n :: keys[i] := raw[i]
  }

  lemma KeyedShape<K, E>(keys: seq<K>, raw: seq<E>, n: nat)
    requires n <= |raw| <= |keys| && Distinct(keys)
    ensures forall i :: 0 <= i < n ==> keys[i] in Keyed(keys, raw, n) && Keyed(keys, raw, n)[keys[i]] == raw[i]
    ensures forall key :: key in Keyed(keys, raw, n) ==> exists i :: 0 <= i < n && keys[i] == key
  {
    var keyed := Keyed(keys, raw, n);
    forall i | 0 <= i < n
      ensures keys[i] in keyed && keyed[keys[i]] == raw[i]
    {
      assert keys[i] in keyed.Keys;
    }
  }

  lemma KeyedExtend<K, E>(keys: seq<K>, raw: seq<E>, n: nat)
    requires n < |raw| <= |keys| && Distinct(keys)
    ensures keys[n] !in Keyed(keys, raw, n)
    ensures Keyed(keys, raw, n + 1) == Keyed(keys, raw, n)[keys[n] := raw[n]]
  {
    var before, after := Keyed(keys, raw, n), Keyed(keys, raw, n + 1);
    KeyedShape(keys, raw, n);
    KeyedShape(keys, raw, n + 1);
    var updated := before[keys[n] := raw[n]];
    forall key | key in after
      ensures key in updated && after[key] == updated[key]
    {
    }
    forall key | key in updated
      ensures key in after
    {
    }
  }

  /** The object the array should become: position `i` under key `Offsets[i]`. */
  function PositionalObject<E>(raw: seq<E>): map<string, E>
    requires |raw| <= |Offsets|
  {
    OffsetsDistinct();
    Keyed(Offsets, raw, |raw|)
  }

  /**
   The object has exactly one key per element, `Offsets[0]` to
   `Offsets[|raw| - 1]`, each holding the element at that position; the keys
   for positions past the end of a short array are absent.
   */
  lemma PositionalObjectShape<E>(raw: seq<E>)
    requires |raw| <= |Offsets|
    ensures forall i :: 0 <= i < |raw| ==> Offsets[i] in PositionalObject(raw) && PositionalObject(raw)[Offsets[i]] == raw[i]
    ensures forall i :: |raw| <= i < |Offsets| ==> Offsets[i] !in PositionalObject(raw)
    ensures forall key :: key in PositionalObject(raw) ==> key in Offsets[..|raw|]
  {
    OffsetsDistinct();
    KeyedShape(Offsets, raw, |raw|);
  }

  /**
   The loop that fills the object: insert every element under its position's
   key. The length bound makes every `Offsets[i]` in range, and since the keys
   are distinct no insertion overwrites another, so the object has one entry
   per element.
   */
  method BuildObject<E>(raw: seq<E>) returns (keyed: map<string, E>)
    requires |raw| <= |Offsets|
    ensures keyed == PositionalObject(raw)
    ensures |keyed| == |raw|
  {
    OffsetsDistinct();
    keyed := map[];
    var i := 0;
    while i < |raw|
      invariant i <= |raw|
      invariant keyed == Keyed(Offsets, raw, i)
      invariant |keyed| == i
    {
      KeyedExtend(Offsets, raw, i);
      keyed := keyed[Offsets[i] := raw[i]];
      i := i + 1;
    }
  }

  /**
   `UnmarshalAsObject(data, v)`. The parse error comes first, then the length
   bound, then the marshal error, and otherwise the final decode's target and
   error are returned unchanged.
   */
  method UnmarshalAsObject<E, T, J>(
    data: Bytes,
    target: T,
    parse: Bytes -> Result<seq<E>, J>,
    marshal: map<string, E> -> Result<Bytes, J>,
    unmarshal: (Bytes, T) -> Decoded<T, J>
  ) returns (reply: Reply<T, J>)
    ensures parse(data).Failure? ==> reply == Reply(target, Some(JsonError(parse(data).error)))
    ensures reply.err == Some(ArrayTooLong) <==> parse(data).Success? && |parse(data).value| > |Offsets|
    ensures reply.err == Some(ArrayTooLong) ==> reply.target == target
    ensures parse(data).Success? && |parse(data).value| <= |Offsets| ==>
              match marshal(PositionalObject(parse(data).value))
              case Failure(e) => reply == Reply(target, Some(JsonError(e)))
              case Success(bytes) =>
                var d := unmarshal(bytes, target);
                reply == Reply(d.value, if d.err.Some? then Some(JsonError(d.err.value)) else None)
  {
    var rawSlice;
    match parse(data) {
      case Failure(e) =>
        return Reply(target, Some(JsonError(e)));
      case Success(elements) =>
        rawSlice := elements;
    }
    if |rawSlice| > |Offsets| {
      return Reply(target, Some(ArrayTooLong));
    }
    var keyed := BuildObject(rawSlice);
    var keyedData;
    match marshal(keyed) {
      case Failure(e) =>
        return Reply(target, Some(JsonError(e)));
      case Success(bytes) =>
        keyedData := bytes;
    }
    var d := unmarshal(keyedData, target);
    reply := Reply(d.value, if d.err.Some? then Some(JsonError(d.err.value)) else None);
  }
}
