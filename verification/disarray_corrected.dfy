/**
 The field loop of `disarray.UnmarshalAsObject` as its documentation and its
 bound-check comment describe it: the element decoded into a field is the one
 at the field's declared offset, and an offset outside the array (negative or
 too large) is skipped, so the loop can no longer index out of range.
 */
module DisarrayCorrected {
  import opened Wrappers
  import opened Json
  import opened Strings
  import opened Strconv
  import opened Disarray

  /** The loop body with the element chosen by the declared offset. */
  function VisitAtOffset<R, V, J>(raws: seq<R>, f: Field<V>, decode: (R, V) -> Decoded<V, J>): Step<V, J> {
    match f.tag
    case None => Skip
    case Some(tag) =>
      var token := BeforeComma(tag);
      match Atoi(token)
      case None => Stop(f.value, BadOffset(token))
      case Some(offset) =>
        if offset < 0 || offset >= |raws| then Skip
        else
          var d := decode(raws[offset], f.value);
          match d.err
          case None => Write(d.value)
          case Some(e) => Stop(d.value, DecodeError(e))
  }

  /**
   The corrected field loop from position `i` on. It never panics, and a field
   that changes receives the decoding of the element at its declared offset.
   */
  function BindAtOffset<R, V, J>(raws: seq<R>, fields: seq<Field<V>>, i: nat, decode: (R, V) -> Decoded<V, J>): (o: Outcome<V, J>)
    requires i <= |fields|
    ensures o.Returned?
    ensures |o.fields| == |fields|
    ensures forall j :: 0 <= j < |fields| ==> o.fields[j].tag == fields[j].tag
    ensures forall j :: 0 <= j < i ==> o.fields[j] == fields[j]
    ensures forall j :: 0 <= j < |fields| && o.fields[j] != fields[j] ==>
              var k := OffsetOf(fields[j]);
              k.Some? && 0 <= k.value < |raws| && o.fields[j].value == decode(raws[k.value], fields[j].value).value
    decreases |fields| - i
  {
    if i == |fields| then Returned(fields, None)
    else
      match VisitAtOffset(raws, fields[i], decode)
      case Skip => BindAtOffset(raws, fields, i + 1, decode)
      case Write(v) => BindAtOffset(raws, fields[i := fields[i].(value := v)], i + 1, decode)
      case Stop(v, e) => Returned(fields[i := fields[i].(value := v)], Some(e))
      case Crash => Panicked(fields, i)  // VisitAtOffset never produces Crash
  }

  /** The corrected call: parse, then run the corrected field loop. */
  function UnmarshalAtOffset<R, V, J>(
    data: Bytes,
    fields: seq<Field<V>>,
    parse: Bytes -> Result<seq<R>, J>,
    decode: (R, V) -> Decoded<V, J>
  ): (o: Outcome<V, J>)
    ensures o.Returned?
    ensures parse(data).Failure? ==> o == Returned(fields, Some(ParseError(parse(data).error)))
    ensures parse(data).Success? ==> o == BindAtOffset(parse(data).value, fields, 0, decode)
  {
    match parse(data)
    case Failure(e) => Returned(fields, Some(ParseError(e)))
    case Success(raws) => BindAtOffset(raws, fields, 0, decode)
  }

  // ---------------------------------------------------------------------------
  // Where the code as written and the correction agree.
  // ---------------------------------------------------------------------------

  /** Every field with a readable offset is tagged with its own declaration position. */
  predicate PositionalTags<V>(fields: seq<Field<V>>) {
    forall j :: 0 <= j < |fields| && OffsetOf(fields[j]).Some? ==> OffsetOf(fields[j]).value == j
  }

  lemma {:induction false} AgreesFrom<R, V, J>(raws: seq<R>, fields: seq<Field<V>>, decode: (R, V) -> Decoded<V, J>, i: nat)
    requires i <= |fields| && PositionalTags(fields)
    ensures Bind(raws, fields, i, decode) == BindAtOffset(raws, fields, i, decode)
    decreases |fields| - i
  {
    if i < |fields| {
      assert Visit(raws, i, fields[i], decode) == VisitAtOffset(raws, fields[i], decode);
      match VisitAtOffset(raws, fields[i], decode)
      case Skip =>
        AgreesFrom(raws, fields, decode, i + 1);
      case Write(v) =>
        var next := fields[i := fields[i].(value := v)];
        assert forall j :: 0 <= j < |fields| ==> next[j].tag == fields[j].tag;
        assert forall j :: 0 <= j < |fields| ==> OffsetOf(next[j]) == OffsetOf(fields[j]);
        AgreesFrom(raws, next, decode, i + 1);
      case Stop(_, _) =>
      case Crash =>
    }
  }

  /**
   With tags equal to declaration positions, the usage the documentation
   shows, the code as written behaves exactly like the correction.
   */
  lemma AsWrittenAgreesOnPositionalTags<R, V, J>(raws: seq<R>, fields: seq<Field<V>>, decode: (R, V) -> Decoded<V, J>)
    requires PositionalTags(fields)
    ensures BindAll(raws, fields, decode) == BindAtOffset(raws, fields, 0, decode)
  {
    AgreesFrom(raws, fields, decode, 0);
  }

  /** Field tagged `"1"` first, `"0"` second: each now receives the element its tag names. */
  lemma MisboundElementCorrected()
    ensures BindAtOffset([10, 20], [Field(Some("1"), 0), Field(Some("0"), 0)], 0, TakeElement)
         == Returned([Field(Some("1"), 20), Field(Some("0"), 10)], None)
  {
    AtoiAcceptsExamples();
    assert BeforeComma("1") == "1" + BeforeComma("");
    assert Atoi("1") == Some(1);
    var fields := [Field(Some("1"), 0), Field(Some("0"), 0)];
    assert VisitAtOffset([10, 20], fields[0], TakeElement) == Write(20);
    var next := fields[0 := Field(Some("1"), 20)];
    assert BindAtOffset([10, 20], fields, 0, TakeElement) == BindAtOffset([10, 20], next, 1, TakeElement);
    assert VisitAtOffset([10, 20], next[1], TakeElement) == Write(10);
    var last := next[1 := Field(Some("0"), 10)];
    assert BindAtOffset([10, 20], next, 1, TakeElement) == BindAtOffset([10, 20], last, 2, TakeElement);
    assert last == [Field(Some("1"), 20), Field(Some("0"), 10)];
  }

  // ---------------------------------------------------------------------------
  // Round trip: lay the tagged fields out as an array at their offsets, then
  // bind the array back into a struct of the same shape.
  // ---------------------------------------------------------------------------

  /** Every tag holds a non-negative offset, and no two tagged fields share one. */
  predicate DistinctOffsets<V>(fields: seq<Field<V>>) {
    && (forall j :: 0 <= j < |fields| && fields[j].tag.Some? ==> OffsetOf(fields[j]).Some? && OffsetOf(fields[j]).value >= 0)
    && (forall j, k :: 0 <= j < k < |fields| && OffsetOf(fields[j]).Some? ==> OffsetOf(fields[j]) != OffsetOf(fields[k]))
  }

  /** The first field at or after `from` whose declared offset is `k`. */
  function FieldWithOffset<V>(fields: seq<Field<V>>, k: int, from: nat): (r: Option<nat>)
    requires from <= |fields|
    ensures r.Some? ==> from <= r.value < |fields| && OffsetOf(fields[r.value]) == Some(k)
    ensures r.None? ==> forall j :: from <= j < |fields| ==> OffsetOf(fields[j]) != Some(k)
    decreases |fields| - from
  {
    if from == |fields| then None
    else if OffsetOf(fields[from]) == Some(k) then Some(from)
    else FieldWithOffset(fields, k, from + 1)
  }

  /** One more than the largest non-negative declared offset, or 0 when there is none. */
  function ArrayLength<V>(fields: seq<Field<V>>): (n: nat)
    ensures forall j :: 0 <= j < |fields| && OffsetOf(fields[j]).Some? && OffsetOf(fields[j]).value >= 0 ==>
              OffsetOf(fields[j]).value < n
    decreases |fields|
  {
    if |fields| == 0 then 0
    else
      var rest := ArrayLength(fields[1..]);
      assert forall j :: 1 <= j < |fields| ==> fields[j] == fields[1..][j - 1];
      var k := OffsetOf(fields[0]);
      if k.Some? && k.value >= rest then k.value + 1 else rest
  }

  /**
   The array a struct encodes to: each tagged field's encoded value at its
   offset, and `zero` in every gap.
   */
  function EncodeAsArray<R, V>(fields: seq<Field<V>>, encode: V -> R, zero: R): (raws: seq<R>)
    ensures |raws| == ArrayLength(fields)
  {
    seq(ArrayLength(fields), k requires 0 <= k =>
      match FieldWithOffset(fields, k, 0)
      case Some(j) => encode(fields[j].value)
      case None => zero)
  }

  /** With distinct offsets, the search for a tagged field's offset finds that field. */
  lemma FieldWithOffsetFinds<V>(fields: seq<Field<V>>, j: nat)
    requires DistinctOffsets(fields) && j < |fields| && fields[j].tag.Some?
    ensures FieldWithOffset(fields, OffsetOf(fields[j]).value, 0) == Some(j)
  {
    assert forall m :: 0 <= m < |fields| && m != j ==> OffsetOf(fields[m]) != OffsetOf(fields[j]);
  }

  /** Every tagged field's encoded value sits at its offset in the encoded array. */
  lemma EncodeAsArrayPlacesFields<R, V>(fields: seq<Field<V>>, encode: V -> R, zero: R)
    requires DistinctOffsets(fields)
    ensures var raws := EncodeAsArray(fields, encode, zero);
            forall j :: 0 <= j < |fields| && fields[j].tag.Some? ==>
              0 <= OffsetOf(fields[j]).value < |raws| && raws[OffsetOf(fields[j]).value] == encode(fields[j].value)
  {
    forall j | 0 <= j < |fields| && fields[j].tag.Some?
      ensures 0 <= OffsetOf(fields[j]).value < |EncodeAsArray(fields, encode, zero)|
      ensures EncodeAsArray(fields, encode, zero)[OffsetOf(fields[j]).value] == encode(fields[j].value)
    {
      FieldWithOffsetFinds(fields, j);
    }
  }

  /** The struct a round trip must rebuild: tagged fields from `fields`, the rest from `targets`. */
  function Rebuilt<V>(fields: seq<Field<V>>, targets: seq<Field<V>>, n: nat): seq<Field<V>>
    requires |targets| == |fields| && n <= |fields|
  {
    seq(|fields|, j requires 0 <= j < |fields| =>
      if j < n && fields[j].tag.Some? then fields[j] else targets[j])
  }

  /** One step of the corrected loop over a partly rebuilt struct rebuilds one more field. */
  lemma RoundTripStep<R, V, J>(
    fields: seq<Field<V>>, targets: seq<Field<V>>,
    encode: V -> R, zero: R, decode: (R, V) -> Decoded<V, J>, i: nat)
    requires DistinctOffsets(fields)
    requires |targets| == |fields| && i < |fields|
    requires forall j :: 0 <= j < |fields| ==> targets[j].tag == fields[j].tag
    requires forall v, w :: decode(encode(v), w) == Decoded(v, None)
    ensures var cur := Rebuilt(fields, targets, i);
            var step := VisitAtOffset(EncodeAsArray(fields, encode, zero), cur[i], decode);
            && (step.Skip? || step.Write?)
            && (step.Skip? ==> cur == Rebuilt(fields, targets, i + 1))
            && (step.Write? ==> cur[i := cur[i].(value := step.value)] == Rebuilt(fields, targets, i + 1))
  {
    var raws := EncodeAsArray(fields, encode, zero);
    var cur := Rebuilt(fields, targets, i);
    if fields[i].tag.None? {
      assert VisitAtOffset(raws, cur[i], decode) == Skip;
      assert cur == Rebuilt(fields, targets, i + 1);
    } else {
      EncodeAsArrayPlacesFields(fields, encode, zero);
      var k := OffsetOf(fields[i]).value;
      assert OffsetOf(cur[i]) == OffsetOf(fields[i]);
      assert raws[k] == encode(fields[i].value);
      assert VisitAtOffset(raws, cur[i], decode) == Write(fields[i].value);
      assert cur[i := cur[i].(value := fields[i].value)] == Rebuilt(fields, targets, i + 1);
    }
  }

  lemma {:induction false} RoundTripFrom<R, V, J>(
    fields: seq<Field<V>>, targets: seq<Field<V>>,
    encode: V -> R, zero: R, decode: (R, V) -> Decoded<V, J>, i: nat)
    requires DistinctOffsets(fields)
    requires |targets| == |fields| && i <= |fields|
    requires forall j :: 0 <= j < |fields| ==> targets[j].tag == fields[j].tag
    requires forall v, w :: decode(encode(v), w) == Decoded(v, None)
    ensures BindAtOffset(EncodeAsArray(fields, encode, zero), Rebuilt(fields, targets, i), i, decode)
         == Returned(Rebuilt(fields, targets, |fields|), None)
    decreases |fields| - i
  {
    if i < |fields| {
      RoundTripStep(fields, targets, encode, zero, decode, i);
      RoundTripFrom(fields, targets, encode, zero, decode, i + 1);
    }
  }

  /**
   Encoding a struct whose tagged fields have distinct non-negative offsets as
   an array and binding that array into a struct of the same shape gives back
   every tagged field's value; untagged fields keep the target's values.
   */
  lemma RoundTrip<R, V, J>(
    fields: seq<Field<V>>, targets: seq<Field<V>>,
    encode: V -> R, zero: R, decode: (R, V) -> Decoded<V, J>)
    requires DistinctOffsets(fields)
    requires |targets| == |fields|
    requires forall j :: 0 <= j < |fields| ==> targets[j].tag == fields[j].tag
    requires forall v, w :: decode(encode(v), w) == Decoded(v, None)
    ensures var o := BindAtOffset(EncodeAsArray(fields, encode, zero), targets, 0, decode);
            && o.Returned? && o.err.None?
            && (forall j :: 0 <= j < |fields| && fields[j].tag.Some? ==> o.fields[j] == fields[j])
            && (forall j :: 0 <= j < |fields| && fields[j].tag.None? ==> o.fields[j] == targets[j])
  {
    assert Rebuilt(fields, targets, 0) == targets;
    RoundTripFrom(fields, targets, encode, zero, decode, 0);
  }

  /**
   The same round trip through the code as written, for structs tagged the
   documented way (each tag equal to the field's position).
   */
  lemma RoundTripPositional<R, V, J>(
    fields: seq<Field<V>>, targets: seq<Field<V>>,
    encode: V -> R, zero: R, decode: (R, V) -> Decoded<V, J>)
    requires DistinctOffsets(fields) && PositionalTags(fields)
    requires |targets| == |fields|
    requires forall j :: 0 <= j < |fields| ==> targets[j].tag == fields[j].tag
    requires forall v, w :: decode(encode(v), w) == Decoded(v, None)
    ensures var o := BindAll(EncodeAsArray(fields, encode, zero), targets, decode);
            && o.Returned? && o.err.None?
            && (forall j :: 0 <= j < |fields| && fields[j].tag.Some? ==> o.fields[j] == fields[j])
            && (forall j :: 0 <= j < |fields| && fields[j].tag.None? ==> o.fields[j] == targets[j])
  {
    assert forall j :: 0 <= j < |fields| ==> OffsetOf(targets[j]) == OffsetOf(fields[j]);
    AsWrittenAgreesOnPositionalTags(EncodeAsArray(fields, encode, zero), targets, decode);
    RoundTrip(fields, targets, encode, zero, decode);
  }
}
