/**
 `disarray.UnmarshalAsObject` as written: binds the elements of a top-level
 JSON array to the fields of a struct, field by field in declaration order,
 choosing the fields through their `json` struct tags.

 The struct is a sequence of fields, each with its `json` tag (if present) and
 its current value. The JSON parser and the typed decoder are parameters.
 */
module Disarray {
  import opened Wrappers
  import opened Json
  import opened Strings
  import opened Strconv

  /** One struct field: its `json` tag, if it has one, and its current value. */
  datatype Field<+V> = Field(tag: Option<string>, value: V)

  /** The errors the call can return, by kind. */
  datatype Error<+J> =
    | ParseError(cause: J)        // the input is not JSON, or not a JSON array
    | BadOffset(token: string)    // `strconv.Atoi` rejected the offset token
    | DecodeError(cause: J)       // an element did not decode into its field

  /**
   How the call ends: it returns (with or without an error), or it panics with
   an index out of range at field `index`. Either way `fields` is the struct as
   left behind; nothing is rolled back.
   */
  datatype Outcome<+V, +J> =
    | Returned(fields: seq<Field<V>>, err: Option<Error<J>>)
    | Panicked(fields: seq<Field<V>>, index: nat)

  /** What one iteration of the field loop does to its field. */
  datatype Step<+V, +J> =
    | Skip                            // `continue`: the field keeps its value
    | Write(value: V)                 // the element decoded into the field
    | Stop(value: V, err: Error<J>)   // return an error, leaving the field at `value`
    | Crash                           // `rawMessages[i]` is out of range

  /** The offset a tag declares: the text before the first comma, read by `Atoi`. */
  function Offset(tag: string): Option<int> {
    Atoi(BeforeComma(tag))
  }

  /** The declared offset of a field; `None` when it has no tag or a bad one. */
  function OffsetOf<V>(f: Field<V>): Option<int> {
    match f.tag
    case None => None
    case Some(tag) => Offset(tag)
  }

  /**
   The loop body for the field at declaration position `i`. The bound check
   uses the parsed offset, but the element decoded is the one at position `i`.
   */
  function Visit<R, V, J>(raws: seq<R>, i: nat, f: Field<V>, decode: (R, V) -> Decoded<V, J>): Step<V, J> {
    match f.tag
    case None => Skip
    case Some(tag) =>
      var token := BeforeComma(tag);
      match Atoi(token)
      case None => Stop(f.value, BadOffset(token))
      case Some(offset) =>
        if offset >= |raws| then Skip
        else if i >= |raws| then Crash
        else
          var d := decode(raws[i], f.value);
          match d.err
          case None => Write(d.value)
          case Some(e) => Stop(d.value, DecodeError(e))
  }

  /** A step after which the loop goes on to the next field. */
  predicate Proceeds<V, J>(s: Step<V, J>) {
    s.Skip? || s.Write?
  }

  /** The field as a step leaves it. */
  function After<V, J>(f: Field<V>, s: Step<V, J>): Field<V> {
    match s
    case Write(v) => f.(value := v)
    case Stop(v, _) => f.(value := v)
    case _ => f
  }

  /**
   The field loop from position `i` on. Fields before `i` are never touched
   again, and a field that changes receives the decoding of the element at its
   own declaration position.
   */
  function Bind<R, V, J>(raws: seq<R>, fields: seq<Field<V>>, i: nat, decode: (R, V) -> Decoded<V, J>): (o: Outcome<V, J>)
    requires i <= |fields|
    ensures |o.fields| == |fields|
    ensures forall j :: 0 <= j < |fields| ==> o.fields[j].tag == fields[j].tag
    ensures forall j :: 0 <= j < i ==> o.fields[j] == fields[j]
    ensures forall j :: 0 <= j < |fields| && o.fields[j] != fields[j] ==>
              j < |raws| && o.fields[j].value == decode(raws[j], fields[j].value).value
    ensures o.Panicked? ==> i <= o.index < |fields| && |raws| <= o.index
    ensures o.Returned? && o.err.Some? ==> !o.err.value.ParseError?
    decreases |fields| - i
  {
    if i == |fields| then Returned(fields, None)
    else
      match Visit(raws, i, fields[i], decode)
      case Skip => Bind(raws, fields, i + 1, decode)
      case Write(v) => Bind(raws, fields[i := fields[i].(value := v)], i + 1, decode)
      case Stop(v, e) => Returned(fields[i := fields[i].(value := v)], Some(e))
      case Crash => Panicked(fields, i)
  }

  /** The field loop over the whole struct. */
  function BindAll<R, V, J>(raws: seq<R>, fields: seq<Field<V>>, decode: (R, V) -> Decoded<V, J>): Outcome<V, J> {
    Bind(raws, fields, 0, decode)
  }

  /**
   `UnmarshalAsObject(data, v)`: parse `data` as an array of raw elements, then
   run the field loop. A parse error is returned before any field is touched.
   */
  function UnmarshalAsObject<R, V, J>(
    data: Bytes,
    fields: seq<Field<V>>,
    parse: Bytes -> Result<seq<R>, J>,
    decode: (R, V) -> Decoded<V, J>
  ): (o: Outcome<V, J>)
    ensures parse(data).Failure? ==> o == Returned(fields, Some(ParseError(parse(data).error)))
    ensures o.Returned? && o.err.Some? && o.err.value.ParseError? ==> parse(data).Failure? && o.fields == fields
    ensures |o.fields| == |fields|
    ensures forall j :: 0 <= j < |fields| ==> o.fields[j].tag == fields[j].tag
  {
    match parse(data)
    case Failure(e) => Returned(fields, Some(ParseError(e)))
    case Success(raws) => BindAll(raws, fields, decode)
  }

  // ---------------------------------------------------------------------------
  // A declarative reading of the field loop: every field is visited on its
  // own, the first field whose visit does not proceed ends the call, the
  // fields before it keep what their visits wrote, and the later ones are
  // untouched.
  // ---------------------------------------------------------------------------

  /** The first position at or after `from` whose visit does not proceed, or `|fields|`. */
  function FirstStop<R, V, J>(raws: seq<R>, fields: seq<Field<V>>, decode: (R, V) -> Decoded<V, J>, from: nat): (s: nat)
    requires from <= |fields|
    ensures from <= s <= |fields|
    ensures forall j :: from <= j < s ==> Proceeds(Visit(raws, j, fields[j], decode))
    ensures s < |fields| ==> !Proceeds(Visit(raws, s, fields[s], decode))
    decreases |fields| - from
  {
    if from == |fields| || !Proceeds(Visit(raws, from, fields[from], decode)) then from
    else FirstStop(raws, fields, decode, from + 1)
  }

  /** The struct after each of the first `n` fields has been visited on its own. */
  function Applied<R, V, J>(raws: seq<R>, fields: seq<Field<V>>, decode: (R, V) -> Decoded<V, J>, n: nat): seq<Field<V>>
    requires n <= |fields|
  {
    seq(|fields|, j requires 0 <= j < |fields| =>
      if j < n then After(fields[j], Visit(raws, j, fields[j], decode)) else fields[j])
  }

  /** The outcome the field loop must have, stated without the loop. */
  function Reference<R, V, J>(raws: seq<R>, fields: seq<Field<V>>, decode: (R, V) -> Decoded<V, J>): Outcome<V, J> {
    var s := FirstStop(raws, fields, decode, 0);
    if s == |fields| then Returned(Applied(raws, fields, decode, s), None)
    else
      var step := Visit(raws, s, fields[s], decode);
      if step.Crash? then Panicked(Applied(raws, fields, decode, s), s)
      else Returned(Applied(raws, fields, decode, s + 1), Some(step.err))
  }

  lemma {:induction false} BindFromApplied<R, V, J>(raws: seq<R>, fields: seq<Field<V>>, decode: (R, V) -> Decoded<V, J>, i: nat)
    requires i <= FirstStop(raws, fields, decode, 0)
    ensures Bind(raws, Applied(raws, fields, decode, i), i, decode) == Reference(raws, fields, decode)
    decreases |fields| - i
  {
    var s := FirstStop(raws, fields, decode, 0);
    var cur := Applied(raws, fields, decode, i);
    if i < |fields| {
      var step := Visit(raws, i, fields[i], decode);
      assert cur[i] == fields[i];
      if i < s {
        assert Proceeds(step);
        if step.Write? {
          assert cur[i := cur[i].(value := step.value)] == Applied(raws, fields, decode, i + 1);
        } else {
          assert cur == Applied(raws, fields, decode, i + 1);
        }
        BindFromApplied(raws, fields, decode, i + 1);
      } else if step.Stop? {
        assert cur[i := cur[i].(value := step.value)] == Applied(raws, fields, decode, i + 1);
      }
    }
  }

  /** The field loop agrees with the declarative reading on every input. */
  lemma BindMatchesReference<R, V, J>(raws: seq<R>, fields: seq<Field<V>>, decode: (R, V) -> Decoded<V, J>)
    ensures BindAll(raws, fields, decode) == Reference(raws, fields, decode)
  {
    assert Applied(raws, fields, decode, 0) == fields;
    BindFromApplied(raws, fields, decode, 0);
  }

  /** The call succeeds exactly when the visit of every field proceeds. */
  lemma SucceedsIffEveryFieldProceeds<R, V, J>(raws: seq<R>, fields: seq<Field<V>>, decode: (R, V) -> Decoded<V, J>)
    ensures BindAll(raws, fields, decode) == Returned(BindAll(raws, fields, decode).fields, None)
        <==> forall j :: 0 <= j < |fields| ==> Proceeds(Visit(raws, j, fields[j], decode))
  {
    BindMatchesReference(raws, fields, decode);
  }

  /** `s` is the first position whose visit ends the call. */
  lemma FirstStopAt<R, V, J>(raws: seq<R>, fields: seq<Field<V>>, decode: (R, V) -> Decoded<V, J>, s: nat)
    requires s < |fields|
    requires forall j :: 0 <= j < s ==> Proceeds(Visit(raws, j, fields[j], decode))
    requires !Proceeds(Visit(raws, s, fields[s], decode))
    ensures FirstStop(raws, fields, decode, 0) == s
  {
  }

  /** A field whose visit is a `continue` is left alone and never ends the call. */
  lemma SkippedFieldUntouched<R, V, J>(raws: seq<R>, fields: seq<Field<V>>, decode: (R, V) -> Decoded<V, J>, j: nat)
    requires j < |fields|
    requires Visit(raws, j, fields[j], decode) == Skip
    ensures BindAll(raws, fields, decode).fields[j] == fields[j]
    ensures FirstStop(raws, fields, decode, 0) != j
  {
    BindMatchesReference(raws, fields, decode);
  }

  // ---------------------------------------------------------------------------
  // The behaviour of the loop body, one source branch at a time.
  // ---------------------------------------------------------------------------

  /** A field without a `json` tag is never written and never causes an error, whatever the array holds. */
  lemma UntaggedFieldIgnored<R, V, J>(raws: seq<R>, fields: seq<Field<V>>, decode: (R, V) -> Decoded<V, J>, j: nat)
    requires j < |fields| && fields[j].tag.None?
    ensures BindAll(raws, fields, decode).fields[j] == fields[j]
    ensures FirstStop(raws, fields, decode, 0) != j
  {
    SkippedFieldUntouched(raws, fields, decode, j);
  }

  /**
   When the first field that does not proceed has an offset token `Atoi`
   rejects, the call returns that parse error; that field and every later one
   are untouched.
   */
  lemma BadOffsetAborts<R, V, J>(raws: seq<R>, fields: seq<Field<V>>, decode: (R, V) -> Decoded<V, J>, s: nat)
    requires s < |fields|
    requires forall j :: 0 <= j < s ==> Proceeds(Visit(raws, j, fields[j], decode))
    requires fields[s].tag.Some? && Offset(fields[s].tag.value).None?
    ensures var o := BindAll(raws, fields, decode);
            && o.Returned?
            && o.err == Some(BadOffset(BeforeComma(fields[s].tag.value)))
            && (forall j :: s <= j < |fields| ==> o.fields[j] == fields[j])
  {
    var step := Visit(raws, s, fields[s], decode);
    assert step == Stop(fields[s].value, BadOffset(BeforeComma(fields[s].tag.value)));
    FirstStopAt(raws, fields, decode, s);
    BindMatchesReference(raws, fields, decode);
    var after := Applied(raws, fields, decode, s + 1);
    assert BindAll(raws, fields, decode) == Returned(after, Some(step.err));
    forall j | s <= j < |fields|
      ensures after[j] == fields[j]
    {
      if j == s {
        assert after[j] == After(fields[s], step);
      }
    }
  }

  /** A field whose offset is at or past the end of the array is left unchanged and causes no error. */
  lemma OffsetBeyondArraySkipped<R, V, J>(raws: seq<R>, fields: seq<Field<V>>, decode: (R, V) -> Decoded<V, J>, j: nat)
    requires j < |fields|
    requires OffsetOf(fields[j]).Some? && OffsetOf(fields[j]).value >= |raws|
    ensures BindAll(raws, fields, decode).fields[j] == fields[j]
    ensures FirstStop(raws, fields, decode, 0) != j
  {
    SkippedFieldUntouched(raws, fields, decode, j);
  }

  /**
   On success, a tagged field whose offset passed the bound check holds the
   decoding of the element at its declaration position `j`, whatever its
   offset says.
   */
  lemma DecodesDeclarationPosition<R, V, J>(raws: seq<R>, fields: seq<Field<V>>, decode: (R, V) -> Decoded<V, J>, j: nat)
    requires j < |fields|
    requires OffsetOf(fields[j]).Some? && OffsetOf(fields[j]).value < |raws|
    requires BindAll(raws, fields, decode).Returned? && BindAll(raws, fields, decode).err.None?
    ensures j < |raws|
    ensures decode(raws[j], fields[j].value).err.None?
    ensures BindAll(raws, fields, decode).fields[j] == fields[j].(value := decode(raws[j], fields[j].value).value)
  {
    BindMatchesReference(raws, fields, decode);
    assert Proceeds(Visit(raws, j, fields[j], decode));
  }

  /**
   The first decode error ends the call with that error: the fields before it
   keep what was decoded into them, the failing field keeps what the decoder
   left, and the later fields are untouched.
   */
  lemma FirstDecodeErrorAborts<R, V, J>(raws: seq<R>, fields: seq<Field<V>>, decode: (R, V) -> Decoded<V, J>, s: nat)
    requires s < |fields| && s < |raws|
    requires forall j :: 0 <= j < s ==> Proceeds(Visit(raws, j, fields[j], decode))
    requires OffsetOf(fields[s]).Some? && OffsetOf(fields[s]).value < |raws|
    requires decode(raws[s], fields[s].value).err.Some?
    ensures var o := BindAll(raws, fields, decode);
            && o.Returned?
            && o.err == Some(DecodeError(decode(raws[s], fields[s].value).err.value))
            && (forall j :: 0 <= j < s ==> o.fields[j] == After(fields[j], Visit(raws, j, fields[j], decode)))
            && o.fields[s] == fields[s].(value := decode(raws[s], fields[s].value).value)
            && (forall j :: s < j < |fields| ==> o.fields[j] == fields[j])
  {
    FirstStopAt(raws, fields, decode, s);
    BindMatchesReference(raws, fields, decode);
  }

  /**
   A field whose offset passes the bound check (a negative offset always
   does) while its own declaration position is past the end of the array makes
   the call panic there, unless an earlier field already ended it.
   */
  lemma PanicsWhenPositionBeyondArray<R, V, J>(raws: seq<R>, fields: seq<Field<V>>, decode: (R, V) -> Decoded<V, J>, s: nat)
    requires s < |fields| && |raws| <= s
    requires forall j :: 0 <= j < s ==> Proceeds(Visit(raws, j, fields[j], decode))
    requires OffsetOf(fields[s]).Some? && OffsetOf(fields[s]).value < |raws|
    ensures var o := BindAll(raws, fields, decode);
            && o.Panicked? && o.index == s
            && (forall j :: s <= j < |fields| ==> o.fields[j] == fields[j])
  {
    FirstStopAt(raws, fields, decode, s);
    BindMatchesReference(raws, fields, decode);
  }

  // ---------------------------------------------------------------------------
  // Which array elements the call can observe.
  // ---------------------------------------------------------------------------

  lemma {:induction false} BindDependsOnVisits<R, V, J>(rawsA: seq<R>, rawsB: seq<R>, fields: seq<Field<V>>, decode: (R, V) -> Decoded<V, J>, i: nat)
    requires i <= |fields|
    requires forall j :: i <= j < |fields| ==> Visit(rawsA, j, fields[j], decode) == Visit(rawsB, j, fields[j], decode)
    ensures Bind(rawsA, fields, i, decode) == Bind(rawsB, fields, i, decode)
    decreases |fields| - i
  {
    if i < |fields| {
      match Visit(rawsA, i, fields[i], decode)
      case Skip =>
        BindDependsOnVisits(rawsA, rawsB, fields, decode, i + 1);
      case Write(v) =>
        var next := fields[i := fields[i].(value := v)];
        assert forall j :: i + 1 <= j < |fields| ==> next[j] == fields[j];
        BindDependsOnVisits(rawsA, rawsB, next, decode, i + 1);
      case Stop(_, _) =>
      case Crash =>
    }
  }

  /**
   Only the array's length and its first `|fields|` elements matter: elements
   at positions at or past the number of fields are never decoded.
   */
  lemma ElementsBeyondFieldsNeverRead<R, V, J>(rawsA: seq<R>, rawsB: seq<R>, fields: seq<Field<V>>, decode: (R, V) -> Decoded<V, J>)
    requires |rawsA| == |rawsB|
    requires forall k :: 0 <= k < |rawsA| && k < |fields| ==> rawsA[k] == rawsB[k]
    ensures BindAll(rawsA, fields, decode) == BindAll(rawsB, fields, decode)
  {
    BindDependsOnVisits(rawsA, rawsB, fields, decode, 0);
  }

  lemma {:induction false} TrailingFrom<R, V, J>(raws: seq<R>, extra: seq<R>, fields: seq<Field<V>>, decode: (R, V) -> Decoded<V, J>, i: nat)
    requires i <= |fields|
    requires forall j :: 0 <= j < |fields| && OffsetOf(fields[j]).Some? ==> OffsetOf(fields[j]).value < |raws|
    requires Bind(raws, fields, i, decode).Returned?
    ensures Bind(raws + extra, fields, i, decode) == Bind(raws, fields, i, decode)
    decreases |fields| - i
  {
    if i < |fields| {
      var step := Visit(raws, i, fields[i], decode);
      assert !step.Crash?;
      if OffsetOf(fields[i]).Some? {
        assert (raws + extra)[i] == raws[i];
      }
      assert Visit(raws + extra, i, fields[i], decode) == step;
      if step.Skip? {
        TrailingFrom(raws, extra, fields, decode, i + 1);
      } else if step.Write? {
        var next := fields[i := fields[i].(value := step.value)];
        assert forall j :: 0 <= j < |fields| ==> OffsetOf(next[j]) == OffsetOf(fields[j]);
        TrailingFrom(raws, extra, next, decode, i + 1);
      }
    }
  }

  /**
   Appending elements to the array changes nothing, provided every readable
   offset lies inside the original array and the call on the original array
   returns rather than panics. Without the first condition a longer array can
   turn a skip into a decode; without the second, a panic into a decode
   (`TrailingElementsCanAvertPanic`).
   */
  lemma TrailingElementsIgnored<R, V, J>(raws: seq<R>, extra: seq<R>, fields: seq<Field<V>>, decode: (R, V) -> Decoded<V, J>)
    requires forall j :: 0 <= j < |fields| && OffsetOf(fields[j]).Some? ==> OffsetOf(fields[j]).value < |raws|
    requires BindAll(raws, fields, decode).Returned?
    ensures BindAll(raws + extra, fields, decode) == BindAll(raws, fields, decode)
  {
    TrailingFrom(raws, extra, fields, decode, 0);
  }

  // ---------------------------------------------------------------------------
  // Inputs on which the code as written departs from its documented intent.
  // ---------------------------------------------------------------------------

  /** A decoder that takes the element itself as the field's new value. */
  function TakeElement(element: int, current: int): Decoded<int, string> {
    Decoded(element, None)
  }

  /**
   Tags `"1"` and `"0"` on the first and second field: the field tagged `"1"`
   receives element 0 and the one tagged `"0"` receives element 1.
   */
  lemma MisboundElementExample()
    ensures BindAll([10, 20], [Field(Some("1"), 0), Field(Some("0"), 0)], TakeElement)
         == Returned([Field(Some("1"), 10), Field(Some("0"), 20)], None)
  {
    AtoiAcceptsExamples();
    assert BeforeComma("1") == "1" + BeforeComma("");
    assert Atoi("1") == Some(1);
    var fields := [Field(Some("1"), 0), Field(Some("0"), 0)];
    assert Visit([10, 20], 0, fields[0], TakeElement) == Write(10);
    var next := fields[0 := Field(Some("1"), 10)];
    assert Bind([10, 20], fields, 0, TakeElement) == Bind([10, 20], next, 1, TakeElement);
    assert Visit([10, 20], 1, next[1], TakeElement) == Write(20);
    var last := next[1 := Field(Some("0"), 20)];
    assert Bind([10, 20], next, 1, TakeElement) == Bind([10, 20], last, 2, TakeElement);
    assert last == [Field(Some("1"), 10), Field(Some("0"), 20)];
  }

  /**
   An untagged field followed by one tagged `"0"`, with a one-element array:
   offset 0 passes the bound check, and `rawMessages[1]` panics.
   */
  lemma OffsetInRangePanicExample()
    ensures BindAll([10], [Field(None, 0), Field(Some("0"), 0)], TakeElement)
         == Panicked([Field(None, 0), Field(Some("0"), 0)], 1)
  {
    AtoiAcceptsExamples();
    assert Offset("0") == Some(0);
  }

  /** A field tagged `"-1"` passes the bound check on an empty array and panics. */
  lemma NegativeOffsetPanicExample()
    ensures BindAll([], [Field(Some("-1"), 0)], TakeElement) == Panicked([Field(Some("-1"), 0)], 0)
  {
    AtoiAcceptsExamples();
    assert BeforeComma("-1") == "-" + BeforeComma("1");
    assert BeforeComma("1") == "1" + BeforeComma("");
    assert Offset("-1") == Some(-1);
  }

  /**
   Why `TrailingElementsIgnored` needs the original call not to panic: an
   untagged field then one tagged `"0"` panics on `[10]`, but on `[10, 20]`
   the second field receives 20 and the call returns nil.
   */
  lemma TrailingElementsCanAvertPanic()
    ensures BindAll([10], [Field(None, 0), Field(Some("0"), 0)], TakeElement).Panicked?
    ensures BindAll([10] + [20], [Field(None, 0), Field(Some("0"), 0)], TakeElement)
         == Returned([Field(None, 0), Field(Some("0"), 20)], None)
  {
    AtoiAcceptsExamples();
    assert Offset("0") == Some(0);
    assert [10] + [20] == [10, 20];
  }
}
