# disarray, modelled in Dafny

The `disarray` library binds the elements of a top-level JSON array to the
fields of a Go struct. It has two variants:

- `disarray.UnmarshalAsObject` (reflection driven). It parses the input as an
  array of raw elements. Then it walks the struct's fields in declaration
  order. For each field it reads the `json` tag, takes the text before the
  first comma, and parses it with `strconv.Atoi` as an offset. If the offset is
  below the array length, it decodes an element into the field. The first
  error is returned at once, and nothing is rolled back.
- `noarray.UnmarshalAsObject` (bounded). It parses the input as an array and
  rejects arrays longer than ten elements with `ErrArrayTooLong`. It renames
  position `i` to the key `Offsets[i]` (`"offset_zero"` … `"offset_nine"`),
  marshals the resulting object and decodes it into the target.

The model is functional. A struct is a sequence of `Field`s, each with its
`json` tag (`Option<string>`) and its value. Go's `encoding/json` is not part of
this model. Its parser, its typed decoder and its marshaller are function
parameters:

- `parse: Bytes -> Result<seq<R>, J>`
- `decode: (R, V) -> Decoded<V, J>`
- `marshal: map<string, E> -> Result<Bytes, J>`

A `Decoded` value is the target after the call together with the error, if any.
Go's decoder can leave a target partly written on a type error, so a failed
decode still carries a value.

Files:

- `wrappers.dfy`: `Option` and `Result`.
- `json.dfy`: the shapes of the JSON primitives.
- `strings.dfy`: `strings.SplitN(tag, ",", 2)[0]`.
- `strconv.dfy`: `strconv.Atoi` on 64-bit `int`, with `strconv.Itoa` as its inverse.
- `disarray.dfy`: `disarray.UnmarshalAsObject` as written. This includes its
  panic, and a declarative reference semantics proved equal to the loop.
- `disarray_corrected.dfy`: the field loop as documented, with a round-trip
  proof. It also shows that the code as written agrees with it when tags equal
  field positions.
- `noarray.dfy`: `Offsets`, `ErrArrayTooLong` and `noarray.UnmarshalAsObject`.

### As written versus as documented

The doc comment (disarray.go:17-23) tags each field with its own position, and
so do the positional test fixtures (disarray_test.go:10-14, 83-89). There the
tag names the array element the field receives. The guard at
disarray.go:53-56 is commented as preventing an index out of range, so a
field whose element does not exist is meant to be skipped. The code does
something different:

- It checks the parsed offset against the array length (disarray.go:53).
- It then decodes `rawMessages[i]`, the field's declaration position
  (disarray.go:59).
- `Atoi` accepts negative offsets, and they pass the check.

`Disarray` follows the code. When the offset passes the check but `i` is past
the end of the array, the outcome is `Panicked`. `DisarrayCorrected` holds the
repaired loop (see Findings).

## Model

| member | source | states |
|---|---|---|
| `Strings.BeforeComma` | disarray.go:46 | The offset token is a prefix of the tag with no comma in it. It ends at the tag's first comma, or at the end of the tag when there is none. |
| `Strings.BeforeCommaExamples` | disarray.go:46 | `"12,omitempty"` gives `"12"`, `",string"` gives the empty token, and a tag without a comma is kept whole. |
| `Strconv.Atoi` | disarray.go:48-51 | An accepted token is one optional sign followed by at least one ASCII digit. Its value lies in the 64-bit `int` range and is negative only when the token starts with `-`. |
| `Strconv.AtoiAcceptsDecimalTokens` | disarray.go:48-51 | Conversely, every optionally signed run of digits whose value fits in 64 bits is accepted, with that value. |
| `Strconv.AtoiFormatInt` | disarray.go:49 | For every 64-bit integer `n`, `Atoi(Itoa(n)) == n`. |
| `Strconv.AtoiAcceptsExamples` | disarray_test.go:10-14 | The tags `"0"`, `"+7"`, `"-1"` and `"007"` parse to 0, 7, -1 and 7. |
| `Strconv.AtoiRejectsExamples` | disarray_test.go:143-155 | `""`, `"-"`, `"1.0"` and `"noNumberHere"` are rejected. |
| `Disarray.Bind` | disarray.go:40-62 | The field loop, with `Disarray.Visit` as its body (disarray.go:41-61). The loop keeps the number of fields and every tag. It never revisits a field. A field that changes holds the decoding of the element at its own declaration position `j`, with `j` inside the array. A panic happens only at a position past the array's end. The loop never reports a parse error. |
| `Disarray.UnmarshalAsObject` | disarray.go:30-64 | A parse failure is returned as `ParseError` with every field untouched, and a `ParseError` is returned only then. The result keeps the number of fields and every tag. |
| `Disarray.BindMatchesReference` | disarray.go:40-62 | The loop equals a declarative semantics on every input: find the first field whose visit does not proceed; apply each earlier field's visit; that field's step decides the error or the panic; later fields are untouched. |
| `Disarray.SucceedsIffEveryFieldProceeds` | disarray.go:40-63 | The call returns nil exactly when every field's visit is a skip or a successful decode. |
| `Disarray.SkippedFieldUntouched` | disarray.go:41-56 | A field whose visit is a `continue` keeps its value and is never where the call stops. |
| `Disarray.UntaggedFieldIgnored` | disarray.go:41-44 | A field with no `json` tag is never written and never causes an error, for every array. |
| `Disarray.BadOffsetAborts` | disarray.go:46-51 | At the first stopping field, an offset token `Atoi` rejects ends the call with that token's error. That field and all later ones are untouched. |
| `Disarray.OffsetBeyondArraySkipped` | disarray.go:53-56 | A field whose offset is at or past the array's length keeps its value and causes no error. |
| `Disarray.DecodesDeclarationPosition` | disarray.go:58-59 | On success, a field whose offset passed the bound check holds the decoding of element `j`, its declaration position, whatever its offset is. |
| `Disarray.FirstDecodeErrorAborts` | disarray.go:58-61 | The first decode error is the call's error. Earlier fields keep their new values, the failing field keeps what the decoder left, and later fields are untouched. |
| `Disarray.PanicsWhenPositionBeyondArray` | disarray.go:53-59 | If a field's offset passes the check (a negative offset always does) but its position is past the array's end, the call panics at that field. That field and all later ones are untouched. |
| `Disarray.ElementsBeyondFieldsNeverRead` | disarray.go:40-59 | Two arrays of equal length that agree on their first `|fields|` elements give the same outcome. |
| `Disarray.TrailingFrom` | disarray.go:40-59 | From any position on, appending elements leaves the rest of the loop unchanged, as long as every readable offset is inside the original array and the loop on that array returns from there. |
| `Disarray.TrailingElementsIgnored` | disarray.go:40-59 | Appending elements changes nothing, provided every readable offset lies inside the original array and the call on the original array returns rather than panics. |
| `Disarray.TrailingElementsCanAvertPanic` | disarray.go:53-59 | The no-panic condition is needed: an untagged field then one tagged `"0"` panics on `[10]`, but on `[10, 20]` the second field receives 20 and the call returns nil. |
| `Disarray.MisboundElementExample` | disarray.go:53-59 | With tags `"1"` then `"0"` and the array `[10, 20]`, the field tagged `"1"` receives 10 and the field tagged `"0"` receives 20. |
| `Disarray.OffsetInRangePanicExample` | disarray.go:53-59 | An untagged field followed by a field tagged `"0"`, with a one-element array, panics at position 1. |
| `Disarray.NegativeOffsetPanicExample` | disarray.go:49-59 | A field tagged `"-1"` with an empty array panics at position 0. |
| `DisarrayCorrected.BindAtOffset` | disarray.go:40-62 | The repaired loop never panics and keeps the number of fields and every tag. A field that changes holds the decoding of the element at its declared offset `k`, with `0 <= k < len`. |
| `DisarrayCorrected.UnmarshalAtOffset` | disarray.go:30-64 | The repaired call never panics. Its parse failure is the same as the original's; otherwise it runs the repaired loop. |
| `DisarrayCorrected.MisboundElementCorrected` | disarray.go:53-59 | With tags `"1"` then `"0"` and the array `[10, 20]`, the repaired loop gives the fields 20 and 10. |
| `DisarrayCorrected.AsWrittenAgreesOnPositionalTags` | disarray.go:17-23 | When every readable tag equals its field's position, as documented, the code as written and the repaired loop give the same outcome on every array. |
| `DisarrayCorrected.RoundTrip` | disarray.go:53-61 | Take tagged fields with distinct non-negative offsets and a decoder that inverts the encoder. Encoding the struct as an array at those offsets (gaps filled) and binding it back returns nil. Every tagged value is restored, and untagged fields keep the target's values. |
| `DisarrayCorrected.RoundTripPositional` | disarray.go:17-23 | The same round trip holds for the code as written, for structs tagged by position. |
| `Noarray.OffsetsDistinct` | noarray.go:9-20 | The offset table has exactly ten keys, and no two positions share one. |
| `Noarray.PositionalObjectShape` | noarray.go:48-52 | For an array of `n <= 10` elements, key `Offsets[i]` holds element `i` for every `i < n`. The keys `Offsets[n..9]` are absent, and there are no other keys. |
| `Noarray.BuildObject` | noarray.go:48-52 | Within the length bound the loop builds exactly that positional object. It has one entry per element, so no insertion overwrites another. |
| `Noarray.UnmarshalAsObject` | noarray.go:36-60 | A parse failure is returned first, with the target untouched. `ErrArrayTooLong` is returned exactly when the parsed array has more than ten elements, and then the target is untouched. Otherwise a marshal error of the positional object is returned, or the final decode's target and error are passed through unchanged. |

## Left out

- `encoding/json`: parsing into `[]json.RawMessage` or `[]interface{}`, typed decoding (including the nested slice-of-struct and map-of-struct cases), and `json.Marshal`. These are a foreign library. They appear only as the `parse`, `decode`, `marshal` and `unmarshal` parameters. Elements are opaque, so `float64` values and their round trip through the marshaller are not modelled. Neither is the library going on after a type mismatch in noarray's final decode.
- Reflection: `reflect.Indirect`, `NumField`, tag lookup and `Addr().Interface()`. A struct is a sequence of fields with the `json` tag already looked up. The panics that reflection raises are not modelled: a non-struct target, or a tagged unexported field.
- Strconv.Atoi: does not distinguish Go's syntax error from its range error. Both are "rejected". For an overlong token with a bad character, Go can report either one.
- Noarray.PositionalObjectShape: states only that the keys for positions past a short array are absent. The claim that target fields declared with those keys then keep their defaults depends on the JSON library's decode, which is not modelled.
- Error texts: errors are compared by kind (`ParseError`, `BadOffset`, `DecodeError`, `JsonError`, `ArrayTooLong`), not by message.
- Idempotence of a call on a fresh target is not stated as a lemma, because every operation here is a pure function of its inputs.
- A panic's message and the runtime's unwinding: `Panicked` records only the position and the struct as left behind.
- `example/main.go`: a demo that prints and panics.

## Findings

| source | as written | input that shows it | evidently intended | confidence | as-written member | corrected member |
|---|---|---|---|---|---|---|
| disarray.go:53-59 | The bound check uses the tag's offset, but the decode reads `rawMessages[i]`, the field's declaration position. | Fields `A` tagged `"1"` and `B` tagged `"0"`, input `[10,20]`: `A` gets 10 and `B` gets 20. | Each field receives the element at its tag's offset: `A` gets 20, `B` gets 10. | high; not executed | `Disarray.MisboundElementExample` | `DisarrayCorrected.RoundTrip` |
| disarray.go:53-59 | The guard is commented "prevent index out of range", but it does not bound `i`, the index actually used. | An untagged field `X` then `Y` tagged `"0"`, input `[10]`: index out of range panic at `rawMessages[1]`. | `Y` receives element 0 and the call returns nil. | high; not executed | `Disarray.OffsetInRangePanicExample` | `DisarrayCorrected.BindAtOffset` |
| disarray.go:49-56 | `Atoi` accepts a negative offset, and `sliceIndex >= len` never rejects it. | One field tagged `"-1"`, input `[]`: index out of range panic. | The guard is commented "prevent index out of range" (disarray.go:54), so an offset outside the array, negative or too large, is skipped and the call returns nil. | medium; not executed | `Disarray.NegativeOffsetPanicExample` | `DisarrayCorrected.BindAtOffset` |
