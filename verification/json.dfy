/**
 The shapes under which Go's `encoding/json` enters the model.

 The JSON library itself is not part of this model: its parser and its typed
 decoder are parameters of the operations that use them, with the types
 declared here.
 */
module Json {
  import opened Wrappers

  newtype uint8 = x: int | 0 <= x < 256

  /** Raw input, Go's `[]byte`. */
  type Bytes = seq<uint8>

  /**
   What `json.Unmarshal(data, &target)` leaves behind: the target after the
   call, and the error it returned, if any. On a type mismatch the Go decoder
   keeps going and may leave the target partially written, so a failed decode
   still carries a value.
   */
  datatype Decoded<+T, +J> = Decoded(value: T, err: Option<J>)
}
