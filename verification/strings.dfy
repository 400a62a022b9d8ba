/** The part of Go's `strings` package that the tag handling uses. */
module Strings {

  /**
   `strings.SplitN(tag, ",", 2)[0]`: the text of `tag` before its first comma,
   or all of `tag` when it has none.
   */
  function BeforeComma(tag: string): (token: string)
    ensures |token| <= |tag| && token == tag[..|token|]
    ensures ',' !in token
    ensures |token| == |tag| || tag[|token|] == ','
    decreases |tag|
  {
    if |tag| == 0 || tag[0] == ',' then ""
    else [tag[0]] + BeforeComma(tag[1..])
  }

  /** Tags written in the usual `name,options` form keep only their name. */
  lemma BeforeCommaExamples()
    ensures BeforeComma("0") == "0"
    ensures BeforeComma("12,omitempty") == "12"
    ensures BeforeComma(",string") == ""
    ensures BeforeComma("") == ""
  {
    assert BeforeComma("12,omitempty") == "1" + BeforeComma("2,omitempty");
  }
}
