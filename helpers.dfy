/**
 * The `tag` helper. src/modules/helpers.py, src/modules/torrents.py and app.py
 * each carry a textually identical copy; this is the one definition they share.
 */
module Helpers {
  import opened Common

  /** Python truthiness of a string-or-None argument. */
  predicate Truthy(v: Option<string>) {
    v.Some? && v.value != ""
  }

  /** `tag(value)`: the annotation " (value)" for a truthy value, otherwise None. */
  function Tag(value: Option<string>): (r: Option<string>)
    ensures r.Some? <==> Truthy(value)
    ensures r.Some? ==>
      |r.value| == |value.value| + 3 &&
      r.value[..2] == " (" && r.value[|r.value| - 1] == ')' &&
      r.value[2..|r.value| - 1] == value.value
  {
    if Truthy(value) then Some(" (" + value.value + ")") else None
  }

  /** What an f-string `f'{x}'` renders for a string-or-None `x`. */
  function Format(x: Option<string>): string {
    if x.Some? then x.value else "None"
  }

  /** The two annotations the rename pipeline inserts. */
  lemma TagConstants()
    ensures Format(Tag(Some("GOG"))) == " (GOG)"
    ensures Format(Tag(Some("Windows"))) == " (Windows)"
  {
  }

  /** A non-empty value is wrapped as " (value)", which the value can be read back from. */
  lemma TagRoundTrip(v: string)
    requires v != ""
    ensures Tag(Some(v)) == Some(" (" + v + ")")
    ensures var t := Tag(Some(v)).value; t[2..|t| - 1] == v
  {
  }

  /** Empty string and None both give no annotation. */
  lemma TagFalsy()
    ensures Tag(Some("")) == None && Tag(None) == None
  {
  }
}
