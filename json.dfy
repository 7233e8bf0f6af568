/** The parsed JSON the firmware's decoders look at. Each decoder sees an
    object only through the members it asks for by key, so an object is
    modelled as a record with one `Field` per key of interest: what the
    first member with that key holds, or `Missing` when there is none (a
    lookup on something that is not an object finds nothing either). */
module JsonValue {
  import opened Common

  datatype Field =
    | Missing
    | JNull
    | JBool(b: bool)
    | JNumber(n: Number)
    | JString(s: string)
    | JArray
    | JObject

  /** The text handed to a decoder: a null pointer, text `cJSON_Parse`
      rejects, or a parsed document. */
  datatype Text<T> = NullText | Malformed | Parsed(root: T)

  /** An object being built for printing: its members in insertion order. */
  type Members = seq<(string, Field)>

  /** What a decoder looking up `key` in the printed object finds: the
      first member with that key, or Missing. */
  function FieldOf(members: Members, key: string): (f: Field)
    ensures f != Missing ==> exists i :: 0 <= i < |members| && members[i] == (key, f)
    ensures (forall i :: 0 <= i < |members| ==> members[i].0 != key) ==> f == Missing
  {
    if |members| == 0 then Missing
    else if members[0].0 == key then members[0].1
    else
      var f := FieldOf(members[1..], key);
      if f != Missing then
        ghost var i :| 0 <= i < |members[1..]| && members[1..][i] == (key, f);
        assert members[i + 1] == (key, f);
        f
      else
        assert forall i :: 1 <= i < |members| ==> members[i] == members[1..][i - 1];
        f
  }

  /** The output rule every encoder shares: a null record, a null buffer or
      a zero length fail first; then the printed text (None when building or
      printing the tree failed) is copied out with its terminator only when
      `strlen + 1 <= outLen`. */
  function CopyPrinted(sourcePresent: bool, bufferPresent: bool, outLen: nat, printed: Option<string>): (r: Option<string>)
    ensures r.Some? <==> sourcePresent && bufferPresent && outLen > 0 && printed.Some? && |printed.value| + 1 <= outLen
    ensures r.Some? ==> r.value == printed.value && |r.value| < outLen
  {
    if !sourcePresent || !bufferPresent || outLen == 0 then None
    else if printed.None? then None
    else if |printed.value| + 1 > outLen then None
    else printed
  }
}
