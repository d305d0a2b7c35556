/** What the two JSON framers produce, read against the grammar of RFC 8259: a
    clean array run is a JSON array (section 5) of the serialised items, a
    clean object run a JSON object (section 4) of the serialised entries. */
module JsonShape {
  import opened Streams
  import opened StreamError
  import opened Framing
  import opened JsonGrammar
  import JsonArray
  import JsonMap

  /** The framers' tokens are structural: a bracket, a brace or the colon of
      `": "` with only whitespace around it. */
  lemma TokensAreStructural()
    ensures Structural(JsonArray.Open, '[') && Structural(JsonArray.Close, ']')
    ensures Structural(JsonMap.Open, '{') && Structural(JsonMap.Close, '}')
    ensures Structural(": ", ':')
  {
    StructuralAt(JsonArray.Open, 0, '[');
    StructuralAt(JsonArray.Close, 1, ']');
    StructuralAt(JsonMap.Open, 0, '{');
    StructuralAt(JsonMap.Close, 1, '}');
    StructuralAt(": ", 0, ':');
  }

  /** The opening token, the items joined by the separator and the closing
      token spell a JSON array of exactly those items. */
  lemma FramedIsArray(strs: seq<string>)
    ensures IsArrayOf(JsonArray.Open + Join(strs, Separator) + JsonArray.Close, strs)
  {
    TokensAreStructural();
    SeparatorIsValueSeparator();
    FramedJoinIsList(JsonArray.Open, Separator, JsonArray.Close, strs, '[', ']');
  }

  /** A clean run spells a JSON array whose elements are exactly the
      serialised items, in order. */
  lemma CleanRunIsArray<T, E>(items: seq<T>, ser: T -> Result<string, Failure>, k: nat)
    requires forall i | 0 <= i < |items| :: ser(items[i]).Ok?
    ensures IsArrayOf(OkText(JsonArray.ArrayRun(JsonArray.ItemAnswers<T, E>(items), ser, |items| + 2 + k)),
                      JsonArray.Serialized(items, ser))
  {
    CleanArrayText<T, E>(items, ser, k);
    FramedIsArray(JsonArray.Serialized(items, ser));
  }

  lemma CleanArrayText<T, E>(items: seq<T>, ser: T -> Result<string, Failure>, k: nat)
    requires forall i | 0 <= i < |items| :: ser(items[i]).Ok?
    ensures OkText(JsonArray.ArrayRun(JsonArray.ItemAnswers<T, E>(items), ser, |items| + 2 + k))
         == JsonArray.Open + Join(JsonArray.Serialized(items, ser), Separator) + JsonArray.Close
  {
    JsonArray.ArrayCleanRun<T, E>(items, ser, k);
  }

  /** The serialised key and value texts of `entries`, all of which serialise. */
  function Pairs<T>(entries: seq<(string, T)>,
                    serKey: string -> Result<string, Failure>,
                    serValue: T -> Result<string, Failure>): (r: seq<(string, string)>)
    requires forall i | 0 <= i < |entries| :: serKey(entries[i].0).Ok? && serValue(entries[i].1).Ok?
    ensures |r| == |entries|
    ensures forall i | 0 <= i < |entries| :: r[i] == (serKey(entries[i].0).value, serValue(entries[i].1).value)
  {
    if entries == [] then []
    else [(serKey(entries[0].0).value, serValue(entries[0].1).value)] + Pairs(entries[1..], serKey, serValue)
  }

  /** Member texts made of a name, `": "` and a value are members. */
  lemma MembersAreMembers(members: seq<string>, pairs: seq<(string, string)>)
    requires |members| == |pairs|
    requires forall i | 0 <= i < |pairs| :: members[i] == pairs[i].0 + ": " + pairs[i].1
    ensures forall i | 0 <= i < |pairs| :: IsMember(members[i], pairs[i].0, pairs[i].1)
  {
    TokensAreStructural();
    forall i | 0 <= i < |pairs| ensures IsMember(members[i], pairs[i].0, pairs[i].1) {
      NameSeparatorMember(pairs[i].0, ": ", pairs[i].1);
    }
  }

  /** The opening token, the member texts joined by the separator and the
      closing token spell a JSON object of the given names and values, when
      each member text is a name, `": "` and a value. */
  lemma FramedIsObject(members: seq<string>, pairs: seq<(string, string)>)
    requires |members| == |pairs|
    requires forall i | 0 <= i < |pairs| :: members[i] == pairs[i].0 + ": " + pairs[i].1
    ensures IsObjectOf(JsonMap.Open + Join(members, Separator) + JsonMap.Close, pairs)
  {
    MembersAreMembers(members, pairs);
    TokensAreStructural();
    SeparatorIsValueSeparator();
    FramedJoinIsList(JsonMap.Open, Separator, JsonMap.Close, members, '{', '}');
  }

  /** A clean run spells a JSON object whose members are exactly the
      serialised entries, in order. */
  lemma CleanRunIsObject<T, E>(entries: seq<(string, T)>,
                               serKey: string -> Result<string, Failure>,
                               serValue: T -> Result<string, Failure>, k: nat)
    requires forall i | 0 <= i < |entries| :: serKey(entries[i].0).Ok? && serValue(entries[i].1).Ok?
    ensures IsObjectOf(OkText(JsonMap.MapRun(JsonMap.EntryAnswers<T, E>(entries), serKey, serValue, |entries| + 2 + k)),
                       Pairs(entries, serKey, serValue))
  {
    CleanObjectText<T, E>(entries, serKey, serValue, k);
    FramedIsObject(JsonMap.Members(entries, serKey, serValue), Pairs(entries, serKey, serValue));
  }

  lemma CleanObjectText<T, E>(entries: seq<(string, T)>,
                              serKey: string -> Result<string, Failure>,
                              serValue: T -> Result<string, Failure>, k: nat)
    requires forall i | 0 <= i < |entries| :: serKey(entries[i].0).Ok? && serValue(entries[i].1).Ok?
    ensures OkText(JsonMap.MapRun(JsonMap.EntryAnswers<T, E>(entries), serKey, serValue, |entries| + 2 + k))
         == JsonMap.Open + Join(JsonMap.Members(entries, serKey, serValue), Separator) + JsonMap.Close
  {
    JsonMap.MapCleanRun<T, E>(entries, serKey, serValue, k);
  }
}
