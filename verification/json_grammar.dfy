/** The part of the JSON grammar of RFC 8259 that the framers are responsible
    for: the structural tokens of section 2 (each a character with optional
    whitespace on both sides), arrays (section 5) and objects (section 4).
    Item texts, keys and values are whatever the serialisers produced and are
    taken as given. */
module JsonGrammar {
  import opened Framing

  /** Insignificant whitespace: space, horizontal tab, line feed, carriage return. */
  predicate IsWs(c: char)
  {
    c == ' ' || c == '\t' || c == '\n' || c == '\r'
  }

  predicate Ws(s: string)
  {
    forall i | 0 <= i < |s| :: IsWs(s[i])
  }

  /** `tok` is the structural character `c` with whitespace on either side. */
  predicate Structural(tok: string, c: char)
  {
    exists k | 0 <= k < |tok| :: tok[k] == c && Ws(tok[..k]) && Ws(tok[k + 1..])
  }

  /** The text of `items` with `glue[i]` in front of item `i` and the last glue
      piece after the last item. */
  function Weave(glue: seq<string>, items: seq<string>): string
    requires |glue| == |items| + 1
  {
    if items == [] then glue[0] else glue[0] + items[0] + Weave(glue[1..], items[1..])
  }

  /** The glue of a bracketed, comma-separated list: the begin token before the
      first item, a value separator between two items, the end token after the
      last; with no items the one piece is a begin token followed by an end
      token. */
  predicate ListGlue(glue: seq<string>, items: seq<string>, open: char, close: char)
    requires |glue| == |items| + 1
  {
    if items == [] then
      exists k | 0 <= k <= |glue[0]| :: Structural(glue[0][..k], open) && Structural(glue[0][k..], close)
    else
      && Structural(glue[0], open)
      && (forall i | 0 < i < |items| :: Structural(glue[i], ','))
      && Structural(glue[|items|], close)
  }

  /** `text` is `items` between `open` and `close`, separated by commas. */
  ghost predicate IsListOf(text: string, items: seq<string>, open: char, close: char)
  {
    exists glue: seq<string> :: |glue| == |items| + 1 && ListGlue(glue, items, open, close) && Weave(glue, items) == text
  }

  /** `text` is a JSON array whose elements have the texts `values`. */
  ghost predicate IsArrayOf(text: string, values: seq<string>)
  {
    IsListOf(text, values, '[', ']')
  }

  /** `m` is a JSON object member: the name text, a name separator, the value text. */
  predicate IsMember(m: string, name: string, value: string)
  {
    && |name| + |value| <= |m|
    && m[..|name|] == name
    && m[|m| - |value|..] == value
    && Structural(m[|name|..|m| - |value|], ':')
  }

  /** `text` is a JSON object whose members have the name and value texts `pairs`. */
  ghost predicate IsObjectOf(text: string, pairs: seq<(string, string)>)
  {
    exists members: seq<string> ::
      && |members| == |pairs|
      && (forall i | 0 <= i < |pairs| :: IsMember(members[i], pairs[i].0, pairs[i].1))
      && IsListOf(text, members, '{', '}')
  }

  /** `m` copies of `s`. */
  function Repeat(s: string, m: nat): (r: seq<string>)
    ensures |r| == m
    ensures forall i | 0 <= i < m :: r[i] == s
  {
    if m == 0 then [] else [s] + Repeat(s, m - 1)
  }

  /** Gluing a non-empty list with `pre` in front, `sep` between and `post`
      after spells `pre` + the items joined by `sep` + `post`. */
  lemma {:induction false} WeaveJoin(pre: string, sep: string, post: string, items: seq<string>)
    requires items != []
    ensures Weave([pre] + Repeat(sep, |items| - 1) + [post], items) == pre + Join(items, sep) + post
    decreases |items|
  {
    var glue := [pre] + Repeat(sep, |items| - 1) + [post];
    if |items| == 1 {
      assert glue[1..] == [post];
    } else {
      var tail := [sep] + Repeat(sep, |items| - 2) + [post];
      assert glue[1..] == tail;
      WeaveJoin(sep, sep, post, items[1..]);
      assert Weave(glue, items) == pre + items[0] + (sep + Join(items[1..], sep) + post);
    }
  }

  /** Whitespace on both sides of a structural character. */
  lemma StructuralAt(tok: string, k: nat, c: char)
    requires k < |tok| && tok[k] == c
    requires forall i | 0 <= i < |tok| && i != k :: IsWs(tok[i])
    ensures Structural(tok, c)
  {
    var before, after := tok[..k], tok[k + 1..];
    assert forall i | 0 <= i < |after| :: after[i] == tok[k + 1 + i];
    assert Ws(before) && Ws(after);
  }

  /** The framers' own separator is a JSON value separator. */
  lemma SeparatorIsValueSeparator()
    ensures Structural(Separator, ',')
  {
    StructuralAt(Separator, 0, ',');
  }

  /** A name, a name separator and a value make a member. */
  lemma NameSeparatorMember(name: string, ns: string, value: string)
    requires Structural(ns, ':')
    ensures IsMember(name + ns + value, name, value)
  {
    var m := name + ns + value;
    assert m[..|name|] == name;
    assert m[|m| - |value|..] == value;
    assert m[|name|..|m| - |value|] == ns;
  }

  /** With structural begin, separator and end tokens, a framed join is a list
      of exactly the joined items. */
  lemma FramedJoinIsList(open: string, sep: string, close: string, items: seq<string>, o: char, c: char)
    requires Structural(open, o) && Structural(sep, ',') && Structural(close, c)
    ensures IsListOf(open + Join(items, sep) + close, items, o, c)
  {
    if items == [] {
      EmptyList(open, sep, close, o, c);
    } else {
      NonEmptyList(open, sep, close, items, o, c);
    }
  }

  /** A begin token, items separated by value separators and an end token are
      a list of those items. */
  lemma NonEmptyList(open: string, sep: string, close: string, items: seq<string>, o: char, c: char)
    requires items != []
    requires Structural(open, o) && Structural(sep, ',') && Structural(close, c)
    ensures IsListOf(open + Join(items, sep) + close, items, o, c)
  {
    var glue := [open] + Repeat(sep, |items| - 1) + [close];
    WeaveJoin(open, sep, close, items);
    assert ListGlue(glue, items, o, c);
  }

  /** A begin token followed by an end token is the empty list. */
  lemma EmptyList(open: string, sep: string, close: string, o: char, c: char)
    requires Structural(open, o) && Structural(close, c)
    ensures IsListOf(open + Join([], sep) + close, [], o, c)
  {
    var glue := [open + close];
    assert glue[0][..|open|] == open && glue[0][|open|..] == close;
    assert ListGlue(glue, [], o, c);
    assert Weave(glue, []) == open + Join([], sep) + close;
  }
}
