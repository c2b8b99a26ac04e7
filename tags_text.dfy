/** The TEXT form in which the MySQL sink stores an entry's tag list
    (`json.Marshal(e.Tags)`): a JSON array of strings, in list order. Only the
    escapes this model needs are written (`"` and `\`); see README. */
module TagsText {
  import opened Wrappers

  function EscapeChar(c: char): string {
    if c == '"' then ['\\', '"'] else if c == '\\' then ['\\', '\\'] else [c]
  }

  function Escape(t: string): string {
    if t == [] then [] else EscapeChar(t[0]) + Escape(t[1..])
  }

  function Quoted(t: string): string {
    ['"'] + Escape(t) + ['"']
  }

  /** The comma-separated quoted elements of a non-empty list. */
  function Items(tags: seq<string>): string
    requires tags != []
  {
    if |tags| == 1 then Quoted(tags[0]) else Quoted(tags[0]) + [','] + Items(tags[1..])
  }

  /** The serialized tag list. */
  function Encode(tags: seq<string>): string {
    if tags == [] then "[]" else ['['] + Items(tags) + [']']
  }

  /** Reads the rest of a string literal up to its closing quote, undoing the escapes. */
  function Unescape(s: string): (r: Option<(string, string)>)
    ensures r.Some? ==> |r.value.1| < |s|
    decreases |s|
  {
    if s == [] then None
    else if s[0] == '"' then Some(([], s[1..]))
    else if s[0] == '\\' then
      if |s| < 2 then None
      else match Unescape(s[2..])
        case None => None
        case Some(p) => Some(([s[1]] + p.0, p.1))
    else match Unescape(s[1..])
      case None => None
      case Some(p) => Some(([s[0]] + p.0, p.1))
  }

  /** Reads quoted elements separated by commas, up to the closing bracket. */
  function DecodeItems(s: string): Option<seq<string>>
    decreases |s|
  {
    if s == [] || s[0] != '"' then None
    else match Unescape(s[1..])
      case None => None
      case Some(p) =>
        if p.1 == "]" then Some([p.0])
        else if p.1 != [] && p.1[0] == ',' then
          match DecodeItems(p.1[1..])
          case None => None
          case Some(rest) => Some([p.0] + rest)
        else None
  }

  function Decode(s: string): Option<seq<string>> {
    if s == "[]" then Some([])
    else if s != [] && s[0] == '[' then DecodeItems(s[1..])
    else None
  }

  lemma {:induction false} UnescapeEscape(t: string, rest: string)
    ensures Unescape(Escape(t) + ['"'] + rest) == Some((t, rest))
  {
    if t == [] {
      assert Escape(t) + ['"'] + rest == ['"'] + rest;
    } else {
      var s := Escape(t) + ['"'] + rest;
      var tail := Escape(t[1..]) + ['"'] + rest;
      assert s == EscapeChar(t[0]) + tail;
      UnescapeEscape(t[1..], rest);
      if t[0] == '"' || t[0] == '\\' {
        assert s[2..] == tail;
      } else {
        assert s[1..] == tail;
      }
      assert [t[0]] + t[1..] == t;
    }
  }

  lemma {:induction false} DecodeItemsOfItems(tags: seq<string>)
    requires tags != []
    ensures DecodeItems(Items(tags) + [']']) == Some(tags)
  {
    var s := Items(tags) + [']'];
    if |tags| == 1 {
      assert s == ['"'] + (Escape(tags[0]) + ['"'] + [']']);
      UnescapeEscape(tags[0], [']']);
      assert s[1..] == Escape(tags[0]) + ['"'] + [']'];
      assert [tags[0]] == tags;
    } else {
      var after := [','] + Items(tags[1..]) + [']'];
      assert s == ['"'] + (Escape(tags[0]) + ['"'] + after);
      assert s[1..] == Escape(tags[0]) + ['"'] + after;
      UnescapeEscape(tags[0], after);
      assert after[1..] == Items(tags[1..]) + [']'];
      DecodeItemsOfItems(tags[1..]);
      assert [tags[0]] + tags[1..] == tags;
    }
  }

  /** The stored text determines the tag list, order included. */
  lemma DecodeEncode(tags: seq<string>)
    ensures Decode(Encode(tags)) == Some(tags)
  {
    if tags != [] {
      var s := Encode(tags);
      assert s[1..] == Items(tags) + [']'];
      DecodeItemsOfItems(tags);
      var q := Quoted(tags[0]);
      assert s[1] == q[0] == '"';
    }
  }

  /** Equal texts come only from equal lists, and a list always yields the same text. */
  lemma EncodeInjective(a: seq<string>, b: seq<string>)
    ensures Encode(a) == Encode(b) <==> a == b
  {
    if Encode(a) == Encode(b) {
      DecodeEncode(a);
      DecodeEncode(b);
    }
  }
}
