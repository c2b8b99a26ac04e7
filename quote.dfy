/** Go's `strconv.Quote`, which `%q` and the text of a `*strconv.NumError` use for a
    string: a double-quoted literal in which `"` and `\`, the seven named control
    characters and every other ASCII control character are written as escapes. */
module Quoting {
  import opened Wrappers

  /** A lower-case hexadecimal digit. */
  function HexDigit(n: nat): (c: char)
    requires n < 16
    ensures '0' <= c <= '9' || 'a' <= c <= 'f'
  {
    "0123456789abcdef"[n]
  }

  /** The value of a hexadecimal digit, either case, if it is one. */
  function HexValue(c: char): (r: Option<nat>)
    ensures r.Some? ==> r.value < 16
  {
    if '0' <= c <= '9' then Some(c as int - '0' as int)
    else if 'a' <= c <= 'f' then Some(c as int - 'a' as int + 10)
    else if 'A' <= c <= 'F' then Some(c as int - 'A' as int + 10)
    else None
  }

  /** An ASCII control character: below the space, or DEL. */
  predicate IsControl(c: char) {
    c < ' ' || c == '\U{7F}'
  }

  /** The characters written as a backslash and one letter, with their letters. */
  const NamedEscapes: map<char, char> := map[
    '"' := '"', '\\' := '\\', '\U{7}' := 'a', '\U{8}' := 'b', '\U{C}' := 'f',
    '\n' := 'n', '\r' := 'r', '\t' := 't', '\U{B}' := 'v']

  /** How one character appears between the quotes. */
  function QuoteChar(c: char): string {
    if c in NamedEscapes then ['\\', NamedEscapes[c]]
    else if IsControl(c) then ['\\', 'x', HexDigit(c as int / 16), HexDigit(c as int % 16)]
    else [c]
  }

  function QuoteBody(s: string): string
    decreases |s|
  {
    if s == [] then [] else QuoteChar(s[0]) + QuoteBody(s[1..])
  }

  /** `strconv.Quote(s)`. */
  function Quote(s: string): string {
    "\"" + QuoteBody(s) + "\""
  }

  function Cons(c: char, o: Option<string>): Option<string> {
    match o
    case None => None
    case Some(t) => Some([c] + t)
  }

  /** The character a single-letter escape stands for. */
  function SimpleEscape(e: char): Option<char> {
    if e == '"' then Some('"')
    else if e == '\\' then Some('\\')
    else if e == 'a' then Some('\U{7}')
    else if e == 'b' then Some('\U{8}')
    else if e == 'f' then Some('\U{C}')
    else if e == 'n' then Some('\n')
    else if e == 'r' then Some('\r')
    else if e == 't' then Some('\t')
    else if e == 'v' then Some('\U{B}')
    else None
  }

  /** Reading the text between the quotes back: the inverse of `QuoteBody`, for the
      escapes it writes. A bare `"` or an unknown escape is rejected. */
  function UnquoteBody(s: string): Option<string>
    decreases |s|
  {
    if s == [] then Some([])
    else if s[0] == '"' then None
    else if s[0] != '\\' then Cons(s[0], UnquoteBody(s[1..]))
    else if |s| < 2 then None
    else if s[1] == 'x' then
      if |s| < 4 then None
      else match (HexValue(s[2]), HexValue(s[3]))
        case (Some(h), Some(l)) => Cons((h * 16 + l) as char, UnquoteBody(s[4..]))
        case _ => None
    else match SimpleEscape(s[1])
      case Some(c) => Cons(c, UnquoteBody(s[2..]))
      case None => None
  }

  /** `strconv.Unquote` restricted to those escapes. */
  function Unquote(s: string): (r: Option<string>)
    ensures r.Some? ==> |s| >= 2 && s[0] == '"' && s[|s| - 1] == '"'
  {
    if |s| >= 2 && s[0] == '"' && s[|s| - 1] == '"' then UnquoteBody(s[1..|s| - 1]) else None
  }

  /** Each one-letter escape reads back as the character it stands for. */
  lemma NamedEscapeBack(c: char)
    requires c in NamedEscapes
    ensures NamedEscapes[c] != 'x' && SimpleEscape(NamedEscapes[c]) == Some(c)
  {
  }

  lemma UnquoteNamed(c: char, t: string)
    requires c in NamedEscapes
    ensures UnquoteBody(QuoteChar(c) + t) == Cons(c, UnquoteBody(t))
  {
    NamedEscapeBack(c);
    var q := QuoteChar(c) + t;
    assert q[0] == '\\' && q[1] == NamedEscapes[c] && q[2..] == t;
  }

  lemma UnquoteHex(c: char, t: string)
    requires c !in NamedEscapes && IsControl(c)
    ensures UnquoteBody(QuoteChar(c) + t) == Cons(c, UnquoteBody(t))
  {
    var h, l := c as int / 16, c as int % 16;
    var q := QuoteChar(c) + t;
    assert q[0] == '\\' && q[1] == 'x' && q[2] == HexDigit(h) && q[3] == HexDigit(l) && q[4..] == t;
    assert HexValue(HexDigit(h)) == Some(h);
    assert HexValue(HexDigit(l)) == Some(l);
    assert (h * 16 + l) as char == c;
  }

  lemma UnquoteUnescaped(c: char, t: string)
    requires c !in NamedEscapes && !IsControl(c)
    ensures UnquoteBody(QuoteChar(c) + t) == Cons(c, UnquoteBody(t))
  {
    assert c != '"' && c != '\\';
    var q := QuoteChar(c) + t;
    assert q[0] == c && q[1..] == t;
  }

  /** Reading one quoted character back consumes exactly its escape. */
  lemma UnquoteChar(c: char, t: string)
    ensures UnquoteBody(QuoteChar(c) + t) == Cons(c, UnquoteBody(t))
  {
    if c in NamedEscapes {
      UnquoteNamed(c, t);
    } else if IsControl(c) {
      UnquoteHex(c, t);
    } else {
      UnquoteUnescaped(c, t);
    }
  }

  lemma {:induction false} UnquoteQuoteBody(s: string)
    ensures UnquoteBody(QuoteBody(s)) == Some(s)
    decreases |s|
  {
    if s != [] {
      UnquoteChar(s[0], QuoteBody(s[1..]));
      UnquoteQuoteBody(s[1..]);
      assert [s[0]] + s[1..] == s;
    }
  }

  /** Every quoted string reads back as itself. */
  lemma UnquoteQuote(s: string)
    ensures Unquote(Quote(s)) == Some(s)
  {
    var q := Quote(s);
    assert q[1..|q| - 1] == QuoteBody(s);
    UnquoteQuoteBody(s);
  }

  /** Quoting tells strings apart: two names give the same text exactly when they are equal. */
  lemma QuoteInjective(s: string, t: string)
    ensures Quote(s) == Quote(t) <==> s == t
  {
    UnquoteQuote(s);
    UnquoteQuote(t);
  }

  /** A character that needs no escape. */
  predicate Plain(c: char) {
    !IsControl(c) && c != '"' && c != '\\'
  }

  /** For text without quotes, backslashes or control characters, the quoted form is the
      text between two double quotes. */
  lemma QuotePlain(s: string)
    requires forall i :: 0 <= i < |s| ==> Plain(s[i])
    ensures Quote(s) == "\"" + s + "\""
  {
    QuoteBodyPlain(s);
  }

  lemma {:induction false} QuoteBodyPlain(s: string)
    requires forall i :: 0 <= i < |s| ==> Plain(s[i])
    ensures QuoteBody(s) == s
    decreases |s|
  {
    if s != [] {
      QuoteBodyPlain(s[1..]);
      assert [s[0]] + s[1..] == s;
    }
  }

  /** A double quote in a name is escaped, so the message differs from the bare text in quotes. */
  lemma QuoteEscapesQuote()
    ensures Quote("a\"b") == "\"a\\\"b\""
  {
    assert "a\"b"[1..] == "\"b" && "\"b"[1..] == "b" && "b"[1..] == "";
  }
}
