/** The JSON text of a canonical node: arrays, strings and booleans, with compact separators and
    nothing escaped beyond what JSON requires.  A reader of such JSON, written from the grammar of
    RFC 8259, gets every node back from its text. */
module JsonText {
  import opened Options

  datatype Node = Text(s: string) | Flag(b: bool) | Arr(items: seq<Node>)

  // ----- strings --------------------------------------------------------------------------

  function Hex(d: nat): char
    requires d < 16
  {
    if d < 10 then '0' + d as char else 'a' + (d - 10) as char
  }

  /** How one character is written inside a string. */
  function Escape(c: char): string {
    if c == '\"' then "\\\""
    else if c == '\\' then "\\\\"
    else if c == '\n' then "\\n"
    else if c == '\r' then "\\r"
    else if c == '\t' then "\\t"
    else if c == '\U{000C}' then "\\f"
    else if c == '\U{0008}' then "\\b"
    else if c < ' ' then ['\\', 'u', '0', '0', Hex(c as int / 16), Hex(c as int % 16)]
    else [c]
  }

  /** The characters of a string, up to and including the closing quote. */
  function Quoted(s: string): string {
    if s == [] then "\"" else Escape(s[0]) + Quoted(s[1..])
  }

  // ----- nodes ----------------------------------------------------------------------------

  function Encode(n: Node): string
    decreases n, 1
  {
    match n
    case Text(s) => "\"" + Quoted(s)
    case Flag(b) => if b then "true" else "false"
    case Arr(items) => "[" + if items == [] then "]" else Encode(items[0]) + EncodeRest(items[1..])
  }

  /** The items after the first, each behind a comma, and the closing bracket. */
  function EncodeRest(items: seq<Node>): string
    decreases items, 0
  {
    if items == [] then "]" else "," + Encode(items[0]) + EncodeRest(items[1..])
  }

  // ----- reading ----------------------------------------------------------------------------

  function HexValue(c: char): Option<nat> {
    if '0' <= c <= '9' then Some((c - '0') as nat)
    else if 'a' <= c <= 'f' then Some(10 + (c - 'a') as nat)
    else if 'A' <= c <= 'F' then Some(10 + (c - 'A') as nat)
    else None
  }

  /** Four hexadecimal digits; a surrogate is no character. */
  function ReadUnicode(t: string): Option<(char, string)> {
    if |t| < 4 then None
    else
      match (HexValue(t[0]), HexValue(t[1]), HexValue(t[2]), HexValue(t[3]))
      case (Some(a), Some(b), Some(c), Some(d)) =>
        var code := ((a * 16 + b) * 16 + c) * 16 + d;
        if 0 <= code < 0xD800 || 0xE000 <= code < 0x11_0000 then Some((code as char, t[4..])) else None
      case _ => None
  }

  /** What follows a backslash. */
  function ReadEscape(t: string): (r: Option<(char, string)>)
    ensures r.Some? ==> |r.value.1| < |t|
  {
    if t == [] then None
    else if t[0] in "\"\\/" then Some((t[0], t[1..]))
    else if t[0] == 'b' then Some(('\U{0008}', t[1..]))
    else if t[0] == 'f' then Some(('\U{000C}', t[1..]))
    else if t[0] == 'n' then Some(('\n', t[1..]))
    else if t[0] == 'r' then Some(('\r', t[1..]))
    else if t[0] == 't' then Some(('\t', t[1..]))
    else if t[0] == 'u' then ReadUnicode(t[1..])
    else None
  }

  /** The rest of a string, up to and including its closing quote. */
  function ReadString(t: string): (r: Option<(string, string)>)
    ensures r.Some? ==> |r.value.1| < |t|
    decreases |t|
  {
    if t == [] then None
    else if t[0] == '\"' then Some(([], t[1..]))
    else if t[0] == '\\' then
      match ReadEscape(t[1..])
      case None => None
      case Some((c, rest)) => Prepend(c, ReadString(rest))
    else if t[0] < ' ' then None
    else Prepend(t[0], ReadString(t[1..]))
  }

  function Prepend(c: char, r: Option<(string, string)>): (p: Option<(string, string)>)
    ensures p.Some? <==> r.Some?
    ensures p.Some? ==> p.value.1 == r.value.1
  {
    if r.Some? then Some(([c] + r.value.0, r.value.1)) else None
  }

  /** One value, and the text behind it. */
  function Read(t: string): (r: Option<(Node, string)>)
    ensures r.Some? ==> |r.value.1| < |t|
    decreases |t|, 0
  {
    if t == [] then None
    else if t[0] == '\"' then
      match ReadString(t[1..])
      case None => None
      case Some((s, rest)) => Some((Text(s), rest))
    else if t[0] == '[' then
      if |t| > 1 && t[1] == ']' then Some((Arr([]), t[2..]))
      else
        match ReadItems(t[1..])
        case None => None
        case Some((items, rest)) => Some((Arr(items), rest))
    else if "true" <= t then Some((Flag(true), t[4..]))
    else if "false" <= t then Some((Flag(false), t[5..]))
    else None
  }

  /** One or more values separated by commas, and the closing bracket. */
  function ReadItems(t: string): (r: Option<(seq<Node>, string)>)
    ensures r.Some? ==> |r.value.1| < |t|
    decreases |t|, 1
  {
    match Read(t)
    case None => None
    case Some((first, rest)) =>
      if rest == [] then None
      else if rest[0] == ']' then Some(([first], rest[1..]))
      else if rest[0] == ',' then
        match ReadItems(rest[1..])
        case None => None
        case Some((more, behind)) => Some(([first] + more, behind))
      else None
  }

  // ----- every text is read back --------------------------------------------------------------

  /** One escaped character in front of the rest of a string. */
  lemma ReadsCharacter(c: char, y: string)
    ensures ReadString(Escape(c) + y) == Prepend(c, ReadString(y))
  {
    var t := Escape(c) + y;
    if |Escape(c)| == 1 {
      assert t[1..] == y;
    } else if |Escape(c)| == 2 {
      assert t[1..][1..] == y;
    } else {
      ReadsControl(c, y);
    }
  }

  lemma ReadsControl(c: char, y: string)
    requires |Escape(c)| == 6
    ensures ReadString(Escape(c) + y) == Prepend(c, ReadString(y))
  {
    var t := Escape(c) + y;
    var u := t[2..];
    assert t[1..][1..] == u && u[4..] == y;
    assert c < ' ' && u[..4] == ['0', '0', Hex(c as int / 16), Hex(c as int % 16)];
    HexRead(c as int / 16);
    HexRead(c as int % 16);
    assert u[2] == Hex(c as int / 16) && u[3] == Hex(c as int % 16);
    assert ReadUnicode(u) == Some((c, y));
  }

  lemma HexRead(d: nat)
    requires d < 16
    ensures HexValue(Hex(d)) == Some(d)
  {
  }

  lemma {:induction false} ReadsString(s: string, x: string)
    ensures ReadString(Quoted(s) + x) == Some((s, x))
  {
    if s == [] {
      assert (Quoted(s) + x)[1..] == x;
    } else {
      hide Escape;
      ReadsString(s[1..], x);
      assert Quoted(s) + x == Escape(s[0]) + (Quoted(s[1..]) + x);
      ReadsCharacter(s[0], Quoted(s[1..]) + x);
      assert [s[0]] + s[1..] == s;
    }
  }

  /** Reading the text of a node gives the node, and leaves what was behind it. */
  lemma {:induction false} ReadsBack(n: Node, x: string)
    ensures Read(Encode(n) + x) == Some((n, x))
    decreases n, 1
  {
    hide *;
    match n
    case Text(s) => ReadsText(s, x);
    case Flag(b) => ReadsFlag(b, x);
    case Arr(items) =>
      if items == [] {
        ReadsEmpty(x);
      } else {
        ReadsItems(items, x);
        NotClosing(items[0]);
        ReadsArray(items, x);
      }
  }

  lemma ReadsText(s: string, x: string)
    ensures Read(Encode(Text(s)) + x) == Some((Text(s), x))
  {
    hide Quoted, ReadString;
    ReadsString(s, x);
    assert (Encode(Text(s)) + x)[1..] == Quoted(s) + x;
  }

  lemma ReadsFlag(b: bool, x: string)
    ensures Read(Encode(Flag(b)) + x) == Some((Flag(b), x))
  {
    hide ReadString, ReadItems;
    var t := Encode(Flag(b)) + x;
    assert if b then "true" <= t && t[4..] == x else "false" <= t && t[5..] == x;
  }

  lemma ReadsEmpty(x: string)
    ensures Read(Encode(Arr([])) + x) == Some((Arr([]), x))
  {
    hide ReadString, ReadItems;
    var t := Encode(Arr([])) + x;
    assert t[1] == ']' && t[2..] == x;
  }

  /** An array whose items are read. */
  lemma ReadsArray(items: seq<Node>, x: string)
    requires items != [] && ReadItems(ItemsText(items) + x) == Some((items, x))
    requires Encode(items[0]) != [] && Encode(items[0])[0] != ']'
    ensures Read(Encode(Arr(items)) + x) == Some((Arr(items), x))
  {
    var t := Encode(Arr(items)) + x;
    assert Encode(Arr(items)) == "[" + ItemsText(items);
    assert t[0] == '[' && t[1] == Encode(items[0])[0];
    hide ReadString, ReadItems, Encode, EncodeRest, ItemsText;
    assert t[1..] == ItemsText(items) + x;
  }

  lemma NotClosing(n: Node)
    ensures Encode(n) != [] && Encode(n)[0] != ']'
  {
  }

  function ItemsText(items: seq<Node>): string
    requires items != []
  {
    Encode(items[0]) + EncodeRest(items[1..])
  }

  lemma {:induction false} ReadsItems(items: seq<Node>, x: string)
    requires items != []
    ensures ReadItems(ItemsText(items) + x) == Some((items, x))
    decreases items, 0
  {
    var rest := EncodeRest(items[1..]) + x;
    assert ItemsText(items) + x == Encode(items[0]) + rest;
    ReadsBack(items[0], rest);
    if |items| == 1 {
      assert rest[1..] == x;
      assert items == [items[0]];
    } else {
      ReadsItems(items[1..], x);
      assert rest[0] == ',' && rest[1..] == ItemsText(items[1..]) + x by { RestUnfolds(items[1..], x); }
      assert items == [items[0]] + items[1..];
    }
  }

  lemma RestUnfolds(items: seq<Node>, x: string)
    requires items != []
    ensures EncodeRest(items) + x == "," + (ItemsText(items) + x)
  {
    hide Encode;
  }

  /** Texts of nodes form a prefix code. */
  lemma EncodePrefix(a: Node, b: Node, x: string, y: string)
    requires Encode(a) + x == Encode(b) + y
    ensures a == b && x == y
  {
    ReadsBack(a, x);
    ReadsBack(b, y);
  }

  /** Different nodes have different texts. */
  lemma EncodeInjective(a: Node, b: Node)
    requires Encode(a) == Encode(b)
    ensures a == b
  {
    EncodePrefix(a, b, [], []);
  }
}
