/** Deterministic canonical serialization.  A value's canonical text depends on what the value
    denotes and on nothing else: two supported values have the same text exactly when they denote
    the same thing, that is, up to the order in which maps and sets are built and up to the
    kind of sequence or set. */
module Canonical {
  import opened JsonText
  import CellKeys
  import Ordering
  import opened Options

  type Byte = n: nat | n < 256

  /** A Python value as the encoder sees it.  Maps and sets list their members in iteration order. */
  datatype Value =
    | Null
    | Bool(b: bool)
    | Enum(typeName: string, member: Value)
    | Int(n: int)
    | Str(s: string)
    | Bytes(bytes: seq<Byte>)
    | Float
    | WallClock
    | Record(recordName: string, fields: seq<string>, fieldValues: seq<Value>)
    | Map(keys: seq<Option<string>>, values: seq<Value>)   // None for a key that is not a string
    | Set(frozen: bool, members: seq<Value>)
    | Seq(tuple: bool, items: seq<Value>)
    | Unsupported

  /** What a value denotes. */
  datatype Meaning =
    | MNull
    | MBool(b: bool)
    | MEnum(typeName: string, member: Meaning)
    | MInt(n: int)
    | MStr(s: string)
    | MBytes(bytes: seq<Byte>)
    | MRecord(recordName: string, fields: map<string, Meaning>)
    | MMap(entries: map<string, Meaning>)
    | MSet(members: set<Meaning>)
    | MSeq(items: seq<Meaning>)

  // ----- base64 ---------------------------------------------------------------------------

  function Sextet(d: nat): char
    requires d < 64
  {
    if d < 26 then 'A' + d as char
    else if d < 52 then 'a' + (d - 26) as char
    else if d < 62 then '0' + (d - 52) as char
    else if d == 62 then '-' else '_'
  }

  /** URL-safe base64 without padding. */
  function Base64(b: seq<Byte>): string {
    if |b| == 0 then []
    else if |b| == 1 then [Sextet(b[0] / 4), Sextet(b[0] % 4 * 16)]
    else if |b| == 2 then [Sextet(b[0] / 4), Sextet(b[0] % 4 * 16 + b[1] / 16), Sextet(b[1] % 16 * 4)]
    else Quad(b[0], b[1], b[2]) + Base64(b[3..])
  }

  function Quad(b0: Byte, b1: Byte, b2: Byte): (s: string)
    ensures |s| == 4
  {
    [Sextet(b0 / 4), Sextet(b0 % 4 * 16 + b1 / 16), Sextet(b1 % 16 * 4 + b2 / 64), Sextet(b2 % 64)]
  }

  /** The value of a character in the URL-safe alphabet of RFC 4648, section 5. */
  function SextetValue(c: char): Option<nat> {
    if 'A' <= c <= 'Z' then Some((c - 'A') as nat)
    else if 'a' <= c <= 'z' then Some(26 + (c - 'a') as nat)
    else if '0' <= c <= '9' then Some(52 + (c - '0') as nat)
    else if c == '-' then Some(62)
    else if c == '_' then Some(63)
    else None
  }

  lemma SextetRead(d: nat)
    requires d < 64
    ensures SextetValue(Sextet(d)) == Some(d)
  {
  }

  // Each character is six bits, high bits first; the spare bits of a last group are zero.

  function FromTwo(v0: nat, v1: nat): Option<seq<Byte>> {
    var bits := v0 * 64 + v1;
    if bits < 0x1000 && bits % 16 == 0 then Some([bits / 16]) else None
  }

  function FromThree(v0: nat, v1: nat, v2: nat): Option<seq<Byte>> {
    var bits := (v0 * 64 + v1) * 64 + v2;
    if bits < 0x4_0000 && bits % 4 == 0 then Some([bits / 1024, bits / 4 % 256]) else None
  }

  function FromFour(v0: nat, v1: nat, v2: nat, v3: nat): Option<seq<Byte>> {
    var bits := ((v0 * 64 + v1) * 64 + v2) * 64 + v3;
    if bits < 0x100_0000 then Some([bits / 0x1_0000, bits / 256 % 256, bits % 256]) else None
  }

  /** Decode unpadded base64. */
  function Decode64(s: string): Option<seq<Byte>> {
    match |s|
    case 0 => Some([])
    case 1 => None
    case 2 =>
      var v0, v1 := SextetValue(s[0]), SextetValue(s[1]);
      if v0.Some? && v1.Some? then FromTwo(v0.value, v1.value) else None
    case 3 =>
      var v0, v1, v2 := SextetValue(s[0]), SextetValue(s[1]), SextetValue(s[2]);
      if v0.Some? && v1.Some? && v2.Some? then FromThree(v0.value, v1.value, v2.value) else None
    case _ =>
      var v0, v1, v2, v3 := SextetValue(s[0]), SextetValue(s[1]), SextetValue(s[2]), SextetValue(s[3]);
      if v0.None? || v1.None? || v2.None? || v3.None? then None
      else
        var group, rest := FromFour(v0.value, v1.value, v2.value, v3.value), Decode64(s[4..]);
        if group.Some? && rest.Some? then Some(group.value + rest.value) else None
  }

  lemma TwoRead(b: Byte)
    ensures FromTwo(b / 4, b % 4 * 16) == Some([b])
  {
    Splits(b, 4);
    TwoBits(b / 4, b % 4, b);
  }

  lemma ThreeRead(b0: Byte, b1: Byte)
    ensures FromThree(b0 / 4, b0 % 4 * 16 + b1 / 16, b1 % 16 * 4) == Some([b0, b1])
  {
    Splits(b0, 4);
    Splits(b1, 16);
    ThreeBits(b0 / 4, b0 % 4, b1 / 16, b1 % 16, b0, b1);
  }

  lemma FourRead(b0: Byte, b1: Byte, b2: Byte)
    ensures FromFour(b0 / 4, b0 % 4 * 16 + b1 / 16, b1 % 16 * 4 + b2 / 64, b2 % 64) == Some([b0, b1, b2])
  {
    Splits(b0, 4);
    Splits(b1, 16);
    Splits(b2, 64);
    FourBits(b0 / 4, b0 % 4, b1 / 16, b1 % 16, b2 / 64, b2 % 64, b0, b1, b2);
  }

  lemma Splits(b: Byte, d: nat)
    requires d > 0
    ensures b == b / d * d + b % d && 0 <= b % d < d && b / d <= b
  {
  }

  lemma TwoBits(h: nat, l: nat, b: Byte)
    requires b == h * 4 + l && l < 4
    ensures FromTwo(h, l * 16) == Some([b])
  {
    assert h * 64 + l * 16 == b * 16;
    Quotients(b, 0);
  }

  lemma ThreeBits(h0: nat, l0: nat, h1: nat, l1: nat, b0: Byte, b1: Byte)
    requires b0 == h0 * 4 + l0 && l0 < 4 && b1 == h1 * 16 + l1 && l1 < 16
    ensures FromThree(h0, l0 * 16 + h1, l1 * 4) == Some([b0, b1])
  {
    var n := b0 * 256 + b1;
    assert (h0 * 64 + (l0 * 16 + h1)) * 64 + l1 * 4 == n * 4;
    Quotients(n, 0);
    Quotients(b0, b1);
    Quotients(b0, b1 * 4);
  }

  lemma FourBits(h0: nat, l0: nat, h1: nat, l1: nat, h2: nat, l2: nat, b0: Byte, b1: Byte, b2: Byte)
    requires b0 == h0 * 4 + l0 && l0 < 4 && b1 == h1 * 16 + l1 && l1 < 16 && b2 == h2 * 64 + l2 && l2 < 64
    ensures FromFour(h0, l0 * 16 + h1, l1 * 4 + h2, l2) == Some([b0, b1, b2])
  {
    var n := b0 * 0x1_0000 + b1 * 256 + b2;
    assert ((h0 * 64 + (l0 * 16 + h1)) * 64 + (l1 * 4 + h2)) * 64 + l2 == n;
    Quotients(b0, b1 * 256 + b2);
    Quotients(b0 * 256 + b1, b2);
    Quotients(b0, b1);
  }

  lemma Quotients(q: nat, r: nat)
    ensures r < 4 ==> (q * 4 + r) / 4 == q && (q * 4 + r) % 4 == r
    ensures r < 16 ==> (q * 16 + r) / 16 == q && (q * 16 + r) % 16 == r
    ensures r < 256 ==> (q * 256 + r) / 256 == q && (q * 256 + r) % 256 == r
    ensures r < 1024 ==> (q * 1024 + r) / 1024 == q
    ensures r < 0x1_0000 ==> (q * 0x1_0000 + r) / 0x1_0000 == q
  {
  }

  /** Decoding the base64 text of some bytes gives the bytes. */
  lemma {:induction false} Base64ReadsBack(b: seq<Byte>)
    ensures Decode64(Base64(b)) == Some(b)
  {
    hide Sextet, SextetValue, FromTwo, FromThree, FromFour;
    if |b| == 1 {
      SextetRead(b[0] / 4);
      SextetRead(b[0] % 4 * 16);
      TwoRead(b[0]);
      assert [b[0]] == b;
    } else if |b| == 2 {
      SextetRead(b[0] / 4);
      SextetRead(b[0] % 4 * 16 + b[1] / 16);
      SextetRead(b[1] % 16 * 4);
      ThreeRead(b[0], b[1]);
      assert [b[0], b[1]] == b;
    } else if |b| > 2 {
      Base64ReadsBack(b[3..]);
      FullGroup(b);
    }
  }

  lemma GroupText(b: seq<Byte>)
    requires |b| >= 3
    ensures var s, q := Base64(b), Quad(b[0], b[1], b[2]);
      |s| >= 4 && s[0] == q[0] && s[1] == q[1] && s[2] == q[2] && s[3] == q[3] && s[4..] == Base64(b[3..])
  {
    hide Quad;
  }

  /** The characters of a full group, decoded. */
  lemma GroupValues(b0: Byte, b1: Byte, b2: Byte) returns (v0: nat, v1: nat, v2: nat, v3: nat)
    ensures var s := Quad(b0, b1, b2);
      && SextetValue(s[0]) == Some(v0) && SextetValue(s[1]) == Some(v1)
      && SextetValue(s[2]) == Some(v2) && SextetValue(s[3]) == Some(v3)
    ensures FromFour(v0, v1, v2, v3) == Some([b0, b1, b2])
  {
    hide Sextet, SextetValue, FromFour, Quad;
    v0, v1, v2, v3 := b0 / 4, b0 % 4 * 16 + b1 / 16, b1 % 16 * 4 + b2 / 64, b2 % 64;
    QuadIs(b0, b1, b2);
    SextetRead(v0);
    SextetRead(v1);
    SextetRead(v2);
    SextetRead(v3);
    FourRead(b0, b1, b2);
  }

  lemma FullGroup(b: seq<Byte>)
    requires |b| >= 3 && Decode64(Base64(b[3..])) == Some(b[3..])
    ensures Decode64(Base64(b)) == Some(b)
  {
    hide *;
    GroupText(b);
    var v0, v1, v2, v3 := GroupValues(b[0], b[1], b[2]);
    DecodeFour(Base64(b), v0, v1, v2, v3, [b[0], b[1], b[2]], b[3..]);
    assert [b[0], b[1], b[2]] + b[3..] == b;
  }

  lemma QuadIs(b0: Byte, b1: Byte, b2: Byte)
    ensures var s := Quad(b0, b1, b2);
      && s[0] == Sextet(b0 / 4) && s[1] == Sextet(b0 % 4 * 16 + b1 / 16)
      && s[2] == Sextet(b1 % 16 * 4 + b2 / 64) && s[3] == Sextet(b2 % 64)
  {
    hide Sextet;
  }

  lemma DecodeFour(s: string, v0: nat, v1: nat, v2: nat, v3: nat, group: seq<Byte>, rest: seq<Byte>)
    requires |s| >= 4 && SextetValue(s[0]) == Some(v0) && SextetValue(s[1]) == Some(v1)
    requires SextetValue(s[2]) == Some(v2) && SextetValue(s[3]) == Some(v3)
    requires FromFour(v0, v1, v2, v3) == Some(group) && Decode64(s[4..]) == Some(rest)
    ensures Decode64(s) == Some(group + rest)
  {
    hide SextetValue, FromTwo, FromThree, FromFour;
  }

  /** Different bytes have different texts. */
  lemma Base64Injective(a: seq<Byte>, b: seq<Byte>)
    requires Base64(a) == Base64(b)
    ensures a == b
  {
    Base64ReadsBack(a);
    Base64ReadsBack(b);
  }

  // ----- canonical nodes --------------------------------------------------------------------

  datatype Kind = KNull | KBool | KEnum | KInt | KStr | KBytes | KRecord | KMap | KSet | KList

  function Name(k: Kind): string {
    match k
    case KNull => "null"
    case KBool => "bool"
    case KEnum => "enum"
    case KInt => "int"
    case KStr => "str"
    case KBytes => "bytes"
    case KRecord => "record"
    case KMap => "map"
    case KSet => "set"
    case KList => "list"
  }

  lemma NameInjective(k: Kind, l: Kind)
    requires Name(k) == Name(l)
    ensures k == l
  {
    var s, t := Name(k), Name(l);
    assert |s| == |t| && s[0] == t[0] && s[1] == t[1] && s[2] == t[2];
  }

  function Tagged(k: Kind, rest: seq<Node>): (node: Node)
    ensures node.Arr? && |node.items| > 0 && node.items[1..] == rest
  {
    Arr([Text(Name(k))] + rest)
  }

  lemma TaggedInjective(k: Kind, l: Kind, a: seq<Node>, b: seq<Node>)
    ensures Tagged(k, a) == Tagged(l, b) <==> k == l && a == b
  {
    if Tagged(k, a) == Tagged(l, b) {
      var s, t := [Text(Name(k))] + a, [Text(Name(l))] + b;
      assert s[0] == t[0] && s[1..] == a && t[1..] == b;
      NameInjective(k, l);
    }
  }

  function AllSome<T>(s: seq<Option<T>>): (r: Option<seq<T>>)
    ensures r.Some? <==> forall i | 0 <= i < |s| :: s[i].Some?
    ensures r.Some? ==> |r.value| == |s| && forall i | 0 <= i < |s| :: r.value[i] == s[i].value
  {
    if s == [] then Some([])
    else
      var front := AllSome(s[..|s| - 1]);
      if front.Some? && s[|s| - 1].Some? then Some(front.value + [s[|s| - 1].value]) else None
  }

  function ByText(): (Node, Node) -> bool {
    (a: Node, b: Node) => Ordering.LexLeq(Encode(a), Encode(b))
  }

  function KeyOf(n: Node): string {
    if n.Arr? && |n.items| > 0 && n.items[0].Text? then n.items[0].s else ""
  }

  function ByKey(): (Node, Node) -> bool {
    (a: Node, b: Node) => Ordering.LexLeq(KeyOf(a), KeyOf(b))
  }

  /** Name and node of every entry, in the given order. */
  function Pairs(names: seq<string>, nodes: seq<Node>): (pairs: seq<Node>)
    requires |names| == |nodes|
    ensures |pairs| == |names| && forall i | 0 <= i < |names| :: pairs[i] == Arr([Text(names[i]), nodes[i]])
  {
    seq(|names|, i requires 0 <= i < |names| => Arr([Text(names[i]), nodes[i]]))
  }

  predicate HasRepeat(nodes: seq<Node>) {
    exists i, j :: 0 <= i < j < |nodes| && Encode(nodes[i]) == Encode(nodes[j])
  }

  /** Dataclass fields and map keys are distinct, as Python guarantees. */
  ghost predicate WellFormed(v: Value) {
    match v
    case Enum(_, m) => WellFormed(m)
    case Record(_, names, vs) =>
      |names| == |vs| && Ordering.Distinct(names) && forall i | 0 <= i < |vs| :: WellFormed(vs[i])
    case Map(keys, vs) => |keys| == |vs| && Ordering.Distinct(keys) && forall i | 0 <= i < |vs| :: WellFormed(vs[i])
    case Set(_, ms) => forall i | 0 <= i < |ms| :: WellFormed(ms[i])
    case Seq(_, items) => forall i | 0 <= i < |items| :: WellFormed(items[i])
    case _ => true
  }

  /** The canonical node, or none when the encoder raises. */
  function Canonicalize(v: Value): Option<Node>
    requires WellFormed(v)
    decreases v, 1
  {
    match v
    case Null => Some(Tagged(KNull, []))
    case Bool(b) => Some(Tagged(KBool, [Flag(b)]))
    case Enum(t, m) =>
      var node := Canonicalize(m);
      if node.Some? then Some(Tagged(KEnum, [Text(t), node.value])) else None
    case Int(n) => Some(Tagged(KInt, [Text(CellKeys.Decimal(n))]))
    case Str(s) => Some(Tagged(KStr, [Text(s)]))
    case Bytes(b) => Some(Tagged(KBytes, [Text(Base64(b))]))
    case Record(t, names, vs) =>
      var nodes := CanonicalizeAll(vs);
      if nodes.Some? then Some(Tagged(KRecord, [Text(t), Arr(Ordering.Sort(Pairs(names, nodes.value), ByKey()))]))
      else None
    case Map(keys, vs) =>
      var names := AllSome(keys);
      var nodes := CanonicalizeAll(vs);
      if names.Some? && nodes.Some? then
        Some(Tagged(KMap, [Arr(Ordering.Sort(Pairs(names.value, nodes.value), ByKey()))]))
      else None
    case Set(_, ms) =>
      var nodes := CanonicalizeAll(ms);
      if nodes.Some? && !HasRepeat(nodes.value) then Some(Tagged(KSet, [Arr(Ordering.Sort(nodes.value, ByText()))]))
      else None
    case Seq(_, items) =>
      var nodes := CanonicalizeAll(items);
      if nodes.Some? then Some(Tagged(KList, [Arr(nodes.value)])) else None
    case _ => None
  }

  function CanonicalizeAll(vs: seq<Value>): (r: Option<seq<Node>>)
    requires forall i | 0 <= i < |vs| :: WellFormed(vs[i])
    ensures r.Some? <==> forall i | 0 <= i < |vs| :: Canonicalize(vs[i]).Some?
    ensures r.Some? ==> |r.value| == |vs| && forall i | 0 <= i < |vs| :: Canonicalize(vs[i]) == Some(r.value[i])
    decreases vs, 0
  {
    var all := seq(|vs|, i requires 0 <= i < |vs| => Canonicalize(vs[i]));
    assert forall i | 0 <= i < |vs| :: all[i] == Canonicalize(vs[i]);
    AllSome(all)
  }

  /** The canonical text, before its UTF-8 encoding. */
  function CanonicalText(v: Value): Option<string>
    requires WellFormed(v)
  {
    var node := Canonicalize(v);
    if node.Some? then Some(Encode(node.value)) else None
  }

  // ----- what a value denotes ---------------------------------------------------------------

  /** The mapping given by names without repeats. */
  ghost function Binding(names: seq<string>, meanings: seq<Meaning>): map<string, Meaning>
    requires |names| == |meanings| && Ordering.Distinct(names)
  {
    map i | 0 <= i < |names| :: names[i] := meanings[i]
  }

  /** None for a value the encoding does not cover: a float, a wall-clock or other unsupported
      value anywhere, a key that is not a string, a set with two members that denote the same. */
  ghost function Denote(v: Value): Option<Meaning>
    requires WellFormed(v)
    decreases v, 1
  {
    match v
    case Null => Some(MNull)
    case Bool(b) => Some(MBool(b))
    case Enum(t, m) => var d := Denote(m); if d.Some? then Some(MEnum(t, d.value)) else None
    case Int(n) => Some(MInt(n))
    case Str(s) => Some(MStr(s))
    case Bytes(b) => Some(MBytes(b))
    case Record(t, names, vs) =>
      var ds := DenoteAll(vs);
      if ds.Some? then Some(MRecord(t, Binding(names, ds.value))) else None
    case Map(keys, vs) =>
      var names := AllSome(keys);
      var ds := DenoteAll(vs);
      if names.Some? && ds.Some? then Some(MMap(Binding(names.value, ds.value))) else None
    case Set(_, ms) =>
      var ds := DenoteAll(ms);
      if ds.Some? && Ordering.Distinct(ds.value) then Some(MSet(set d | d in ds.value)) else None
    case Seq(_, items) =>
      var ds := DenoteAll(items);
      if ds.Some? then Some(MSeq(ds.value)) else None
    case _ => None
  }

  ghost function DenoteAll(vs: seq<Value>): (r: Option<seq<Meaning>>)
    requires forall i | 0 <= i < |vs| :: WellFormed(vs[i])
    ensures r.Some? <==> forall i | 0 <= i < |vs| :: Denote(vs[i]).Some?
    ensures r.Some? ==> |r.value| == |vs| && forall i | 0 <= i < |vs| :: Denote(vs[i]) == Some(r.value[i])
    decreases vs, 0
  {
    var all := seq(|vs|, i requires 0 <= i < |vs| => Denote(vs[i]));
    assert forall i | 0 <= i < |vs| :: all[i] == Denote(vs[i]);
    AllSome(all)
  }

  // ----- the canonical node says exactly what the value denotes -----------------------------

  /** The nodes of one value's parts and another's are equal exactly where the meanings are. */
  ghost predicate Mirror(xs: seq<Node>, ds: seq<Meaning>, ys: seq<Node>, es: seq<Meaning>) {
    && |xs| == |ds| && |ys| == |es|
    && forall i, j | 0 <= i < |xs| && 0 <= j < |ys| :: xs[i] == ys[j] <==> ds[i] == es[j]
  }

  lemma TextOrder()
    ensures Ordering.Ordered(ByText())
    ensures forall s: seq<Node> :: Ordering.Untied(s, ByText())
  {
    var leq := ByText();
    forall x: Node, y: Node
      ensures leq(x, y) || leq(y, x)
      ensures leq(x, y) && leq(y, x) ==> x == y
    {
      Ordering.LexTotal(Encode(x), Encode(y));
      if leq(x, y) && leq(y, x) {
        Ordering.LexAntisymmetric(Encode(x), Encode(y));
        EncodeInjective(x, y);
      }
    }
    forall x: Node, y: Node, z: Node | leq(x, y) && leq(y, z)
      ensures leq(x, z)
    {
      Ordering.LexTransitive(Encode(x), Encode(y), Encode(z));
    }
  }

  lemma KeyOrder()
    ensures Ordering.Ordered(ByKey())
  {
    var leq := ByKey();
    forall x: Node, y: Node
      ensures leq(x, y) || leq(y, x)
    {
      Ordering.LexTotal(KeyOf(x), KeyOf(y));
    }
    forall x: Node, y: Node, z: Node | leq(x, y) && leq(y, z)
      ensures leq(x, z)
    {
      Ordering.LexTransitive(KeyOf(x), KeyOf(y), KeyOf(z));
    }
  }

  lemma PairsUntied(names: seq<string>, nodes: seq<Node>)
    requires |names| == |nodes| && Ordering.Distinct(names)
    ensures Ordering.Distinct(Pairs(names, nodes)) && Ordering.Untied(Pairs(names, nodes), ByKey())
  {
    var pairs := Pairs(names, nodes);
    forall i | 0 <= i < |names|
      ensures KeyOf(pairs[i]) == names[i]
    {
    }
    forall x, y | x in pairs && y in pairs && ByKey()(x, y) && ByKey()(y, x)
      ensures x == y
    {
      Ordering.LexAntisymmetric(KeyOf(x), KeyOf(y));
    }
  }

  /** Entries sorted by name are equal exactly when the mappings are. */
  lemma EntriesFaithful(a: seq<string>, xs: seq<Node>, ds: seq<Meaning>, b: seq<string>, ys: seq<Node>, es: seq<Meaning>)
    requires |a| == |xs| && |b| == |ys| && Mirror(xs, ds, ys, es) && Ordering.Distinct(a) && Ordering.Distinct(b)
    ensures Ordering.Sort(Pairs(a, xs), ByKey()) == Ordering.Sort(Pairs(b, ys), ByKey())
            <==> Binding(a, ds) == Binding(b, es)
  {
    var p, q := Pairs(a, xs), Pairs(b, ys);
    KeyOrder();
    PairsUntied(a, xs);
    PairsUntied(b, ys);
    Ordering.SortedSame(p, q, ByKey());
    SameEntries(a, xs, ds, b, ys, es);
  }

  lemma PairAgrees(a: seq<string>, xs: seq<Node>, b: seq<string>, ys: seq<Node>, i: nat, j: nat)
    requires |a| == |xs| && |b| == |ys| && i < |a| && j < |b|
    ensures Pairs(a, xs)[i] == Pairs(b, ys)[j] <==> a[i] == b[j] && xs[i] == ys[j]
  {
    var s, t := [Text(a[i]), xs[i]], [Text(b[j]), ys[j]];
    assert s[0] == Text(a[i]) && t[0] == Text(b[j]) && s[1] == xs[i] && t[1] == ys[j];
  }

  /** Every entry of the first is an entry of the second exactly when every binding is. */
  lemma EntriesWithin(a: seq<string>, xs: seq<Node>, ds: seq<Meaning>, b: seq<string>, ys: seq<Node>, es: seq<Meaning>)
    requires |a| == |xs| && |b| == |ys| && Mirror(xs, ds, ys, es) && Ordering.Distinct(a) && Ordering.Distinct(b)
    ensures (forall i | 0 <= i < |a| :: Pairs(a, xs)[i] in Pairs(b, ys))
            <==> (forall i | 0 <= i < |a| :: a[i] in Binding(b, es) && Binding(b, es)[a[i]] == ds[i])
  {
    forall i | 0 <= i < |a|
      ensures Pairs(a, xs)[i] in Pairs(b, ys) <==> a[i] in Binding(b, es) && Binding(b, es)[a[i]] == ds[i]
    {
      EntryWithin(a, xs, ds, b, ys, es, i);
    }
  }

  lemma EntryWithin(a: seq<string>, xs: seq<Node>, ds: seq<Meaning>, b: seq<string>, ys: seq<Node>, es: seq<Meaning>, i: nat)
    requires |a| == |xs| && |b| == |ys| && i < |a| && Mirror(xs, ds, ys, es) && Ordering.Distinct(b)
    ensures Pairs(a, xs)[i] in Pairs(b, ys) <==> a[i] in Binding(b, es) && Binding(b, es)[a[i]] == ds[i]
  {
    if Pairs(a, xs)[i] in Pairs(b, ys) {
      var j :| 0 <= j < |b| && Pairs(b, ys)[j] == Pairs(a, xs)[i];
      PairAgrees(a, xs, b, ys, i, j);
      assert Binding(b, es)[b[j]] == es[j];
    }
    if a[i] in Binding(b, es) {
      var j :| 0 <= j < |b| && b[j] == a[i];
      PairAgrees(a, xs, b, ys, i, j);
      assert Binding(b, es)[b[j]] == es[j];
    }
  }

  lemma SameEntries(a: seq<string>, xs: seq<Node>, ds: seq<Meaning>, b: seq<string>, ys: seq<Node>, es: seq<Meaning>)
    requires |a| == |xs| && |b| == |ys| && Mirror(xs, ds, ys, es) && Ordering.Distinct(a) && Ordering.Distinct(b)
    ensures (forall x :: x in Pairs(a, xs) <==> x in Pairs(b, ys)) <==> Binding(a, ds) == Binding(b, es)
  {
    hide Binding, Pairs;
    var p, q, m, n := Pairs(a, xs), Pairs(b, ys), Binding(a, ds), Binding(b, es);
    EntriesWithin(a, xs, ds, b, ys, es);
    MirrorBack(xs, ds, ys, es);
    EntriesWithin(b, ys, es, a, xs, ds);
    BindingWithin(a, ds, n);
    BindingWithin(b, es, m);
    SameMap(m, n);
    assert (forall x :: x in p <==> x in q) <==>
      (forall i | 0 <= i < |a| :: p[i] in q) && (forall j | 0 <= j < |b| :: q[j] in p);
  }

  lemma BindingWithin(a: seq<string>, ds: seq<Meaning>, n: map<string, Meaning>)
    requires |a| == |ds| && Ordering.Distinct(a)
    ensures (forall i | 0 <= i < |a| :: a[i] in n && n[a[i]] == ds[i])
            <==> (forall k | k in Binding(a, ds) :: k in n && n[k] == Binding(a, ds)[k])
  {
    var m := Binding(a, ds);
    forall i | 0 <= i < |a|
      ensures a[i] in m && m[a[i]] == ds[i]
    {
    }
    if forall i | 0 <= i < |a| :: a[i] in n && n[a[i]] == ds[i] {
      forall k | k in m
        ensures k in n && n[k] == m[k]
      {
        var i :| 0 <= i < |a| && a[i] == k;
      }
    }
  }

  lemma SameMap(m: map<string, Meaning>, n: map<string, Meaning>)
    ensures m == n <==> (forall k | k in m :: k in n && n[k] == m[k]) && (forall k | k in n :: k in m && m[k] == n[k])
  {
  }

  lemma MemberWithin(xs: seq<Node>, ds: seq<Meaning>, ys: seq<Node>, es: seq<Meaning>)
    requires Mirror(xs, ds, ys, es)
    ensures (forall x | x in xs :: x in ys) <==> (forall d | d in ds :: d in es)
  {
    forall i | 0 <= i < |xs|
      ensures xs[i] in ys <==> ds[i] in es
    {
      if xs[i] in ys {
        var j :| 0 <= j < |ys| && ys[j] == xs[i];
        assert es[j] == ds[i];
      }
      if ds[i] in es {
        var j :| 0 <= j < |es| && es[j] == ds[i];
        assert ys[j] == xs[i];
      }
    }
    if forall x | x in xs :: x in ys {
      forall d | d in ds
        ensures d in es
      {
        var i :| 0 <= i < |ds| && ds[i] == d;
        assert xs[i] in xs;
      }
    }
    if forall d | d in ds :: d in es {
      forall x | x in xs
        ensures x in ys
      {
        var i :| 0 <= i < |xs| && xs[i] == x;
        assert ds[i] in ds;
      }
    }
  }

  lemma MembersFaithful(xs: seq<Node>, ds: seq<Meaning>, ys: seq<Node>, es: seq<Meaning>)
    requires Mirror(xs, ds, ys, es) && Ordering.Distinct(xs) && Ordering.Distinct(ys)
    ensures Ordering.Sort(xs, ByText()) == Ordering.Sort(ys, ByText()) <==> (set d | d in ds) == (set e | e in es)
  {
    hide ByText, Ordering.Sort, Ordering.Ordered, Ordering.Untied, Ordering.Distinct;
    TextOrder();
    Ordering.SortedSame(xs, ys, ByText());
    MemberWithin(xs, ds, ys, es);
    MirrorBack(xs, ds, ys, es);
    MemberWithin(ys, es, xs, ds);
    var m, n := set d | d in ds, set e | e in es;
    if m == n {
      assert forall d | d in ds :: d in n;
      assert forall e | e in es :: e in m;
    }
  }

  lemma MirrorBack(xs: seq<Node>, ds: seq<Meaning>, ys: seq<Node>, es: seq<Meaning>)
    requires Mirror(xs, ds, ys, es)
    ensures Mirror(ys, es, xs, ds)
  {
  }

  lemma RepeatIsNode(nodes: seq<Node>)
    ensures HasRepeat(nodes) <==> !Ordering.Distinct(nodes)
  {
    if HasRepeat(nodes) {
      var i, j :| 0 <= i < j < |nodes| && Encode(nodes[i]) == Encode(nodes[j]);
      EncodeInjective(nodes[i], nodes[j]);
    }
  }

  ghost predicate Supported(v: Value) {
    WellFormed(v) && Canonicalize(v).Some? && Denote(v).Some?
  }

  function KindOf(v: Value): Kind {
    match v
    case Bool(_) => KBool
    case Enum(_, _) => KEnum
    case Int(_) => KInt
    case Str(_) => KStr
    case Bytes(_) => KBytes
    case Record(_, _, _) => KRecord
    case Map(_, _) => KMap
    case Set(_, _) => KSet
    case Seq(_, _) => KList
    case _ => KNull
  }

  function MeaningKind(m: Meaning): Kind {
    match m
    case MNull => KNull
    case MBool(_) => KBool
    case MEnum(_, _) => KEnum
    case MInt(_) => KInt
    case MStr(_) => KStr
    case MBytes(_) => KBytes
    case MRecord(_, _) => KRecord
    case MMap(_) => KMap
    case MSet(_) => KSet
    case MSeq(_) => KList
  }

  lemma KindKept(v: Value) returns (rest: seq<Node>)
    requires Supported(v)
    ensures Canonicalize(v).value == Tagged(KindOf(v), rest) && MeaningKind(Denote(v).value) == KindOf(v)
  {
    hide Tagged, Name, Base64, CellKeys.Decimal, Ordering.Sort, Pairs, Binding;
    var node := Canonicalize(v).value;
    rest := node.items[1..];
  }

  /** `xs` are the nodes and `ds` the meanings of `vs`. */
  ghost predicate PartsOf(vs: seq<Value>, xs: seq<Node>, ds: seq<Meaning>) {
    && |vs| == |xs| == |ds|
    && forall i | 0 <= i < |vs| ::
         WellFormed(vs[i]) && Canonicalize(vs[i]) == Some(xs[i]) && Denote(vs[i]) == Some(ds[i])
  }

  lemma RecordParts(v: Value) returns (xs: seq<Node>, ds: seq<Meaning>)
    requires Supported(v) && v.Record?
    ensures PartsOf(v.fieldValues, xs, ds) && Ordering.Distinct(v.fields) && |v.fields| == |xs|
    ensures Canonicalize(v).value
            == Tagged(KRecord, [Text(v.recordName), Arr(Ordering.Sort(Pairs(v.fields, xs), ByKey()))])
    ensures Denote(v).value == MRecord(v.recordName, Binding(v.fields, ds))
  {
    var vs := v.fieldValues;
    xs := CanonicalizeAll(vs).value;
    ds := DenoteAll(vs).value;
  }

  lemma MapParts(v: Value) returns (names: seq<string>, xs: seq<Node>, ds: seq<Meaning>)
    requires Supported(v) && v.Map?
    ensures PartsOf(v.values, xs, ds) && Ordering.Distinct(names) && |names| == |xs|
    ensures Canonicalize(v).value == Tagged(KMap, [Arr(Ordering.Sort(Pairs(names, xs), ByKey()))])
    ensures Denote(v).value == MMap(Binding(names, ds))
  {
    var vs := v.values;
    names := AllSome(v.keys).value;
    xs := CanonicalizeAll(vs).value;
    ds := DenoteAll(vs).value;
  }

  lemma SetParts(v: Value) returns (xs: seq<Node>, ds: seq<Meaning>)
    requires Supported(v) && v.Set?
    ensures PartsOf(v.members, xs, ds) && Ordering.Distinct(xs)
    ensures Canonicalize(v).value == Tagged(KSet, [Arr(Ordering.Sort(xs, ByText()))])
    ensures Denote(v).value == MSet(set d | d in ds)
  {
    var vs := v.members;
    xs := CanonicalizeAll(vs).value;
    ds := DenoteAll(vs).value;
    RepeatIsNode(xs);
  }

  lemma SeqParts(v: Value) returns (xs: seq<Node>, ds: seq<Meaning>)
    requires Supported(v) && v.Seq?
    ensures PartsOf(v.items, xs, ds)
    ensures Canonicalize(v).value == Tagged(KList, [Arr(xs)]) && Denote(v).value == MSeq(ds)
  {
    var vs := v.items;
    xs := CanonicalizeAll(vs).value;
    ds := DenoteAll(vs).value;
  }

  /** Structural induction on the first value; the second is arbitrary. */
  lemma {:induction false} NodeFaithful(v: Value, w: Value)
    requires Supported(v) && Supported(w)
    ensures Canonicalize(v).value == Canonicalize(w).value <==> Denote(v).value == Denote(w).value
    decreases v, 1
  {
    if KindOf(v) != KindOf(w) {
      var a := KindKept(v);
      var b := KindKept(w);
      TaggedInjective(KindOf(v), KindOf(w), a, b);
    } else {
      match v
      case Record(_, _, _) => RecordFaithful(v, w);
      case Map(_, _) => MapFaithful(v, w);
      case Set(_, _) => SetFaithful(v, w);
      case Seq(_, _) => SeqFaithful(v, w);
      case _ => LeafFaithful(v, w);
    }
  }

  lemma {:induction false} LeafFaithful(v: Value, w: Value)
    requires Supported(v) && Supported(w) && KindOf(v) == KindOf(w)
    requires !v.Record? && !v.Map? && !v.Set? && !v.Seq?
    ensures Canonicalize(v).value == Canonicalize(w).value <==> Denote(v).value == Denote(w).value
    decreases v, 0
  {
    hide Tagged, Name, Base64, CellKeys.Decimal;
    match v
    case Enum(t, m) =>
      NodeFaithful(m, w.member);
      var x, y := Canonicalize(m).value, Canonicalize(w.member).value;
      TaggedInjective(KEnum, KEnum, [Text(t), x], [Text(w.typeName), y]);
      assert [Text(t), x] == [Text(w.typeName), y] <==> t == w.typeName && x == y by {
        assert [Text(t), x][0] == Text(t) && [Text(w.typeName), y][0] == Text(w.typeName);
        assert [Text(t), x][1] == x && [Text(w.typeName), y][1] == y;
      }
    case Bool(b) =>
      TaggedInjective(KBool, KBool, [Flag(b)], [Flag(w.b)]);
    case Int(n) =>
      var s, t := CellKeys.Decimal(n), CellKeys.Decimal(w.n);
      TaggedInjective(KInt, KInt, [Text(s)], [Text(t)]);
      if s == t { CellKeys.DecimalInjective(n, w.n); }
    case Str(s) =>
      TaggedInjective(KStr, KStr, [Text(s)], [Text(w.s)]);
    case Bytes(b) =>
      var s, t := Base64(b), Base64(w.bytes);
      TaggedInjective(KBytes, KBytes, [Text(s)], [Text(t)]);
      if s == t { Base64Injective(b, w.bytes); }
    case _ =>
  }

  lemma {:induction false} PartsFaithful(vs: seq<Value>, xs: seq<Node>, ds: seq<Meaning>,
                                         ws: seq<Value>, ys: seq<Node>, es: seq<Meaning>)
    requires PartsOf(vs, xs, ds) && PartsOf(ws, ys, es)
    ensures Mirror(xs, ds, ys, es)
    decreases vs, 2
  {
    hide Canonicalize, Denote, WellFormed;
    forall i, j | 0 <= i < |xs| && 0 <= j < |ys|
      ensures xs[i] == ys[j] <==> ds[i] == es[j]
    {
      NodeFaithful(vs[i], ws[j]);
    }
  }

  lemma {:induction false} RecordFaithful(v: Value, w: Value)
    requires Supported(v) && Supported(w) && v.Record? && w.Record?
    ensures Canonicalize(v).value == Canonicalize(w).value <==> Denote(v).value == Denote(w).value
    decreases v, 0
  {
    hide *;
    var xs, ds := RecordParts(v);
    var ys, es := RecordParts(w);
    PartsFaithful(v.fieldValues, xs, ds, w.fieldValues, ys, es);
    EntriesFaithful(v.fields, xs, ds, w.fields, ys, es);
    var p, q := Ordering.Sort(Pairs(v.fields, xs), ByKey()), Ordering.Sort(Pairs(w.fields, ys), ByKey());
    var a, b := [Text(v.recordName), Arr(p)], [Text(w.recordName), Arr(q)];
    TaggedInjective(KRecord, KRecord, a, b);
    assert a == b <==> v.recordName == w.recordName && p == q by {
      assert a[0] == Text(v.recordName) && b[0] == Text(w.recordName) && a[1] == Arr(p) && b[1] == Arr(q);
    }
  }

  lemma {:induction false} MapFaithful(v: Value, w: Value)
    requires Supported(v) && Supported(w) && v.Map? && w.Map?
    ensures Canonicalize(v).value == Canonicalize(w).value <==> Denote(v).value == Denote(w).value
    decreases v, 0
  {
    hide *;
    var a, xs, ds := MapParts(v);
    var b, ys, es := MapParts(w);
    PartsFaithful(v.values, xs, ds, w.values, ys, es);
    EntriesFaithful(a, xs, ds, b, ys, es);
    var p, q := Ordering.Sort(Pairs(a, xs), ByKey()), Ordering.Sort(Pairs(b, ys), ByKey());
    TaggedInjective(KMap, KMap, [Arr(p)], [Arr(q)]);
    assert [Arr(p)][0] == Arr(p) && [Arr(q)][0] == Arr(q);
  }

  lemma {:induction false} SetFaithful(v: Value, w: Value)
    requires Supported(v) && Supported(w) && v.Set? && w.Set?
    ensures Canonicalize(v).value == Canonicalize(w).value <==> Denote(v).value == Denote(w).value
    decreases v, 0
  {
    hide *;
    var xs, ds := SetParts(v);
    var ys, es := SetParts(w);
    PartsFaithful(v.members, xs, ds, w.members, ys, es);
    MembersFaithful(xs, ds, ys, es);
    var p, q := Ordering.Sort(xs, ByText()), Ordering.Sort(ys, ByText());
    TaggedInjective(KSet, KSet, [Arr(p)], [Arr(q)]);
    assert [Arr(p)][0] == Arr(p) && [Arr(q)][0] == Arr(q);
  }

  lemma {:induction false} SeqFaithful(v: Value, w: Value)
    requires Supported(v) && Supported(w) && v.Seq? && w.Seq?
    ensures Canonicalize(v).value == Canonicalize(w).value <==> Denote(v).value == Denote(w).value
    decreases v, 0
  {
    hide *;
    var xs, ds := SeqParts(v);
    var ys, es := SeqParts(w);
    PartsFaithful(v.items, xs, ds, w.items, ys, es);
    TaggedInjective(KList, KList, [Arr(xs)], [Arr(ys)]);
    assert [Arr(xs)][0] == Arr(xs) && [Arr(ys)][0] == Arr(ys);
    assert xs == ys <==> ds == es by {
      MirrorSequences(xs, ds, ys, es);
    }
  }

  lemma MirrorSequences(xs: seq<Node>, ds: seq<Meaning>, ys: seq<Node>, es: seq<Meaning>)
    requires Mirror(xs, ds, ys, es)
    ensures xs == ys <==> ds == es
  {
    if xs == ys {
      assert forall i | 0 <= i < |xs| :: xs[i] == ys[i];
    } else if ds == es {
      assert forall i | 0 <= i < |ds| :: ds[i] == es[i];
    }
  }

  // ----- the encoder raises exactly on values without a meaning ----------------------------------

  /** The encoder raises exactly when the value has no meaning in the encoding. */
  lemma {:induction false} RaisesExactly(v: Value)
    requires WellFormed(v)
    ensures Canonicalize(v).Some? <==> Denote(v).Some?
  {
    match v
    case Enum(_, m) => RaisesExactly(m);
    case Record(_, _, vs) => forall i | 0 <= i < |vs| { RaisesExactly(vs[i]); }
    case Map(_, vs) => forall i | 0 <= i < |vs| { RaisesExactly(vs[i]); }
    case Set(_, ms) =>
      forall i | 0 <= i < |ms| { RaisesExactly(ms[i]); }
      SetRaises(v);
    case Seq(_, items) => forall i | 0 <= i < |items| { RaisesExactly(items[i]); }
    case _ =>
  }

  lemma SetRaises(v: Value)
    requires WellFormed(v) && v.Set?
    requires forall i | 0 <= i < |v.members| :: Canonicalize(v.members[i]).Some? <==> Denote(v.members[i]).Some?
    ensures Canonicalize(v).Some? <==> Denote(v).Some?
  {
    var vs := v.members;
    var nodes := CanonicalizeAll(vs);
    var ds := DenoteAll(vs);
    if nodes.Some? {
      PartsFaithful(vs, nodes.value, ds.value, vs, nodes.value, ds.value);
      RepeatIsNode(nodes.value);
    }
  }

  /** Equal canonical text means equal meaning, and the other way round; a value raises exactly
      when it has no meaning. */
  lemma {:induction false} EqualTextMeansEqualValue(v: Value, w: Value)
    requires WellFormed(v) && WellFormed(w)
    ensures CanonicalText(v).Some? <==> Denote(v).Some?
    ensures CanonicalText(v) == CanonicalText(w) <==> Denote(v) == Denote(w)
  {
    hide Canonicalize, Denote, WellFormed, Encode;
    RaisesExactly(v);
    RaisesExactly(w);
    if Canonicalize(v).Some? && Canonicalize(w).Some? {
      NodeFaithful(v, w);
      if CanonicalText(v) == CanonicalText(w) {
        EncodeInjective(Canonicalize(v).value, Canonicalize(w).value);
      }
    }
  }

  // ----- reading a canonical text -------------------------------------------------------------

  /** What a canonical node says: the first item names the kind. */
  ghost function Understand(n: Node): Option<Meaning>
    decreases n
  {
    if !n.Arr? || n.items == [] || !n.items[0].Text? then None
    else
      var tag, size := n.items[0].s, |n.items|;
      if tag == "null" && size == 1 then Some(MNull)
      else if tag == "bool" && size == 2 && n.items[1].Flag? then Some(MBool(n.items[1].b))
      else if tag == "int" && size == 2 && n.items[1].Text? && CellKeys.IsDecimal(n.items[1].s) then
        Some(MInt(CellKeys.DecimalValue(n.items[1].s)))
      else if tag == "str" && size == 2 && n.items[1].Text? then Some(MStr(n.items[1].s))
      else if tag == "bytes" && size == 2 && n.items[1].Text? && Decode64(n.items[1].s).Some? then
        Some(MBytes(Decode64(n.items[1].s).value))
      else if tag == "enum" && size == 3 && n.items[1].Text? && Understand(n.items[2]).Some? then
        Some(MEnum(n.items[1].s, Understand(n.items[2]).value))
      else if tag == "record" && size == 3 && n.items[1].Text? && n.items[2].Arr? then
        var entries := UnderstandEntries(n.items[2].items);
        if entries.Some? then Some(MRecord(n.items[1].s, entries.value)) else None
      else if tag == "map" && size == 2 && n.items[1].Arr? then
        var entries := UnderstandEntries(n.items[1].items);
        if entries.Some? then Some(MMap(entries.value)) else None
      else if tag == "set" && size == 2 && n.items[1].Arr? then
        var members := UnderstandAll(n.items[1].items);
        if members.Some? then Some(MSet(set m | m in members.value)) else None
      else if tag == "list" && size == 2 && n.items[1].Arr? then
        var members := UnderstandAll(n.items[1].items);
        if members.Some? then Some(MSeq(members.value)) else None
      else None
  }

  ghost function UnderstandAll(ns: seq<Node>): (r: Option<seq<Meaning>>)
    ensures r.Some? <==> forall i | 0 <= i < |ns| :: Understand(ns[i]).Some?
    ensures r.Some? ==> |r.value| == |ns| && forall i | 0 <= i < |ns| :: Understand(ns[i]) == Some(r.value[i])
    decreases ns
  {
    var all := seq(|ns|, i requires 0 <= i < |ns| => Understand(ns[i]));
    assert forall i | 0 <= i < |ns| :: all[i] == Understand(ns[i]);
    AllSome(all)
  }

  /** Name and value of an entry. */
  predicate IsEntry(n: Node) {
    n.Arr? && |n.items| == 2 && n.items[0].Text?
  }

  ghost function UnderstandEntries(ns: seq<Node>): Option<map<string, Meaning>>
    decreases ns
  {
    if ns == [] then Some(map[])
    else
      var front, last := UnderstandEntries(ns[..|ns| - 1]), ns[|ns| - 1];
      if front.None? || !IsEntry(last) || last.items[0].s in front.value || Understand(last.items[1]).None? then None
      else Some(front.value[last.items[0].s := Understand(last.items[1]).value])
  }

  /** The entry says what the mapping binds. */
  ghost predicate Says(n: Node, m: map<string, Meaning>) {
    IsEntry(n) && KeyOf(n) in m && Understand(n.items[1]) == Some(m[KeyOf(n)])
  }

  function KeysOf(ns: seq<Node>): set<string> {
    set i | 0 <= i < |ns| :: KeyOf(ns[i])
  }

  /** Entries with distinct names that say what a mapping binds are read as that mapping, restricted
      to their names. */
  lemma {:induction false} EntriesRead(ns: seq<Node>, m: map<string, Meaning>)
    requires forall i | 0 <= i < |ns| :: Says(ns[i], m)
    requires forall i, j | 0 <= i < j < |ns| :: KeyOf(ns[i]) != KeyOf(ns[j])
    ensures var r := UnderstandEntries(ns);
      r.Some? && r.value.Keys == KeysOf(ns) && forall k | k in r.value :: k in m && r.value[k] == m[k]
  {
    if ns != [] {
      hide Says, KeyOf, KeysOf, Understand, UnderstandEntries, IsEntry;
      var front := ns[..|ns| - 1];
      EntriesRead(front, m);
      KeysGrow(ns);
      OneMoreEntry(ns, m, UnderstandEntries(front).value);
    } else {
      NoEntry();
    }
  }

  lemma KeysGrow(ns: seq<Node>)
    requires ns != [] && forall i, j | 0 <= i < j < |ns| :: KeyOf(ns[i]) != KeyOf(ns[j])
    ensures KeysOf(ns) == KeysOf(ns[..|ns| - 1]) + {KeyOf(ns[|ns| - 1])}
    ensures KeyOf(ns[|ns| - 1]) !in KeysOf(ns[..|ns| - 1])
  {
    hide KeyOf;
  }

  lemma NoEntry()
    ensures UnderstandEntries([]) == Some(map[])
  {
  }

  lemma OneMoreEntry(ns: seq<Node>, m: map<string, Meaning>, r: map<string, Meaning>)
    requires ns != [] && Says(ns[|ns| - 1], m) && UnderstandEntries(ns[..|ns| - 1]) == Some(r)
    requires KeyOf(ns[|ns| - 1]) !in r
    ensures KeyOf(ns[|ns| - 1]) in m
    ensures var key := KeyOf(ns[|ns| - 1]); UnderstandEntries(ns) == Some(r[key := m[key]])
  {
    hide Understand;
  }

  lemma PairSays(names: seq<string>, xs: seq<Node>, ds: seq<Meaning>, n: Node) returns (k: nat)
    requires |names| == |xs| == |ds| && Ordering.Distinct(names) && n in Pairs(names, xs)
    requires forall i | 0 <= i < |xs| :: Understand(xs[i]) == Some(ds[i])
    ensures k < |names| && n == Pairs(names, xs)[k] && KeyOf(n) == names[k] && Says(n, Binding(names, ds))
  {
    hide Understand;
    var pairs := Pairs(names, xs);
    k :| 0 <= k < |pairs| && pairs[k] == n;
    assert Binding(names, ds)[names[k]] == ds[k];
  }

  /** The sorted entries of a mapping are read as the mapping. */
  lemma SortedEntriesRead(names: seq<string>, xs: seq<Node>, ds: seq<Meaning>)
    requires |names| == |xs| == |ds| && Ordering.Distinct(names)
    requires forall i | 0 <= i < |xs| :: Understand(xs[i]) == Some(ds[i])
    ensures UnderstandEntries(Ordering.Sort(Pairs(names, xs), ByKey())) == Some(Binding(names, ds))
  {
    hide Understand, UnderstandEntries, Says, KeyOf, ByKey, Ordering.Sort, Ordering.Untied;
    var pairs, m := Pairs(names, xs), Binding(names, ds);
    var sorted := Ordering.Sort(pairs, ByKey());
    Ordering.SameMembers(pairs, sorted);
    PairsUntied(names, xs);
    Ordering.Repeats(pairs, sorted);
    forall i | 0 <= i < |sorted|
      ensures Says(sorted[i], m)
    {
      var k := PairSays(names, xs, ds, sorted[i]);
    }
    forall i, j | 0 <= i < j < |sorted|
      ensures KeyOf(sorted[i]) != KeyOf(sorted[j])
    {
      var k := PairSays(names, xs, ds, sorted[i]);
      var l := PairSays(names, xs, ds, sorted[j]);
    }
    EntriesRead(sorted, m);
    AllBound(names, xs, ds, sorted, UnderstandEntries(sorted).value);
  }

  lemma AllBound(names: seq<string>, xs: seq<Node>, ds: seq<Meaning>, sorted: seq<Node>, r: map<string, Meaning>)
    requires |names| == |xs| == |ds| && Ordering.Distinct(names)
    requires forall n | n in Pairs(names, xs) :: n in sorted
    requires forall i | 0 <= i < |sorted| :: KeyOf(sorted[i]) in r
    requires forall k | k in r :: k in Binding(names, ds) && r[k] == Binding(names, ds)[k]
    ensures r == Binding(names, ds)
  {
    var pairs := Pairs(names, xs);
    forall i | 0 <= i < |names|
      ensures names[i] in r
    {
      assert pairs[i] in pairs;
      var j :| 0 <= j < |sorted| && sorted[j] == pairs[i];
      assert KeyOf(sorted[j]) == names[i];
    }
  }

  lemma MeaningsWithin(a: seq<Node>, b: seq<Node>)
    requires UnderstandAll(b).Some? && forall x | x in a :: x in b
    ensures UnderstandAll(a).Some? && forall d | d in UnderstandAll(a).value :: d in UnderstandAll(b).value
  {
    hide Understand;
    forall i | 0 <= i < |a|
      ensures Understand(a[i]).Some? && Understand(a[i]).value in UnderstandAll(b).value
    {
      assert a[i] in a;
      var k :| 0 <= k < |b| && b[k] == a[i];
      assert Understand(b[k]) == Some(UnderstandAll(b).value[k]);
    }
  }

  /** The sorted members of a set are read as the set. */
  lemma SortedMembersRead(xs: seq<Node>, ds: seq<Meaning>)
    requires |xs| == |ds| && forall i | 0 <= i < |xs| :: Understand(xs[i]) == Some(ds[i])
    ensures var r := UnderstandAll(Ordering.Sort(xs, ByText()));
      r.Some? && (set m | m in r.value) == (set d | d in ds)
  {
    hide Understand, ByText, Ordering.Sort;
    var sorted := Ordering.Sort(xs, ByText());
    Ordering.SameMembers(xs, sorted);
    MeaningsWithin(sorted, xs);
    MeaningsWithin(xs, sorted);
    assert UnderstandAll(xs).value == ds;
  }

  /** The canonical node of a value says what the value denotes. */
  lemma {:induction false} NodeReadsBack(v: Value)
    requires Supported(v)
    ensures Understand(Canonicalize(v).value) == Some(Denote(v).value)
    decreases v, 1
  {
    match v
    case Record(_, _, _) => RecordReadsBack(v);
    case Map(_, _) => MapReadsBack(v);
    case Set(_, _) => SetReadsBack(v);
    case Seq(_, _) => SeqReadsBack(v);
    case _ => LeafReadsBack(v);
  }

  lemma {:induction false} LeafReadsBack(v: Value)
    requires Supported(v) && !v.Record? && !v.Map? && !v.Set? && !v.Seq?
    ensures Understand(Canonicalize(v).value) == Some(Denote(v).value)
    decreases v, 0
  {
    hide Base64, Decode64, CellKeys.Decimal, CellKeys.IsDecimal, CellKeys.DecimalValue;
    match v
    case Enum(t, m) => NodeReadsBack(m);
    case Int(n) => CellKeys.DecimalRoundTrip(n);
    case Bytes(b) => Base64ReadsBack(b);
    case _ =>
  }

  lemma {:induction false} PartsReadBack(vs: seq<Value>, xs: seq<Node>, ds: seq<Meaning>)
    requires PartsOf(vs, xs, ds)
    ensures forall i | 0 <= i < |xs| :: Understand(xs[i]) == Some(ds[i])
    decreases vs, 2
  {
    hide Canonicalize, Denote, WellFormed, Understand;
    forall i | 0 <= i < |xs|
      ensures Understand(xs[i]) == Some(ds[i])
    {
      NodeReadsBack(vs[i]);
    }
  }

  lemma {:induction false} RecordReadsBack(v: Value)
    requires Supported(v) && v.Record?
    ensures Understand(Canonicalize(v).value) == Some(Denote(v).value)
    decreases v, 0
  {
    hide Canonicalize, Denote, WellFormed, UnderstandEntries, Binding, Ordering.Sort, Pairs;
    var xs, ds := RecordParts(v);
    PartsReadBack(v.fieldValues, xs, ds);
    SortedEntriesRead(v.fields, xs, ds);
  }

  lemma {:induction false} MapReadsBack(v: Value)
    requires Supported(v) && v.Map?
    ensures Understand(Canonicalize(v).value) == Some(Denote(v).value)
    decreases v, 0
  {
    hide Canonicalize, Denote, WellFormed, UnderstandEntries, Binding, Ordering.Sort, Pairs;
    var names, xs, ds := MapParts(v);
    PartsReadBack(v.values, xs, ds);
    SortedEntriesRead(names, xs, ds);
  }

  lemma {:induction false} SetReadsBack(v: Value)
    requires Supported(v) && v.Set?
    ensures Understand(Canonicalize(v).value) == Some(Denote(v).value)
    decreases v, 0
  {
    hide Canonicalize, Denote, WellFormed, UnderstandAll, Ordering.Sort;
    var xs, ds := SetParts(v);
    PartsReadBack(v.members, xs, ds);
    SortedMembersRead(xs, ds);
  }

  lemma {:induction false} SeqReadsBack(v: Value)
    requires Supported(v) && v.Seq?
    ensures Understand(Canonicalize(v).value) == Some(Denote(v).value)
    decreases v, 0
  {
    hide Canonicalize, Denote, WellFormed;
    var xs, ds := SeqParts(v);
    PartsReadBack(v.items, xs, ds);
    assert UnderstandAll(xs).value == ds;
  }

  /** Reading a canonical text: the JSON, and then what it says. */
  ghost function Decode(text: string): Option<Meaning> {
    var read := Read(text);
    if read.Some? && read.value.1 == [] then Understand(read.value.0) else None
  }

  /** Reading a value's canonical text gives back what the value denotes. */
  lemma {:induction false} TextReadsBack(v: Value)
    requires WellFormed(v) && CanonicalText(v).Some?
    ensures Denote(v).Some? && Decode(CanonicalText(v).value) == Denote(v)
  {
    hide Canonicalize, Denote, WellFormed, Encode, Read, Understand;
    RaisesExactly(v);
    NodeReadsBack(v);
    var node := Canonicalize(v).value;
    ReadsBack(node, []);
    assert Encode(node) + [] == Encode(node);
  }
}
