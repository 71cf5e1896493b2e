/** The JSON nesting guard: a byte scanner that must agree with the tree it never builds. */
module JsonDepth {
  import opened Prelude

  const MAX_JSON_NESTING: nat := 128

  const QUOTE: byte := 0x22
  const BACKSLASH: byte := 0x5C
  const COMMA: byte := 0x2C
  const COLON: byte := 0x3A
  const OPEN_BRACKET: byte := 0x5B
  const CLOSE_BRACKET: byte := 0x5D
  const OPEN_BRACE: byte := 0x7B
  const CLOSE_BRACE: byte := 0x7D

  // ---- The scanner ----

  datatype Scanner = Scanner(depth: nat, inString: bool, escaped: bool) | Rejected

  function Outside(depth: nat): Scanner { Scanner(depth, false, false) }

  function Inside(depth: nat): Scanner { Scanner(depth, true, false) }

  function ScanByte(s: Scanner, b: byte): Scanner {
    if s.Rejected? then s
    else if s.inString then
      if s.escaped then s.(escaped := false)
      else if b == BACKSLASH then s.(escaped := true)
      else if b == QUOTE then s.(inString := false)
      else s
    else if b == QUOTE then s.(inString := true)
    else if b == OPEN_BRACE || b == OPEN_BRACKET then
      if s.depth + 1 > MAX_JSON_NESTING then Rejected else s.(depth := s.depth + 1)
    else if b == CLOSE_BRACE || b == CLOSE_BRACKET then
      s.(depth := if s.depth > 0 then s.depth - 1 else 0)
    else s
  }

  function Scan(s: Scanner, bytes: seq<byte>): Scanner
    decreases |bytes|
  {
    if bytes == [] then s else Scan(ScanByte(s, bytes[0]), bytes[1..])
  }

  method EnsureJsonDepthWithinLimit(bytes: seq<byte>) returns (ok: bool)
    ensures ok <==> Scan(Outside(0), bytes) != Rejected
  {
    var depth: nat := 0;
    var inString := false;
    var escaped := false;
    for i := 0 to |bytes|
      invariant escaped ==> inString
      invariant Scan(Outside(0), bytes) == Scan(Scanner(depth, inString, escaped), bytes[i..])
    {
      var b := bytes[i];
      assert bytes[i..][1..] == bytes[i + 1..];
      if inString {
        if escaped {
          escaped := false;
          continue;
        }
        if b == BACKSLASH {
          escaped := true;
        } else if b == QUOTE {
          inString := false;
        }
        continue;
      }
      if b == QUOTE {
        inString := true;
      } else if b == OPEN_BRACE || b == OPEN_BRACKET {
        depth := depth + 1;
        if depth > MAX_JSON_NESTING {
          RejectedStays(bytes[i + 1..]);
          return false;
        }
      } else if b == CLOSE_BRACE || b == CLOSE_BRACKET {
        depth := if depth > 0 then depth - 1 else 0;
      }
    }
    return true;
  }

  lemma {:induction false} RejectedStays(bytes: seq<byte>)
    ensures Scan(Rejected, bytes) == Rejected
  {
    if bytes == [] {
    } else {
      RejectedStays(bytes[1..]);
    }
  }

  lemma {:induction false} ScanAppend(s: Scanner, a: seq<byte>, b: seq<byte>)
    ensures Scan(s, a + b) == Scan(Scan(s, a), b)
    decreases |a|
  {
    if a == [] {
      assert a + b == b;
    } else {
      assert (a + b)[1..] == a[1..] + b;
      ScanAppend(ScanByte(s, a[0]), a[1..], b);
    }
  }

  // ---- JSON values ----

  /** A value. Strings are sequences of UTF-16 code units, numbers are kept as written. */
  datatype Json =
    | Null
    | Bool(value: bool)
    | Number(literal: seq<byte>)
    | String(units: seq<nat>)
    | Array(items: JsonList)
    | Object(members: JsonMembers)

  datatype JsonList = NoItems | Item(head: Json, tail: JsonList)

  datatype JsonMembers = NoMembers | Member(key: seq<nat>, value: Json, rest: JsonMembers)

  function Max(a: nat, b: nat): nat { if a >= b then a else b }

  /** How deeply arrays and objects nest. */
  function Depth(v: Json): nat
  {
    match v
    case Array(items) => 1 + ItemsDepth(items)
    case Object(members) => 1 + MembersDepth(members)
    case _ => 0
  }

  function ItemsDepth(items: JsonList): nat
  {
    match items
    case NoItems => 0
    case Item(head, tail) => Max(Depth(head), ItemsDepth(tail))
  }

  function MembersDepth(members: JsonMembers): nat
  {
    match members
    case NoMembers => 0
    case Member(_, value, rest) => Max(Depth(value), MembersDepth(rest))
  }

  // ---- JSON texts (RFC 8259): one syntax tree for every way to write a value ----

  /** A string character (RFC 8259, section 7): itself, a two-character escape, or \uXXXX. */
  datatype StringChar = Plain(c: char) | Short(letter: byte) | Unicode(hex: seq<byte>)

  datatype Text =
    | NullText
    | TrueText
    | FalseText
    | NumberText(digits: NumberToken)
    | StringText(chars: seq<StringChar>)
    | ArrayText(inner: seq<byte>, elements: Elements)
    | ObjectText(inner: seq<byte>, fields: Fields)

  /** `inner` above is the whitespace of an empty array or object. Below, `before` and `after`
      surround an element, and `mid` stands between a key and its colon. */
  datatype Elements = NoElements | Element(before: seq<byte>, text: Text, after: seq<byte>, others: Elements)

  datatype Fields =
    | NoFields
    | Pair(before: seq<byte>, key: seq<StringChar>, mid: seq<byte>, pre: seq<byte>, text: Text, after: seq<byte>,
           others: Fields)

  /** RFC 8259, section 6: minus, integer part, fraction and exponent digits. An exponent is
      its letter, its sign if any, and its digits. */
  datatype NumberToken = NumberToken(minus: bool, whole: seq<byte>, fraction: Option<seq<byte>>,
                                     exponent: Option<Exponent>)

  datatype Exponent = Exponent(letter: byte, sign: Option<byte>, digits: seq<byte>)

  predicate Digits(s: seq<byte>) {
    s != [] && forall i :: 0 <= i < |s| ==> 0x30 <= s[i] <= 0x39
  }

  predicate NumberOk(n: NumberToken) {
    && Digits(n.whole) && (n.whole[0] == 0x30 ==> |n.whole| == 1)
    && (n.fraction.Some? ==> Digits(n.fraction.value))
    && (n.exponent.Some? ==>
          var e := n.exponent.value;
          && e.letter in [0x65, 0x45] && (e.sign.Some? ==> e.sign.value in [0x2B, 0x2D]) && Digits(e.digits))
  }

  predicate Whitespace(s: seq<byte>) {
    forall i :: 0 <= i < |s| ==> s[i] in [0x20, 0x09, 0x0A, 0x0D]
  }

  predicate HexDigit(b: byte) {
    0x30 <= b <= 0x39 || 0x41 <= b <= 0x46 || 0x61 <= b <= 0x66
  }

  predicate CharOk(c: StringChar) {
    match c
    case Plain(p) => p as int >= 0x20 && p != '"' && p != '\\'
    case Short(l) => l in [QUOTE, BACKSLASH, 0x2F, 0x62, 0x66, 0x6E, 0x72, 0x74]
    case Unicode(hex) => |hex| == 4 && forall i :: 0 <= i < 4 ==> HexDigit(hex[i])
  }

  predicate CharsOk(cs: seq<StringChar>) {
    forall i :: 0 <= i < |cs| ==> CharOk(cs[i])
  }

  predicate TextOk(t: Text)
  {
    match t
    case NumberText(n) => NumberOk(n)
    case StringText(cs) => CharsOk(cs)
    case ArrayText(inner, elements) => Whitespace(inner) && ElementsOk(elements)
    case ObjectText(inner, fields) => Whitespace(inner) && FieldsOk(fields)
    case _ => true
  }

  predicate ElementsOk(es: Elements)
  {
    match es
    case NoElements => true
    case Element(before, text, after, others) =>
      Whitespace(before) && TextOk(text) && Whitespace(after) && ElementsOk(others)
  }

  predicate FieldsOk(fs: Fields)
  {
    match fs
    case NoFields => true
    case Pair(before, key, mid, pre, text, after, others) =>
      && Whitespace(before) && CharsOk(key) && Whitespace(mid)
      && Whitespace(pre) && TextOk(text) && Whitespace(after) && FieldsOk(others)
  }

  function RenderNumber(n: NumberToken): seq<byte> {
    (if n.minus then [0x2D] else []) + n.whole
    + (if n.fraction.Some? then [0x2E] + n.fraction.value else [])
    + (if n.exponent.Some? then
         [n.exponent.value.letter] + (if n.exponent.value.sign.Some? then [n.exponent.value.sign.value] else [])
         + n.exponent.value.digits
       else [])
  }

  function RenderChar(c: StringChar): seq<byte> {
    match c
    case Plain(p) => Utf8(p)
    case Short(l) => [BACKSLASH, l]
    case Unicode(hex) => [BACKSLASH, 0x75] + hex
  }

  function RenderChars(cs: seq<StringChar>): seq<byte>
  {
    if cs == [] then [] else RenderChar(cs[0]) + RenderChars(cs[1..])
  }

  function RenderString(cs: seq<StringChar>): seq<byte> {
    [QUOTE] + RenderChars(cs) + [QUOTE]
  }

  function Render(t: Text): seq<byte>
    decreases t, 1
  {
    match t
    case NullText => [0x6E, 0x75, 0x6C, 0x6C]
    case TrueText => [0x74, 0x72, 0x75, 0x65]
    case FalseText => [0x66, 0x61, 0x6C, 0x73, 0x65]
    case NumberText(n) => RenderNumber(n)
    case StringText(cs) => RenderString(cs)
    case ArrayText(inner, elements) =>
      [OPEN_BRACKET] + (if elements.NoElements? then inner else RenderElements(elements)) + [CLOSE_BRACKET]
    case ObjectText(inner, fields) =>
      [OPEN_BRACE] + (if fields.NoFields? then inner else RenderFields(fields)) + [CLOSE_BRACE]
  }

  function RenderElements(es: Elements): seq<byte>
    decreases es, 0
  {
    match es
    case NoElements => []
    case Element(before, text, after, others) =>
      before + Render(text) + after + (if others.NoElements? then [] else [COMMA] + RenderElements(others))
  }

  function RenderFields(fs: Fields): seq<byte>
    decreases fs, 0
  {
    match fs
    case NoFields => []
    case Pair(before, key, mid, pre, text, after, others) =>
      before + RenderString(key) + mid + [COLON] + pre + Render(text) + after
      + (if others.NoFields? then [] else [COMMA] + RenderFields(others))
  }

  // ---- Which value a text stands for ----

  function HexValue(b: byte): nat {
    if b <= 0x39 then if b >= 0x30 then b - 0x30 else 0
    else if b <= 0x46 then if b >= 0x41 then b - 0x41 + 10 else 0
    else if b >= 0x61 then b - 0x61 + 10 else 0
  }

  function ShortValue(letter: byte): nat {
    if letter == 0x62 then 0x08
    else if letter == 0x66 then 0x0C
    else if letter == 0x6E then 0x0A
    else if letter == 0x72 then 0x0D
    else if letter == 0x74 then 0x09
    else letter
  }

  function CharUnits(c: StringChar): seq<nat> {
    match c
    case Plain(p) =>
      var n := p as int;
      if n < 0x1_0000 then [n] else [0xD800 + (n - 0x1_0000) / 0x400, 0xDC00 + (n - 0x1_0000) % 0x400]
    case Short(l) => [ShortValue(l)]
    case Unicode(hex) =>
      if |hex| == 4
      then [((HexValue(hex[0]) * 16 + HexValue(hex[1])) * 16 + HexValue(hex[2])) * 16 + HexValue(hex[3])]
      else []
  }

  function Units(cs: seq<StringChar>): seq<nat>
  {
    if cs == [] then [] else CharUnits(cs[0]) + Units(cs[1..])
  }

  function Meaning(t: Text): Json
  {
    match t
    case NullText => Null
    case TrueText => Bool(true)
    case FalseText => Bool(false)
    case NumberText(n) => Number(RenderNumber(n))
    case StringText(cs) => String(Units(cs))
    case ArrayText(_, elements) => Array(ElementsMeaning(elements))
    case ObjectText(_, fields) => Object(FieldsMeaning(fields))
  }

  function ElementsMeaning(es: Elements): JsonList
  {
    match es
    case NoElements => NoItems
    case Element(_, text, _, others) => Item(Meaning(text), ElementsMeaning(others))
  }

  function FieldsMeaning(fs: Fields): JsonMembers
  {
    match fs
    case NoFields => NoMembers
    case Pair(_, key, _, _, text, _, others) => Member(Units(key), Meaning(text), FieldsMeaning(others))
  }

  /** `bytes` is a JSON text (RFC 8259, section 2) of the value `v`. */
  ghost predicate IsTextOf(bytes: seq<byte>, v: Json) {
    exists before, t, after :: WritesDown(bytes, v, before, t, after)
  }

  ghost predicate WritesDown(bytes: seq<byte>, v: Json, before: seq<byte>, t: Text, after: seq<byte>) {
    Whitespace(before) && Whitespace(after) && TextOk(t) && Meaning(t) == v && bytes == before + Render(t) + after
  }

  // ---- The scanner follows the tree ----

  predicate NeutralByte(b: byte) {
    b != QUOTE && b != OPEN_BRACE && b != OPEN_BRACKET && b != CLOSE_BRACE && b != CLOSE_BRACKET
  }

  predicate Neutral(bytes: seq<byte>) {
    forall i :: 0 <= i < |bytes| ==> NeutralByte(bytes[i])
  }

  lemma {:induction false} ScanNeutral(d: nat, bytes: seq<byte>)
    requires Neutral(bytes)
    ensures Scan(Outside(d), bytes) == Outside(d)
    decreases |bytes|
  {
    if bytes == [] {
    } else {
      ScanNeutral(d, bytes[1..]);
    }
  }

  lemma {:induction false} ScanPlainInside(d: nat, bytes: seq<byte>)
    requires forall i :: 0 <= i < |bytes| ==> bytes[i] != QUOTE && bytes[i] != BACKSLASH
    ensures Scan(Inside(d), bytes) == Inside(d)
    decreases |bytes|
  {
    if bytes == [] {
    } else {
      ScanPlainInside(d, bytes[1..]);
    }
  }

  lemma ScanChar(d: nat, c: StringChar)
    requires CharOk(c)
    ensures Scan(Inside(d), RenderChar(c)) == Inside(d)
  {
    match c
    case Plain(p) => ScanPlainInside(d, Utf8(p));
    case Short(l) =>
      assert [BACKSLASH, l][1..] == [l] && [l][1..] == [];
      assert Scan(Scanner(d, true, true), [l]) == Scan(Inside(d), []);
    case Unicode(hex) =>
      ScanAppend(Inside(d), [BACKSLASH, 0x75], hex);
      assert [BACKSLASH, 0x75][1..] == [0x75] && [0x75][1..] == [];
      assert Scan(Scanner(d, true, true), [0x75]) == Scan(Inside(d), []);
      ScanPlainInside(d, hex);
  }

  lemma {:induction false} ScanChars(d: nat, cs: seq<StringChar>)
    requires CharsOk(cs)
    ensures Scan(Inside(d), RenderChars(cs)) == Inside(d)
    decreases |cs|
  {
    if cs == [] {
    } else {
      ScanChar(d, cs[0]);
      ScanAppend(Inside(d), RenderChar(cs[0]), RenderChars(cs[1..]));
      ScanChars(d, cs[1..]);
    }
  }

  lemma ScanOne(s: Scanner, b: byte)
    ensures Scan(s, [b]) == ScanByte(s, b)
  {
    assert [b][1..] == [];
  }

  /** Nothing inside a string counts, brackets and escaped quotes included. */
  lemma ScanString(d: nat, cs: seq<StringChar>)
    requires CharsOk(cs)
    ensures Scan(Outside(d), RenderString(cs)) == Outside(d)
  {
    ScanAppend(Outside(d), [QUOTE] + RenderChars(cs), [QUOTE]);
    ScanAppend(Outside(d), [QUOTE], RenderChars(cs));
    ScanOne(Outside(d), QUOTE);
    ScanChars(d, cs);
    ScanOne(Inside(d), QUOTE);
  }

  /** The state after a text that nests `depth` deep, starting at depth `d`. */
  function Verdict(d: nat, depth: nat): Scanner {
    if d + depth <= MAX_JSON_NESTING then Outside(d) else Rejected
  }

  /** Two pieces in a row reach the deeper of their depths. */
  lemma ScanBoth(d: nat, a: seq<byte>, b: seq<byte>, depthA: nat, depthB: nat)
    requires Scan(Outside(d), a) == Verdict(d, depthA) && Scan(Outside(d), b) == Verdict(d, depthB)
    ensures Scan(Outside(d), a + b) == Verdict(d, Max(depthA, depthB))
  {
    ScanAppend(Outside(d), a, b);
    RejectedStays(b);
  }

  /** Brackets around a piece make it one deeper. */
  lemma ScanBracketed(d: nat, open: byte, inside: seq<byte>, close: byte, depth: nat)
    requires open == OPEN_BRACKET || open == OPEN_BRACE
    requires close == CLOSE_BRACKET || close == CLOSE_BRACE
    requires d + 1 <= MAX_JSON_NESTING ==> Scan(Outside(d + 1), inside) == Verdict(d + 1, depth)
    ensures Scan(Outside(d), [open] + inside + [close]) == Verdict(d, 1 + depth)
  {
    ScanAppend(Outside(d), [open] + inside, [close]);
    ScanAppend(Outside(d), [open], inside);
    ScanOne(Outside(d), open);
    RejectedStays(inside);
    RejectedStays([close]);
    ScanOne(Outside(d + 1), close);
  }

  lemma ScanPadded(d: nat, before: seq<byte>, body: seq<byte>, after: seq<byte>, depth: nat)
    requires d <= MAX_JSON_NESTING && Neutral(before) && Neutral(after)
    requires Scan(Outside(d), body) == Verdict(d, depth)
    ensures Scan(Outside(d), before + body + after) == Verdict(d, depth)
  {
    ScanNeutral(d, before);
    ScanNeutral(d, after);
    ScanBoth(d, before, body, 0, depth);
    ScanBoth(d, before + body, after, depth, 0);
  }

  lemma NumberIsNeutral(n: NumberToken)
    requires NumberOk(n)
    ensures Neutral(RenderNumber(n))
  {
    var fraction := if n.fraction.Some? then [0x2E] + n.fraction.value else [];
    assert Neutral(n.whole) && Neutral(fraction);
    var exponent := if n.exponent.Some? then
         [n.exponent.value.letter] + (if n.exponent.value.sign.Some? then [n.exponent.value.sign.value] else [])
         + n.exponent.value.digits
       else [];
    assert Neutral(exponent);
  }

  /** An element or field followed by nothing, or by a comma and the others. */
  lemma ScanListed(d: nat, first: seq<byte>, last: bool, others: seq<byte>, depth: nat, deep: nat)
    requires d <= MAX_JSON_NESTING && Scan(Outside(d), first) == Verdict(d, depth)
    requires if last then deep == 0 else Scan(Outside(d), others) == Verdict(d, deep)
    ensures Scan(Outside(d), first + if last then [] else [COMMA] + others) == Verdict(d, Max(depth, deep))
  {
    if last {
      assert first + [] == first;
    } else {
      ScanNeutral(d, [COMMA]);
      ScanBoth(d, [COMMA], others, 0, deep);
      ScanBoth(d, first, [COMMA] + others, depth, deep);
    }
  }

  lemma WhitespaceIsNeutral(s: seq<byte>)
    requires Whitespace(s)
    ensures Neutral(s)
  {}

  lemma ScanElement(d: nat, before: seq<byte>, body: seq<byte>, after: seq<byte>, depth: nat)
    requires d <= MAX_JSON_NESTING && Whitespace(before) && Whitespace(after)
    requires Scan(Outside(d), body) == Verdict(d, depth)
    ensures Scan(Outside(d), before + body + after) == Verdict(d, depth)
  {
    WhitespaceIsNeutral(before);
    WhitespaceIsNeutral(after);
    ScanPadded(d, before, body, after, depth);
  }

  lemma ScanPair(d: nat, before: seq<byte>, key: seq<StringChar>, mid: seq<byte>,
                 pre: seq<byte>, body: seq<byte>, after: seq<byte>, depth: nat)
    requires d <= MAX_JSON_NESTING && Whitespace(before) && CharsOk(key) && Whitespace(mid)
    requires Whitespace(pre) && Whitespace(after) && Scan(Outside(d), body) == Verdict(d, depth)
    ensures Scan(Outside(d), before + RenderString(key) + mid + [COLON] + pre + body + after) == Verdict(d, depth)
  {
    ScanString(d, key);
    WhitespaceIsNeutral(before);
    WhitespaceIsNeutral(mid);
    ScanPadded(d, before, RenderString(key), mid + [COLON], 0);
    ScanElement(d, pre, body, after, depth);
    var name := before + RenderString(key) + (mid + [COLON]);
    ScanBoth(d, name, pre + body + after, 0, depth);
    assert before + RenderString(key) + mid + [COLON] + pre + body + after == name + (pre + body + after);
  }

  lemma ScanContainer(d: nat, open: byte, inner: seq<byte>, empty: bool, others: seq<byte>, close: byte, depth: nat)
    requires open == OPEN_BRACKET || open == OPEN_BRACE
    requires close == CLOSE_BRACKET || close == CLOSE_BRACE
    requires Whitespace(inner) && (empty ==> depth == 0)
    requires d + 1 <= MAX_JSON_NESTING ==> Scan(Outside(d + 1), others) == Verdict(d + 1, depth)
    ensures Scan(Outside(d), [open] + (if empty then inner else others) + [close]) == Verdict(d, 1 + depth)
  {
    if empty && d + 1 <= MAX_JSON_NESTING {
      ScanNeutral(d + 1, inner);
    }
    ScanBracketed(d, open, if empty then inner else others, close, depth);
  }

  lemma LiteralIsNeutral(t: Text)
    requires t.NullText? || t.TrueText? || t.FalseText?
    ensures Neutral(Render(t)) && Depth(Meaning(t)) == 0
  {}

  lemma ScanLeaf(d: nat, t: Text)
    requires TextOk(t) && d <= MAX_JSON_NESTING && !t.ArrayText? && !t.ObjectText?
    ensures Scan(Outside(d), Render(t)) == Outside(d) && Depth(Meaning(t)) == 0
  {
    match t
    case NumberText(n) =>
      NumberIsNeutral(n);
      ScanNeutral(d, RenderNumber(n));
    case StringText(cs) => ScanString(d, cs);
    case _ =>
      LiteralIsNeutral(t);
      ScanNeutral(d, Render(t));
  }

  lemma {:induction false} ScanText(d: nat, t: Text)
    requires TextOk(t) && d <= MAX_JSON_NESTING
    ensures Scan(Outside(d), Render(t)) == Verdict(d, Depth(Meaning(t)))
    decreases t, 1
  {
    if t.ArrayText? {
      ScanArray(d, t.inner, t.elements);
    } else if t.ObjectText? {
      ScanObject(d, t.inner, t.fields);
    } else {
      ScanLeaf(d, t);
    }
  }

  lemma {:induction false} ScanArray(d: nat, inner: seq<byte>, elements: Elements)
    requires Whitespace(inner) && ElementsOk(elements) && d <= MAX_JSON_NESTING
    ensures Scan(Outside(d), [OPEN_BRACKET] + (if elements.NoElements? then inner else RenderElements(elements))
                             + [CLOSE_BRACKET])
            == Verdict(d, 1 + ItemsDepth(ElementsMeaning(elements)))
    decreases elements, 1
  {
    if d + 1 <= MAX_JSON_NESTING {
      ScanElements(d + 1, elements);
    }
    ScanContainer(d, OPEN_BRACKET, inner, elements.NoElements?, RenderElements(elements), CLOSE_BRACKET,
                  ItemsDepth(ElementsMeaning(elements)));
  }

  lemma {:induction false} ScanObject(d: nat, inner: seq<byte>, fields: Fields)
    requires Whitespace(inner) && FieldsOk(fields) && d <= MAX_JSON_NESTING
    ensures Scan(Outside(d), [OPEN_BRACE] + (if fields.NoFields? then inner else RenderFields(fields)) + [CLOSE_BRACE])
            == Verdict(d, 1 + MembersDepth(FieldsMeaning(fields)))
    decreases fields, 1
  {
    if d + 1 <= MAX_JSON_NESTING {
      ScanFields(d + 1, fields);
    }
    ScanContainer(d, OPEN_BRACE, inner, fields.NoFields?, RenderFields(fields), CLOSE_BRACE,
                  MembersDepth(FieldsMeaning(fields)));
  }

  lemma {:induction false} ScanElements(d: nat, es: Elements)
    requires ElementsOk(es) && d <= MAX_JSON_NESTING
    ensures Scan(Outside(d), RenderElements(es)) == Verdict(d, ItemsDepth(ElementsMeaning(es)))
    decreases es, 0
  {
    if es.NoElements? {
    } else {
      ScanText(d, es.text);
      ScanElement(d, es.before, Render(es.text), es.after, Depth(Meaning(es.text)));
      ScanElements(d, es.others);
      ScanListed(d, es.before + Render(es.text) + es.after, es.others.NoElements?, RenderElements(es.others),
                 Depth(Meaning(es.text)), ItemsDepth(ElementsMeaning(es.others)));
    }
  }

  lemma {:induction false} ScanFields(d: nat, fs: Fields)
    requires FieldsOk(fs) && d <= MAX_JSON_NESTING
    ensures Scan(Outside(d), RenderFields(fs)) == Verdict(d, MembersDepth(FieldsMeaning(fs)))
    decreases fs, 0
  {
    if fs.NoFields? {
    } else {
      ScanText(d, fs.text);
      ScanPair(d, fs.before, fs.key, fs.mid, fs.pre, Render(fs.text), fs.after, Depth(Meaning(fs.text)));
      ScanFields(d, fs.others);
      ScanListed(d, fs.before + RenderString(fs.key) + fs.mid + [COLON] + fs.pre + Render(fs.text) + fs.after,
                 fs.others.NoFields?, RenderFields(fs.others), Depth(Meaning(fs.text)),
                 MembersDepth(FieldsMeaning(fs.others)));
    }
  }

  /** For every value and every way of writing it, the scanner accepts exactly the values
      nested at most 128 deep. */
  lemma AcceptsIffShallow(bytes: seq<byte>, v: Json)
    requires IsTextOf(bytes, v)
    ensures Scan(Outside(0), bytes) != Rejected <==> Depth(v) <= 128
  {
    var before, t, after :| WritesDown(bytes, v, before, t, after);
    ScanText(0, t);
    ScanElement(0, before, Render(t), after, Depth(v));
  }

  /** `n` arrays, one in the other. */
  function Nested(n: nat): Text
  {
    if n == 0 then ArrayText([], NoElements) else ArrayText([], Element([], Nested(n - 1), [], NoElements))
  }

  lemma {:induction false} NestedDepth(n: nat)
    ensures TextOk(Nested(n)) && Depth(Meaning(Nested(n))) == n + 1
  {
    if n == 0 {
    } else {
      NestedDepth(n - 1);
    }
  }

  /** The limit is met on both sides: 128 nested arrays pass and 129 do not. */
  lemma NestedArrays(n: nat)
    ensures Scan(Outside(0), Render(Nested(n))) != Rejected <==> n < 128
  {
    NestedDepth(n);
    ScanText(0, Nested(n));
  }

  /** They are written as that many opening and then closing brackets. */
  lemma NestedText(n: nat)
    ensures Render(Nested(0)) == ['[' as int] + [']' as int]
    ensures Render(Nested(n + 1)) == ['[' as int] + Render(Nested(n)) + [']' as int]
  {
    var inner := Render(Nested(n));
    assert RenderElements(Element([], Nested(n), [], NoElements)) == [] + inner + [] + [] == inner;
    assert ['[' as int] + [] == ['[' as int];
  }

  // ---- Every value has a text ----

  /** `literal` is a number as RFC 8259 writes one. */
  ghost predicate IsNumber(literal: seq<byte>) {
    exists n :: NumberOk(n) && RenderNumber(n) == literal
  }

  predicate CodeUnits(units: seq<nat>) {
    forall i :: 0 <= i < |units| ==> units[i] < 0x1_0000
  }

  /** A value that JSON can hold: its numbers are JSON numbers, its strings 16-bit code units. */
  ghost predicate Writable(v: Json)
  {
    match v
    case Number(literal) => IsNumber(literal)
    case String(units) => CodeUnits(units)
    case Array(items) => ItemsWritable(items)
    case Object(members) => MembersWritable(members)
    case _ => true
  }

  ghost predicate ItemsWritable(items: JsonList)
  {
    match items
    case NoItems => true
    case Item(head, tail) => Writable(head) && ItemsWritable(tail)
  }

  ghost predicate MembersWritable(members: JsonMembers)
  {
    match members
    case NoMembers => true
    case Member(key, value, rest) => CodeUnits(key) && Writable(value) && MembersWritable(rest)
  }

  function Hex(n: nat): byte
    requires n < 16
  {
    if n < 10 then 0x30 + n else 0x41 + (n - 10)
  }

  lemma HexIs(n: nat)
    requires n < 16
    ensures HexDigit(Hex(n)) && HexValue(Hex(n)) == n
  {}

  lemma HexOfUnit(u: nat) returns (c: StringChar)
    requires u < 0x1_0000
    ensures CharOk(c) && CharUnits(c) == [u]
  {
    var (high, low) := (u / 0x100, u % 0x100);
    var (a, b, d, e) := (high / 16, high % 16, low / 16, low % 16);
    HexIs(a);
    HexIs(b);
    HexIs(d);
    HexIs(e);
    c := Unicode([Hex(a), Hex(b), Hex(d), Hex(e)]);
    HexSum(a, b, d, e, u);
  }

  lemma HexSum(a: nat, b: nat, d: nat, e: nat, u: nat)
    requires u / 0x100 == a * 16 + b && u % 0x100 == d * 16 + e
    ensures ((a * 16 + b) * 16 + d) * 16 + e == u
  {}

  lemma {:induction false} WriteUnits(units: seq<nat>) returns (cs: seq<StringChar>)
    requires CodeUnits(units)
    ensures CharsOk(cs) && Units(cs) == units
  {
    if units == [] {
      cs := [];
    } else {
      var first := HexOfUnit(units[0]);
      var rest := WriteUnits(units[1..]);
      cs := [first] + rest;
      assert cs[1..] == rest;
    }
  }

  lemma {:induction false} WriteValue(v: Json) returns (t: Text)
    requires Writable(v)
    ensures TextOk(t) && Meaning(t) == v
    decreases v
  {
    match v
    case Null => t := NullText;
    case Bool(value) => t := if value then TrueText else FalseText;
    case Number(literal) =>
      var n :| NumberOk(n) && RenderNumber(n) == literal;
      t := NumberText(n);
    case String(units) =>
      var cs := WriteUnits(units);
      t := StringText(cs);
    case Array(items) =>
      var es := WriteItems(items);
      t := ArrayText([], es);
    case Object(members) =>
      var fs := WriteMembers(members);
      t := ObjectText([], fs);
  }

  lemma {:induction false} WriteItems(items: JsonList) returns (es: Elements)
    requires ItemsWritable(items)
    ensures ElementsOk(es) && ElementsMeaning(es) == items
    decreases items
  {
    match items
    case NoItems => es := NoElements;
    case Item(head, tail) =>
      var t := WriteValue(head);
      var rest := WriteItems(tail);
      es := Element([], t, [], rest);
  }

  lemma {:induction false} WriteMembers(members: JsonMembers) returns (fs: Fields)
    requires MembersWritable(members)
    ensures FieldsOk(fs) && FieldsMeaning(fs) == members
    decreases members
  {
    match members
    case NoMembers => fs := NoFields;
    case Member(key, value, rest) =>
      var cs := WriteUnits(key);
      var t := WriteValue(value);
      var others := WriteMembers(rest);
      fs := Pair([], cs, [], [], t, [], others);
  }

  /** So the guard decides every value JSON can hold: it has a text, and each of its texts is
      accepted exactly if it nests at most 128 deep. */
  lemma EveryValueIsDecided(v: Json)
    requires Writable(v)
    ensures exists bytes :: IsTextOf(bytes, v) && (Scan(Outside(0), bytes) != Rejected <==> Depth(v) <= 128)
  {
    var t := WriteValue(v);
    var bytes := [] + Render(t) + [];
    assert WritesDown(bytes, v, [], t, []);
    AcceptsIffShallow(bytes, v);
  }

  /** The characters the guard and the grammar are about. */
  lemma PunctuationIs()
    ensures QUOTE == '"' as int && BACKSLASH == '\\' as int && COMMA == ',' as int && COLON == ':' as int
    ensures OPEN_BRACKET == '[' as int && CLOSE_BRACKET == ']' as int
    ensures OPEN_BRACE == '{' as int && CLOSE_BRACE == '}' as int
  {}
}
