/** Escaping text for HTML and for the generated documents. */
module Escaping {
  /** `str::replace` of one character by a text. */
  function Replace(s: string, c: char, with: string): string
  {
    if s == "" then "" else (if s[0] == c then with else [s[0]]) + Replace(s[1..], c, with)
  }

  /** Six passes, the ampersand first. */
  function HtmlEscape(input: string): string {
    Replace(Replace(Replace(Replace(Replace(Replace(input,
      '&', "&amp;"), '<', "&lt;"), '>', "&gt;"), '"', "&quot;"), '\'', "&#x27;"), '`', "&#x60;")
  }

  function Entity(c: char): string {
    if c == '&' then "&amp;"
    else if c == '<' then "&lt;"
    else if c == '>' then "&gt;"
    else if c == '"' then "&quot;"
    else if c == '\'' then "&#x27;"
    else if c == '`' then "&#x60;"
    else [c]
  }

  /** Every reserved character replaced at once. */
  function EscapeEach(input: string): string
  {
    if input == "" then "" else Entity(input[0]) + EscapeEach(input[1..])
  }

  lemma {:induction false} ReplaceAppend(a: string, b: string, c: char, with: string)
    ensures Replace(a + b, c, with) == Replace(a, c, with) + Replace(b, c, with)
  {
    if a == "" {
      assert a + b == b;
    } else {
      assert (a + b)[1..] == a[1..] + b;
      ReplaceAppend(a[1..], b, c, with);
    }
  }

  lemma {:induction false} ReplaceAbsent(s: string, c: char, with: string)
    requires c !in s
    ensures Replace(s, c, with) == s
  {
    if s == "" {
    } else {
      ReplaceAbsent(s[1..], c, with);
    }
  }

  lemma HtmlEscapeAppend(a: string, b: string)
    ensures HtmlEscape(a + b) == HtmlEscape(a) + HtmlEscape(b)
  {
    ReplaceAppend(a, b, '&', "&amp;");
    var (a1, b1) := (Replace(a, '&', "&amp;"), Replace(b, '&', "&amp;"));
    ReplaceAppend(a1, b1, '<', "&lt;");
    var (a2, b2) := (Replace(a1, '<', "&lt;"), Replace(b1, '<', "&lt;"));
    ReplaceAppend(a2, b2, '>', "&gt;");
    var (a3, b3) := (Replace(a2, '>', "&gt;"), Replace(b2, '>', "&gt;"));
    ReplaceAppend(a3, b3, '"', "&quot;");
    var (a4, b4) := (Replace(a3, '"', "&quot;"), Replace(b3, '"', "&quot;"));
    ReplaceAppend(a4, b4, '\'', "&#x27;");
    ReplaceAppend(Replace(a4, '\'', "&#x27;"), Replace(b4, '\'', "&#x27;"), '`', "&#x60;");
  }

  /** The characters in the order of their passes, the first being 1. */
  function Rank(c: char): nat {
    if c == '&' then 1 else if c == '<' then 2 else if c == '>' then 3
    else if c == '"' then 4 else if c == '\'' then 5 else if c == '`' then 6 else 7
  }

  /** Entities hold none of the characters that the passes after the first look for. */
  lemma EntityIsInert(c: char, target: char)
    requires Rank(c) < 7 && 1 < Rank(target) < 7
    ensures target !in Entity(c)
  {}

  /** What a character has become after the first `passes` passes. */
  function Partly(c: char, passes: nat): string {
    if Rank(c) <= passes && Rank(c) < 7 then Entity(c) else [c]
  }

  /** The next pass replaces its own character and leaves earlier entities alone. */
  lemma Pass(c: char, target: char)
    requires Rank(target) < 7
    ensures Replace(Partly(c, Rank(target) - 1), target, Entity(target)) == Partly(c, Rank(target))
  {
    if Rank(c) < Rank(target) {
      EntityIsInert(c, target);
      ReplaceAbsent(Entity(c), target, Entity(target));
    } else {
      assert [c][1..] == "";
    }
  }

  lemma FirstThreePasses(c: char)
    ensures Replace(Replace(Replace([c], '&', "&amp;"), '<', "&lt;"), '>', "&gt;") == Partly(c, 3)
  {
    Pass(c, '&');
    Pass(c, '<');
    Pass(c, '>');
    assert Partly(c, 0) == [c];
  }

  lemma LastThreePasses(c: char)
    ensures Replace(Replace(Replace(Partly(c, 3), '"', "&quot;"), '\'', "&#x27;"), '`', "&#x60;") == Partly(c, 6)
  {
    Pass(c, '"');
    Pass(c, '\'');
    Pass(c, '`');
  }

  lemma HtmlEscapeOne(c: char)
    ensures HtmlEscape([c]) == Entity(c)
  {
    FirstThreePasses(c);
    LastThreePasses(c);
  }

  /** The six passes in this order are one simultaneous substitution. */
  lemma {:induction false} SixPassesAreOne(input: string)
    ensures HtmlEscape(input) == EscapeEach(input)
  {
    if input == "" {
    } else {
      assert input == [input[0]] + input[1..];
      HtmlEscapeAppend([input[0]], input[1..]);
      HtmlEscapeOne(input[0]);
      SixPassesAreOne(input[1..]);
    }
  }

  // ---- Reading it back ----

  /** Replaces each of the six entities by its character, left to right. */
  function Unescape(s: string): string
    decreases |s|
  {
    if s == "" then ""
    else if "&amp;" <= s then ['&'] + Unescape(s[5..])
    else if "&lt;" <= s then ['<'] + Unescape(s[4..])
    else if "&gt;" <= s then ['>'] + Unescape(s[4..])
    else if "&quot;" <= s then ['"'] + Unescape(s[6..])
    else if "&#x27;" <= s then ['\''] + Unescape(s[6..])
    else if "&#x60;" <= s then ['`'] + Unescape(s[6..])
    else [s[0]] + Unescape(s[1..])
  }

  lemma UnescapeShortEntity(c: char, rest: string)
    requires c == '&' || c == '<' || c == '>'
    ensures Unescape(Entity(c) + rest) == [c] + Unescape(rest)
  {
    var s := Entity(c) + rest;
    if c == '&' { assert s[5..] == rest; } else { assert s[1] != 'a' && s[4..] == rest; }
  }

  lemma UnescapeLongEntity(c: char, rest: string)
    requires c == '"' || c == '\'' || c == '`'
    ensures Unescape(Entity(c) + rest) == [c] + Unescape(rest)
  {
    var s := Entity(c) + rest;
    assert s[1] == (if c == '"' then 'q' else '#') && s[6..] == rest;
    if c == '`' { assert s[3] == '6'; }
  }

  lemma UnescapeEntity(c: char, rest: string)
    ensures Unescape(Entity(c) + rest) == [c] + Unescape(rest)
  {
    if c == '&' || c == '<' || c == '>' {
      UnescapeShortEntity(c, rest);
    } else if c == '"' || c == '\'' || c == '`' {
      UnescapeLongEntity(c, rest);
    } else {
      assert ([c] + rest)[0] == c && ([c] + rest)[1..] == rest;
    }
  }

  lemma {:induction false} UnescapeInvertsEach(input: string)
    ensures Unescape(EscapeEach(input)) == input
  {
    if input == "" {
    } else {
      UnescapeEntity(input[0], EscapeEach(input[1..]));
      UnescapeInvertsEach(input[1..]);
    }
  }

  /** Unescaping undoes `html_escape` on every text. */
  lemma UnescapeInvertsHtmlEscape(input: string)
    ensures Unescape(HtmlEscape(input)) == input
  {
    SixPassesAreOne(input);
    UnescapeInvertsEach(input);
  }

  // ---- Document text ----

  /** Unicode control characters (category Cc). */
  predicate IsControl(c: char) {
    c as int < 0x20 || 0x7F <= c as int < 0xA0
  }

  /** Control characters that document text does not keep. */
  predicate Blanked(c: char) {
    IsControl(c) && c != '\n' && c != '\r' && c != '\t'
  }

  function Sanitized(value: string): string
  {
    if value == "" then ""
    else (if Blanked(value[0]) then " " else Entity(value[0])) + Sanitized(value[1..])
  }

  lemma {:induction false} SanitizedAppend(a: string, b: string)
    ensures Sanitized(a + b) == Sanitized(a) + Sanitized(b)
  {
    if a == "" {
      assert a + b == b;
    } else {
      assert (a + b)[1..] == a[1..] + b;
      SanitizedAppend(a[1..], b);
    }
  }

  lemma SanitizedStep(value: string, i: nat)
    requires i < |value|
    ensures Sanitized(value[..i + 1]) == Sanitized(value[..i]) + if Blanked(value[i]) then " " else Entity(value[i])
  {
    assert value[..i + 1] == value[..i] + [value[i]];
    SanitizedAppend(value[..i], [value[i]]);
    assert [value[i]][1..] == "";
  }

  /** One character: reserved ones become their entities, control characters but line ends and
      tabs a blank, and all others stay. Texts are sanitized character by character. */
  lemma SanitizedOne(c: char)
    ensures Sanitized([c]) ==
            if c == '&' then "&amp;" else if c == '<' then "&lt;" else if c == '>' then "&gt;"
            else if c == '"' then "&quot;" else if c == '\'' then "&#x27;" else if c == '`' then "&#x60;"
            else if c == '\n' || c == '\r' || c == '\t' then [c]
            else if c as int <= 0x1F || 0x7F <= c as int <= 0x9F then " "
            else [c]
  {
    assert [c][1..] == "";
  }

  method SanitizeDocText(value: string) returns (sanitized: string)
    ensures sanitized == Sanitized(value)
  {
    sanitized := "";
    for i := 0 to |value|
      invariant sanitized == Sanitized(value[..i])
    {
      var ch := value[i];
      SanitizedStep(value, i);
      var piece: string;
      if ch == '&' { piece := "&amp;"; }
      else if ch == '<' { piece := "&lt;"; }
      else if ch == '>' { piece := "&gt;"; }
      else if ch == '"' { piece := "&quot;"; }
      else if ch == '\'' { piece := "&#x27;"; }
      else if ch == '`' { piece := "&#x60;"; }
      else if ch == '\n' || ch == '\r' || ch == '\t' { piece := [ch]; }
      else if IsControl(ch) { piece := " "; }
      else { piece := [ch]; }
      sanitized := sanitized + piece;
    }
    assert value[..|value|] == value;
  }

  /** The two escapers agree exactly on text without blanked control characters. */
  lemma {:induction false} EscapersAgreeIff(value: string)
    ensures Sanitized(value) == HtmlEscape(value) <==>
            forall i :: 0 <= i < |value| && (value[i] as int <= 0x1F || 0x7F <= value[i] as int <= 0x9F) ==>
              value[i] == '\n' || value[i] == '\r' || value[i] == '\t'
  {
    SixPassesAreOne(value);
    if value != "" {
      EscapersAgreeIff(value[1..]);
      SixPassesAreOne(value[1..]);
      var (x, y) := (if Blanked(value[0]) then " " else Entity(value[0]), Entity(value[0]));
      assert Sanitized(value) == x + Sanitized(value[1..]) && EscapeEach(value) == y + EscapeEach(value[1..]);
      assert x == y <==> !Blanked(value[0]);
      SameFront(x, Sanitized(value[1..]), y, EscapeEach(value[1..]));
    }
  }

  lemma SameFront(x: string, a: string, y: string, b: string)
    requires |x| == |y|
    ensures x + a == y + b <==> x == y && a == b
  {
    if x + a == y + b {
      assert x == (x + a)[..|x|] && y == (y + b)[..|y|];
      assert a == (x + a)[|x|..] && b == (y + b)[|y|..];
    }
  }

  predicate Markup(c: char) {
    c == '<' || c == '>' || c == '"' || c == '\'' || c == '`'
  }

  lemma EntityHasNoMarkup(c: char)
    ensures forall e :: e in Entity(c) ==> !Markup(e) && (!Blanked(c) ==> !Blanked(e))
  {}

  /** Sanitized text holds no markup character and no control character but line ends and tabs. */
  lemma {:induction false} SanitizedIsInert(value: string)
    ensures forall c :: c in Sanitized(value) ==>
              && c != '<' && c != '>' && c != '"' && c != '\'' && c != '`'
              && (c as int <= 0x1F || 0x7F <= c as int <= 0x9F ==> c == '\n' || c == '\r' || c == '\t')
  {
    if value == "" {
    } else {
      EntityHasNoMarkup(value[0]);
      SanitizedIsInert(value[1..]);
    }
  }

  /** So is escaped text free of markup characters: only entities remain. */
  lemma EscapedIsInert(input: string)
    ensures forall c :: c in HtmlEscape(input) ==> c != '<' && c != '>' && c != '"' && c != '\'' && c != '`'
  {
    SixPassesAreOne(input);
    EscapeEachIsInert(input);
  }

  lemma {:induction false} EscapeEachIsInert(input: string)
    ensures forall c :: c in EscapeEach(input) ==> !Markup(c)
  {
    if input == "" {
    } else {
      EntityHasNoMarkup(input[0]);
      EscapeEachIsInert(input[1..]);
    }
  }
}
