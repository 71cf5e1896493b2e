/** Small vocabulary shared by the other modules: results, bytes, UTF-8, and the
    `split`/`join` pair behind every line- and key-oriented format of the framework. */
module Prelude {

  datatype Option<+T> = None | Some(value: T)

  datatype Result<+T, +E> = Ok(value: T) | Err(error: E)

  type byte = b: int | 0 <= b < 256

  /** The numbers a 64-bit machine word can hold are those below this one. */
  const WORD: nat := 0x1_0000_0000_0000_0000

  /** A machine word: storing a larger number in one is a proof obligation. */
  type usize = n: nat | n < WORD

  /** Rust lets no slice, string or buffer be longer than this. */
  const ISIZE_MAX: nat := 0x7FFF_FFFF_FFFF_FFFF

  /** The bytes UTF-8 uses for one Unicode scalar value. */
  function Utf8(c: char): (bytes: seq<byte>)
    ensures c as int < 0x80 ==> bytes == [c as int]
    ensures c as int >= 0x80 ==> forall i :: 0 <= i < |bytes| ==> bytes[i] >= 0x80
  {
    var n := c as int;
    if n < 0x80 then [n]
    else if n < 0x800 then [0xC0 + n / 0x40, 0x80 + n % 0x40]
    else if n < 0x1_0000 then [0xE0 + n / 0x1000, 0x80 + n / 0x40 % 0x40, 0x80 + n % 0x40]
    else [0xF0 + n / 0x4_0000, 0x80 + n / 0x1000 % 0x40, 0x80 + n / 0x40 % 0x40, 0x80 + n % 0x40]
  }

  /** `str::len`: the number of UTF-8 bytes, not of characters. */
  function Utf8Len(s: string): nat
  {
    if s == "" then 0 else |Utf8(s[0])| + Utf8Len(s[1..])
  }

  /** The bytes of a text. */
  function Utf8Bytes(s: string): seq<byte>
  {
    if s == "" then [] else Utf8(s[0]) + Utf8Bytes(s[1..])
  }

  /** Counting byte lengths character by character counts the bytes of the whole text. */
  lemma {:induction false} Utf8LenIs(s: string)
    ensures Utf8Len(s) == |Utf8Bytes(s)|
  {
    if s == "" {
    } else {
      Utf8LenIs(s[1..]);
    }
  }

  /** The code point some bytes encode (RFC 3629, section 3): its bits are in the lead byte and,
      six to each, in the continuation bytes. */
  function CodePoint(b: seq<byte>): int {
    if |b| == 1 then b[0] as int
    else if |b| == 2 then (b[0] as int - 0xC0) * 0x40 + (b[1] as int - 0x80)
    else if |b| == 3 then (b[0] as int - 0xE0) * 0x1000 + (b[1] as int - 0x80) * 0x40 + (b[2] as int - 0x80)
    else if |b| == 4 then
      (b[0] as int - 0xF0) * 0x4_0000 + (b[1] as int - 0x80) * 0x1000 + (b[2] as int - 0x80) * 0x40
      + (b[3] as int - 0x80)
    else -1
  }

  lemma SixBits(n: nat)
    ensures n / 0x1000 == n / 0x40 / 0x40 && n / 0x4_0000 == n / 0x1000 / 0x40
    ensures n == n / 0x40 * 0x40 + n % 0x40
    ensures n == n / 0x1000 * 0x1000 + n / 0x40 % 0x40 * 0x40 + n % 0x40
  {
    var (m, k) := (n / 0x40, n / 0x1000);
    assert m == m / 0x40 * 0x40 + m % 0x40;
    assert k == k / 0x40 * 0x40 + k % 0x40;
  }

  /** One to four bytes by the size of the code point, which they encode. */
  lemma Utf8IsWellFormed(c: char)
    ensures var n := c as int;
            |Utf8(c)| == if n < 0x80 then 1 else if n < 0x800 then 2 else if n < 0x1_0000 then 3 else 4
    ensures CodePoint(Utf8(c)) == c as int
    ensures forall i :: 0 < i < |Utf8(c)| ==> 0x80 <= Utf8(c)[i] <= 0xBF
  {
    SixBits(c as int);
    SixBits(c as int / 0x40);
  }

  lemma ConcatAssoc<T>(a: seq<T>, b: seq<T>, c: seq<T>)
    ensures a + b + c == a + (b + c)
  {}

  function Flatten<T>(parts: seq<seq<T>>): seq<T>
  {
    if parts == [] then [] else parts[0] + Flatten(parts[1..])
  }

  lemma {:induction false} FlattenAppend<T>(a: seq<seq<T>>, b: seq<seq<T>>)
    ensures Flatten(a + b) == Flatten(a) + Flatten(b)
  {
    if a == [] {
      assert a + b == b;
    } else {
      assert (a + b)[1..] == a[1..] + b;
      FlattenAppend(a[1..], b);
    }
  }

  /** Taking one more part appends that part. */
  lemma FlattenStep<T>(parts: seq<seq<T>>, i: nat)
    requires i < |parts|
    ensures Flatten(parts[..i + 1]) == Flatten(parts[..i]) + parts[i]
  {
    assert parts[..i + 1] == parts[..i] + [parts[i]];
    FlattenAppend(parts[..i], [parts[i]]);
    assert Flatten([parts[i]]) == parts[i];
  }

  function Reverse<T>(s: seq<T>): seq<T>
  {
    if s == [] then [] else Reverse(s[1..]) + [s[0]]
  }

  /** The last comes first. */
  lemma {:induction false} ReverseAt<T>(s: seq<T>, k: nat)
    requires k < |s|
    ensures |Reverse(s)| == |s| && Reverse(s)[k] == s[|s| - 1 - k]
  {
    if |s| == 1 {
      assert s[1..] == [];
    } else {
      ReverseAt(s[1..], if k < |s| - 1 then k else 0);
    }
  }

  /** `str::split(sep)`: always at least one piece, and an empty text is one empty piece. */
  function Split(s: string, sep: char): (pieces: seq<string>)
    ensures |pieces| >= 1
  {
    if s == "" then [""]
    else if s[0] == sep then [""] + Split(s[1..], sep)
    else
      var rest := Split(s[1..], sep);
      [[s[0]] + rest[0]] + rest[1..]
  }

  /** Every piece lacks the separator and holds only characters of the text. */
  lemma {:induction false} SplitPieces(s: string, sep: char)
    ensures forall i :: 0 <= i < |Split(s, sep)| ==> sep !in Split(s, sep)[i]
    ensures forall i, c :: 0 <= i < |Split(s, sep)| && c in Split(s, sep)[i] ==> c in s
  {
    if s == "" {
    } else {
      SplitPieces(s[1..], sep);
      assert s == [s[0]] + s[1..];
    }
  }

  /** A text without the separator is its own only piece, and the only text that is. */
  lemma {:induction false} SplitWhole(s: string, sep: char)
    ensures sep !in s ==> Split(s, sep) == [s]
    ensures |Split(s, sep)| == 1 ==> Split(s, sep) == [s]
  {
    if s == "" {
    } else {
      SplitWhole(s[1..], sep);
      assert s == [s[0]] + s[1..];
    }
  }

  function Join(pieces: seq<string>, sep: string): string
  {
    if pieces == [] then "" else if |pieces| == 1 then pieces[0] else pieces[0] + sep + Join(pieces[1..], sep)
  }

  /** Joining the pieces gives the text back. */
  lemma {:induction false} SplitJoins(s: string, sep: char)
    ensures Join(Split(s, sep), [sep]) == s
  {
    if s == "" {
    } else {
      var rest := Split(s[1..], sep);
      SplitJoins(s[1..], sep);
      assert s == [s[0]] + s[1..];
      if s[0] == sep {
        assert ([""] + rest)[1..] == rest && "" + [sep] + s[1..] == s;
      } else {
        JoinFirst([s[0]], rest, [sep]);
      }
    }
  }

  lemma JoinFirst(front: string, pieces: seq<string>, sep: string)
    requires pieces != []
    ensures Join([front + pieces[0]] + pieces[1..], sep) == front + Join(pieces, sep)
  {
    assert ([front + pieces[0]] + pieces[1..])[1..] == pieces[1..];
    ConcatAssoc(front, pieces[0], sep);
    ConcatAssoc(front, pieces[0] + sep, Join(pieces[1..], sep));
  }
}
