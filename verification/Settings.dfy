/** Nested settings: values inserted along paths of object keys. */
module Settings {
  import opened Prelude

  /** A JSON value: an object, or anything else kept as its text. */
  datatype Value = Scalar(text: string) | Object(fields: map<string, Value>)

  type Fields = map<string, Value>

  /** The object a path continues into: what is there, or a new one in place of a scalar. */
  function Child(root: Fields, key: string): Fields {
    if key in root && root[key].Object? then root[key].fields else map[]
  }

  function InsertNested(root: Fields, parts: seq<string>, value: Value): Fields
    decreases |parts|
  {
    if parts == [] then root
    else if |parts| == 1 then root[parts[0] := value]
    else root[parts[0] := Object(InsertNested(Child(root, parts[0]), parts[1..], value))]
  }

  function Lookup(root: Fields, parts: seq<string>): Option<Value>
    decreases |parts|
  {
    if parts == [] then Some(Object(root))
    else if parts[0] !in root then None
    else if |parts| == 1 then Some(root[parts[0]])
    else if root[parts[0]].Object? then Lookup(root[parts[0]].fields, parts[1..])
    else None
  }

  predicate Incomparable(p: seq<string>, q: seq<string>) {
    !(p <= q) && !(q <= p)
  }

  lemma TailsIncomparable(p: seq<string>, q: seq<string>)
    requires Incomparable(p, q)
    ensures p != [] && q != []
    ensures p[0] == q[0] ==> |p| > 1 && |q| > 1 && Incomparable(p[1..], q[1..])
  {
    assert p == [p[0]] + p[1..] && q == [q[0]] + q[1..];
    assert p[0] == q[0] && p[1..] <= q[1..] ==> p <= q;
    assert p[0] == q[0] && q[1..] <= p[1..] ==> q <= p;
  }

  // ---- Lens laws ----

  lemma {:induction false} LookupInserted(root: Fields, p: seq<string>, v: Value)
    requires p != []
    ensures Lookup(InsertNested(root, p, v), p) == Some(v)
    decreases |p|
  {
    if |p| > 1 {
      LookupInserted(Child(root, p[0]), p[1..], v);
    }
  }

  lemma {:induction false} LookupElsewhere(root: Fields, p: seq<string>, v: Value, q: seq<string>)
    requires Incomparable(p, q)
    ensures Lookup(InsertNested(root, p, v), q) == Lookup(root, q)
    decreases |p|
  {
    TailsIncomparable(p, q);
    if p[0] == q[0] {
      LookupElsewhere(Child(root, p[0]), p[1..], v, q[1..]);
      NothingInEmpty(q[1..]);
    }
  }

  /** An empty path names nothing to insert at. */
  lemma EmptyPathInsertsNothing(root: Fields, v: Value)
    ensures InsertNested(root, [], v) == root
  {}

  lemma NothingInEmpty(q: seq<string>)
    requires q != []
    ensures Lookup(map[], q) == None
  {}

  lemma {:induction false} LastInsertWins(root: Fields, p: seq<string>, v: Value, w: Value)
    ensures InsertNested(InsertNested(root, p, v), p, w) == InsertNested(root, p, w)
    decreases |p|
  {
    if |p| > 1 {
      LastInsertWins(Child(root, p[0]), p[1..], v, w);
    }
  }

  /** Inserts under different keys do not meet. */
  lemma HeadsApart(root: Fields, p: seq<string>, v: Value, q: seq<string>, w: Value)
    requires p != [] && q != [] && p[0] != q[0]
    ensures InsertNested(InsertNested(root, p, v), q, w) == InsertNested(InsertNested(root, q, w), p, v)
  {
    var (x, y) := (Inserted(root, p, v), Inserted(root, q, w));
    assert Inserted(InsertNested(root, p, v), q, w) == y && Inserted(InsertNested(root, q, w), p, v) == x;
    UpdatesCommute(root, p[0], x, q[0], y);
  }

  lemma UpdatesCommute<K, V>(m: map<K, V>, a: K, x: V, b: K, y: V)
    requires a != b
    ensures m[a := x][b := y] == m[b := y][a := x]
  {}

  /** Inserts under the same key meet in that key's object. */
  lemma HeadsMeet(root: Fields, p: seq<string>, v: Value, q: seq<string>, w: Value)
    requires |p| > 1 && |q| > 1 && p[0] == q[0]
    requires var child := Child(root, p[0]);
             InsertNested(InsertNested(child, p[1..], v), q[1..], w)
             == InsertNested(InsertNested(child, q[1..], w), p[1..], v)
    ensures InsertNested(InsertNested(root, p, v), q, w) == InsertNested(InsertNested(root, q, w), p, v)
  {
    TwoUnderOneKey(root, p, v, q, w);
    TwoUnderOneKey(root, q, w, p, v);
  }

  lemma TwoUnderOneKey(root: Fields, p: seq<string>, v: Value, q: seq<string>, w: Value)
    requires |p| > 1 && |q| > 1 && p[0] == q[0]
    ensures InsertNested(InsertNested(root, p, v), q, w) ==
            root[p[0] := Object(InsertNested(InsertNested(Child(root, p[0]), p[1..], v), q[1..], w))]
  {
    var first := InsertNested(root, p, v);
    var inner := InsertNested(Child(root, p[0]), p[1..], v);
    assert first == root[p[0] := Object(inner)];
    assert Child(first, q[0]) == inner;
    var x := Object(InsertNested(inner, q[1..], w));
    assert InsertNested(first, q, w) == first[q[0] := x];
    assert root[p[0] := Object(inner)][p[0] := x] == root[p[0] := x];
  }

  /** What an insert puts under the first key of its path. */
  function Inserted(root: Fields, p: seq<string>, v: Value): Value
    requires p != []
  {
    if |p| == 1 then v else Object(InsertNested(Child(root, p[0]), p[1..], v))
  }

  lemma {:induction false} InsertsCommute(root: Fields, p: seq<string>, v: Value, q: seq<string>, w: Value)
    requires Incomparable(p, q)
    ensures InsertNested(InsertNested(root, p, v), q, w) == InsertNested(InsertNested(root, q, w), p, v)
    decreases |p|
  {
    TailsIncomparable(p, q);
    if p[0] != q[0] {
      HeadsApart(root, p, v, q, w);
    } else {
      InsertsCommute(Child(root, p[0]), p[1..], v, q[1..], w);
      HeadsMeet(root, p, v, q, w);
    }
  }

  /** A shorter path sees the longer one's insertion as an object. */
  lemma {:induction false} PrefixSeesObject(root: Fields, p: seq<string>, q: seq<string>, w: Value)
    requires p != [] && p <= q && |p| < |q|
    ensures Lookup(InsertNested(root, q, w), p).Some? && Lookup(InsertNested(root, q, w), p).value.Object?
    decreases |p|
  {
    if |p| > 1 {
      assert p[0] == q[0] && p[1..] <= q[1..];
      PrefixSeesObject(Child(root, p[0]), p[1..], q[1..], w);
    }
  }

  /** For scalars (secrets are text) the order of two inserts on different paths is invisible
      exactly when neither path is a prefix of the other. */
  lemma ScalarInsertsCommuteIff(root: Fields, p: seq<string>, v: Value, q: seq<string>, w: Value)
    requires p != [] && q != [] && p != q && v.Scalar? && w.Scalar?
    ensures InsertNested(InsertNested(root, p, v), q, w) == InsertNested(InsertNested(root, q, w), p, v)
       <==> Incomparable(p, q)
  {
    if Incomparable(p, q) {
      InsertsCommute(root, p, v, q, w);
    } else if p <= q {
      PrefixSeesObject(InsertNested(root, p, v), p, q, w);
      LookupInserted(InsertNested(root, q, w), p, v);
    } else {
      PrefixSeesObject(InsertNested(root, q, w), q, p, v);
      LookupInserted(InsertNested(root, p, v), q, w);
    }
  }

  // ---- Many inserts ----

  datatype Setting = Setting(parts: seq<string>, value: Value)

  function InsertAll(root: Fields, settings: seq<Setting>): Fields
    decreases |settings|
  {
    if settings == [] then root
    else InsertAll(InsertNested(root, settings[0].parts, settings[0].value), settings[1..])
  }

  /** Settings that do not get in each other's way: on incomparable paths, or identical. */
  predicate Compatible(s: Setting, t: Setting) {
    s == t || Incomparable(s.parts, t.parts)
  }

  predicate PairwiseCompatible(settings: seq<Setting>) {
    forall i, j :: 0 <= i < j < |settings| ==> Compatible(settings[i], settings[j])
  }

  lemma {:induction false} InsertAllAppend(root: Fields, a: seq<Setting>, b: seq<Setting>)
    ensures InsertAll(root, a + b) == InsertAll(InsertAll(root, a), b)
    decreases |a|
  {
    if a == [] {
      assert a + b == b;
    } else {
      assert (a + b)[1..] == a[1..] + b;
      InsertAllAppend(InsertNested(root, a[0].parts, a[0].value), a[1..], b);
    }
  }

  /** An insert moves to the front past compatible ones. */
  lemma {:induction false} MoveToFront(root: Fields, a: seq<Setting>, s: Setting)
    requires forall i :: 0 <= i < |a| ==> Compatible(a[i], s)
    ensures InsertAll(root, a + [s]) == InsertAll(InsertNested(root, s.parts, s.value), a)
    decreases |a|
  {
    if a == [] {
      assert a + [s] == [s] && [s][1..] == [];
    } else {
      assert (a + [s])[1..] == a[1..] + [s];
      MoveToFront(InsertNested(root, a[0].parts, a[0].value), a[1..], s);
      if a[0] != s {
        InsertsCommute(root, a[0].parts, a[0].value, s.parts, s.value);
      }
    }
  }

  lemma MiddleToFront(root: Fields, before: seq<Setting>, s: Setting, after: seq<Setting>)
    requires forall i :: 0 <= i < |before| ==> Compatible(before[i], s)
    ensures InsertAll(root, before + [s] + after) == InsertAll(InsertNested(root, s.parts, s.value), before + after)
  {
    MoveToFront(root, before, s);
    InsertAllAppend(root, before + [s], after);
    InsertAllAppend(InsertNested(root, s.parts, s.value), before, after);
  }

  /** The place of the first element of `a` in a permutation `b` of it. */
  lemma Locate<T>(a: seq<T>, b: seq<T>) returns (before: seq<T>, after: seq<T>)
    requires a != [] && multiset(a) == multiset(b)
    ensures b == before + [a[0]] + after && multiset(a[1..]) == multiset(before + after)
  {
    var s := a[0];
    assert a == [s] + a[1..];
    assert s in multiset(b);
    var k :| 0 <= k < |b| && b[k] == s;
    before, after := b[..k], b[k + 1..];
    assert b == before + [s] + after;
    assert multiset(a[1..]) == multiset(a) - multiset{s};
    assert multiset(b) == multiset(before) + multiset{s} + multiset(after);
    assert multiset(before + after) == multiset(b) - multiset{s};
  }

  /** Settings on pairwise incomparable paths, duplicates aside, give the same tree in any order. */
  lemma {:induction false} OrderDoesNotMatter(root: Fields, a: seq<Setting>, b: seq<Setting>)
    requires PairwiseCompatible(a) && multiset(a) == multiset(b)
    ensures InsertAll(root, a) == InsertAll(root, b)
    decreases |a|
  {
    if a == [] {
      assert |multiset(a)| == |multiset(b)|;
    } else {
      var s := a[0];
      var before, after := Locate(a, b);
      RestCompatible(a, before + after);
      forall i | 0 <= i < |before|
        ensures Compatible(before[i], s)
      {
        assert before[i] == (before + after)[i];
      }
      MiddleToFront(root, before, s, after);
      OrderDoesNotMatter(InsertNested(root, s.parts, s.value), a[1..], before + after);
    }
  }

  /** Every other setting is compatible with the first. */
  lemma RestCompatible(a: seq<Setting>, rest: seq<Setting>)
    requires a != [] && PairwiseCompatible(a) && multiset(a[1..]) == multiset(rest)
    ensures forall i :: 0 <= i < |rest| ==> Compatible(rest[i], a[0])
  {
    forall i | 0 <= i < |rest|
      ensures Compatible(rest[i], a[0])
    {
      assert rest[i] in multiset(rest);
      assert rest[i] in multiset(a[1..]);
      var j :| 0 <= j < |a[1..]| && a[1..][j] == rest[i];
      assert a[j + 1] == rest[i];
    }
  }

  /** After all of them, every setting is found where it was put. */
  lemma {:induction false} EverySettingIsFound(root: Fields, settings: seq<Setting>, i: nat)
    requires PairwiseCompatible(settings) && i < |settings| && settings[i].parts != []
    ensures Lookup(InsertAll(root, settings), settings[i].parts) == Some(settings[i].value)
    decreases |settings|
  {
    var s := settings[0];
    var next := InsertNested(root, s.parts, s.value);
    assert PairwiseCompatible(settings[1..]);
    if i > 0 {
      EverySettingIsFound(next, settings[1..], i - 1);
    } else {
      LookupInserted(root, s.parts, s.value);
      StaysFound(next, settings[1..], s);
    }
  }

  /** What is found stays found through compatible inserts. */
  lemma {:induction false} StaysFound(root: Fields, settings: seq<Setting>, s: Setting)
    requires s.parts != [] && Lookup(root, s.parts) == Some(s.value)
    requires forall i :: 0 <= i < |settings| ==> Compatible(s, settings[i])
    ensures Lookup(InsertAll(root, settings), s.parts) == Some(s.value)
    decreases |settings|
  {
    if settings == [] {
    } else {
      var first := settings[0];
      if first == s {
        LookupInserted(root, s.parts, s.value);
      } else {
        LookupElsewhere(root, first.parts, first.value, s.parts);
      }
      StaysFound(InsertNested(root, first.parts, first.value), settings[1..], s);
    }
  }

  // ---- The loader ----

  /** Text around a two-character separator, the way `str::split` cuts it: at the leftmost
      separator first. */
  function SplitOnPair(s: string, current: string): (pieces: seq<string>)
    ensures pieces != []
    decreases |s|
  {
    if |s| < 2 then [current + s]
    else if s[0] == '_' && s[1] == '_' then [current] + SplitOnPair(s[2..], "")
    else SplitOnPair(s[1..], current + [s[0]])
  }

  predicate NoPair(s: string) {
    forall i :: 0 <= i < |s| - 1 ==> !(s[i] == '_' && s[i + 1] == '_')
  }

  predicate EndsInUnderscore(s: string) {
    s != "" && s[|s| - 1] == '_'
  }

  /** Joining the pieces with two underscores gives the text back; no piece holds a pair of
      them; and no piece before a separator ends in one, so each cut is the leftmost possible. */
  ghost predicate CutAtPairs(pieces: seq<string>, s: string) {
    && Join(pieces, "__") == s
    && (forall i :: 0 <= i < |pieces| ==> NoPair(pieces[i]))
    && (forall i :: 0 <= i < |pieces| - 1 ==> !EndsInUnderscore(pieces[i]))
  }

  lemma {:induction false} SplitOnPairCuts(s: string, current: string)
    requires NoPair(current) && (EndsInUnderscore(current) && s != "" ==> s[0] != '_')
    ensures CutAtPairs(SplitOnPair(s, current), current + s)
    decreases |s|
  {
    if |s| < 2 {
      assert NoPair(current + s);
    } else if s[0] == '_' && s[1] == '_' {
      SplitOnPairCuts(s[2..], "");
      var rest := SplitOnPair(s[2..], "");
      assert "" + s[2..] == s[2..] && s == "__" + s[2..];
      PairInFront(current, rest, s[2..]);
      ConcatAssoc(current, "__", s[2..]);
    } else {
      SplitOnPairCuts(s[1..], current + [s[0]]);
      assert current + [s[0]] + s[1..] == current + s;
    }
  }

  lemma PairInFront(first: string, rest: seq<string>, s: string)
    requires rest != [] && CutAtPairs(rest, s) && NoPair(first) && !EndsInUnderscore(first)
    ensures CutAtPairs([first] + rest, first + "__" + s)
  {
    var pieces := [first] + rest;
    assert pieces[1..] == rest;
    assert forall i :: 0 < i < |pieces| ==> pieces[i] == rest[i - 1];
  }

  /** A regular, readable file of the secrets directory: its lower-cased name and its trimmed
      contents. */
  datatype SecretFile = SecretFile(key: string, contents: string)

  function SecretSettings(files: seq<SecretFile>): seq<Setting>
  {
    if files == [] then []
    else [SecretSetting(files[0])] + SecretSettings(files[1..])
  }

  function SecretSetting(file: SecretFile): Setting {
    Setting(SplitOnPair(file.key, ""), Scalar(file.contents))
  }

  lemma {:induction false} SecretSettingsAt(files: seq<SecretFile>)
    ensures |SecretSettings(files)| == |files|
    ensures forall i :: 0 <= i < |files| ==> SecretSettings(files)[i] == SecretSetting(files[i])
  {
    if files == [] {
    } else {
      SecretSettingsAt(files[1..]);
    }
  }

  lemma {:induction false} SecretSettingsAppend(a: seq<SecretFile>, b: seq<SecretFile>)
    ensures SecretSettings(a + b) == SecretSettings(a) + SecretSettings(b)
  {
    if a == [] {
      assert a + b == b;
    } else {
      assert (a + b)[1..] == a[1..] + b;
      SecretSettingsAppend(a[1..], b);
    }
  }

  lemma SecretInTheMiddle(before: seq<SecretFile>, file: SecretFile, after: seq<SecretFile>)
    ensures multiset(SecretSettings(before + [file] + after)) ==
            multiset{SecretSetting(file)} + multiset(SecretSettings(before + after))
  {
    SecretSettingsAppend(before + [file], after);
    SecretSettingsAppend(before, [file]);
    SecretSettingsAppend(before, after);
    assert [file][1..] == [] && SecretSettings([file]) == [SecretSetting(file)];
  }

  lemma {:induction false} SecretSettingsPermute(a: seq<SecretFile>, b: seq<SecretFile>)
    requires multiset(a) == multiset(b)
    ensures multiset(SecretSettings(a)) == multiset(SecretSettings(b))
    decreases |a|
  {
    if a == [] {
      assert |multiset(a)| == |multiset(b)|;
    } else {
      var before, after := Locate(a, b);
      SecretSettingsPermute(a[1..], before + after);
      SecretInTheMiddle(before, a[0], after);
      SecretInTheMiddle([], a[0], a[1..]);
      assert [] + [a[0]] + a[1..] == a && [] + a[1..] == a[1..];
    }
  }

  function Secrets(files: seq<SecretFile>): Fields {
    InsertAll(map[], SecretSettings(files))
  }

  /** Listing the directory in any other order gives the same secrets. */
  ghost predicate OrderIsInvisible(files: seq<SecretFile>) {
    forall listing :: multiset(listing) == multiset(files) ==> Secrets(listing) == Secrets(files)
  }

  /** Two inserts at the end of a listing are seen in their order unless they are compatible. */
  lemma LastTwo(rest: seq<SecretFile>, x: SecretFile, y: SecretFile)
    requires !Compatible(SecretSetting(x), SecretSetting(y))
    ensures Secrets(rest + [x, y]) != Secrets(rest + [y, x])
  {
    var (root, s, t) := (Secrets(rest), SecretSetting(x), SecretSetting(y));
    SecretsThenTwo(rest, x, y);
    SecretsThenTwo(rest, y, x);
    if s.parts == t.parts {
      LookupInserted(InsertNested(root, s.parts, s.value), t.parts, t.value);
      LookupInserted(InsertNested(root, t.parts, t.value), s.parts, s.value);
    } else {
      ScalarInsertsCommuteIff(root, s.parts, s.value, t.parts, t.value);
    }
  }

  lemma InsertAllTwo(root: Fields, s: Setting, t: Setting)
    ensures InsertAll(root, [s, t]) == InsertNested(InsertNested(root, s.parts, s.value), t.parts, t.value)
  {
    assert [s, t][1..] == [t] && [t][1..] == [];
    assert InsertAll(InsertNested(root, s.parts, s.value), [t])
        == InsertNested(InsertNested(root, s.parts, s.value), t.parts, t.value);
  }

  lemma SecretsThenTwo(rest: seq<SecretFile>, x: SecretFile, y: SecretFile)
    ensures Secrets(rest + [x, y]) == InsertNested(
              InsertNested(Secrets(rest), SecretSetting(x).parts, SecretSetting(x).value),
              SecretSetting(y).parts, SecretSetting(y).value)
  {
    var (s, t) := (SecretSetting(x), SecretSetting(y));
    SecretSettingsAppend(rest, [x, y]);
    SecretSettingsAt([x, y]);
    assert SecretSettings([x, y]) == [s, t];
    InsertAllAppend(map[], SecretSettings(rest), [s, t]);
    InsertAllTwo(Secrets(rest), s, t);
  }

  /** Moving two files to the end of the listing. */
  lemma MovedToEnd(files: seq<SecretFile>, i: nat, j: nat) returns (rest: seq<SecretFile>)
    requires i < j < |files|
    ensures multiset(rest + [files[i], files[j]]) == multiset(files) == multiset(rest + [files[j], files[i]])
  {
    rest := files[..i] + files[i + 1..j] + files[j + 1..];
    assert files == files[..i] + [files[i]] + files[i + 1..j] + [files[j]] + files[j + 1..];
  }

  lemma CompatibleInAnyOrder(files: seq<SecretFile>, listing: seq<SecretFile>)
    requires PairwiseCompatible(SecretSettings(files)) && multiset(listing) == multiset(files)
    ensures Secrets(listing) == Secrets(files)
  {
    SecretSettingsPermute(files, listing);
    OrderDoesNotMatter(map[], SecretSettings(files), SecretSettings(listing));
  }

  lemma ClashIsSeen(files: seq<SecretFile>, i: nat, j: nat) returns (listing: seq<SecretFile>)
    requires i < j < |files| && !Compatible(SecretSetting(files[i]), SecretSetting(files[j]))
    ensures multiset(listing) == multiset(files) && Secrets(listing) != Secrets(files)
  {
    var rest := MovedToEnd(files, i, j);
    LastTwo(rest, files[i], files[j]);
    listing := rest + [files[i], files[j]];
    if Secrets(listing) == Secrets(files) {
      listing := rest + [files[j], files[i]];
    }
  }

  /** The listing order is invisible exactly when no key is a proper prefix of another and
      files with one and the same key agree. */
  lemma SecretsDoNotDependOnOrderIff(files: seq<SecretFile>)
    ensures OrderIsInvisible(files) <==> PairwiseCompatible(SecretSettings(files))
  {
    if PairwiseCompatible(SecretSettings(files)) {
      forall listing | multiset(listing) == multiset(files)
        ensures Secrets(listing) == Secrets(files)
      {
        CompatibleInAnyOrder(files, listing);
      }
    } else {
      SecretSettingsAt(files);
      var i, j :| 0 <= i < j < |files| && !Compatible(SecretSettings(files)[i], SecretSettings(files)[j]);
      var listing := ClashIsSeen(files, i, j);
    }
  }

  /** Every secret is found, with its contents, at its key cut at the pairs of underscores. */
  lemma SecretIsFound(files: seq<SecretFile>, i: nat) returns (pieces: seq<string>)
    requires PairwiseCompatible(SecretSettings(files)) && i < |files|
    ensures CutAtPairs(pieces, files[i].key) && Lookup(Secrets(files), pieces) == Some(Scalar(files[i].contents))
  {
    pieces := SplitOnPair(files[i].key, "");
    SplitOnPairCuts(files[i].key, "");
    assert "" + files[i].key == files[i].key;
    SecretSettingsAt(files);
    EverySettingIsFound(map[], SecretSettings(files), i);
  }

  /** The directory is listed in no particular order. */
  method ReadSecrets(files: seq<SecretFile>) returns (root: Fields)
    ensures root == Secrets(files)
  {
    root := map[];
    for i := 0 to |files|
      invariant root == Secrets(files[..i])
    {
      var parts := SplitOnPair(files[i].key, "");
      assert files[..i + 1] == files[..i] + [files[i]];
      SecretSettingsAppend(files[..i], [files[i]]);
      InsertAllAppend(map[], SecretSettings(files[..i]), SecretSettings([files[i]]));
      assert [files[i]][1..] == [] && SecretSettings([files[i]]) == [SecretSetting(files[i])];
      assert SecretSettings([files[i]])[1..] == [];
      root := InsertNested(root, parts, Scalar(files[i].contents));
    }
    assert files[..|files|] == files;
  }

  class SettingsLoader {
    var overrides: Fields

    constructor ()
      ensures overrides == map[]
    {
      overrides := map[];
    }

    /** The key's parts are separated by dots. Afterwards the key gives the value, and every key
        that is no prefix or extension of it gives what it gave before. */
    method OverrideValue(key: string, value: Value)
      modifies this
      ensures Lookup(overrides, Split(key, '.')) == Some(value)
      ensures overrides == InsertNested(old(overrides), Split(key, '.'), value)
      ensures forall q: seq<string> :: Incomparable(Split(key, '.'), q) ==>
                Lookup(overrides, q) == Lookup(old(overrides), q)
    {
      var parts := Split(key, '.');
      LookupInserted(overrides, parts, value);
      forall q: seq<string> | Incomparable(parts, q)
        ensures Lookup(InsertNested(overrides, parts, value), q) == Lookup(overrides, q)
      {
        LookupElsewhere(overrides, parts, value, q);
      }
      overrides := InsertNested(overrides, parts, value);
    }
  }
}
