/** String operations the voice pipeline is built from: JavaScript's `trim`,
    the `\s+` collapse, `split`/`join`, `includes`/`startsWith`, and the few
    regular-expression replacements it uses, each written out as a scan with
    the same leftmost, non-overlapping semantics. Lengths and indices count
    characters. */
module Text {

  datatype Option<T> = None | Some(value: T)

  /** The characters JavaScript's `\s` matches and `String.prototype.trim` removes. */
  predicate IsSpace(c: char) {
    || c == ' ' || c == '\t' || c == '\n' || c == '\r' || c == '\U{000B}' || c == '\U{000C}'
    || c == '\U{00A0}' || c == '\U{1680}' || ('\U{2000}' <= c <= '\U{200A}')
    || c == '\U{2028}' || c == '\U{2029}' || c == '\U{202F}' || c == '\U{205F}'
    || c == '\U{3000}' || c == '\U{FEFF}'
  }

  /** `\d` */
  predicate IsDigit(c: char) {
    '0' <= c <= '9'
  }

  /** `/^\d+$/.test(s)` */
  predicate AllDigits(s: string) {
    |s| > 0 && forall i :: 0 <= i < |s| ==> IsDigit(s[i])
  }

  /** `Number(s)` for a string of decimal digits. */
  function DigitsValue(s: string): nat
    requires forall i :: 0 <= i < |s| ==> IsDigit(s[i])
  {
    if s == [] then 0
    else
      assert IsDigit(s[|s| - 1]);
      10 * DigitsValue(s[..|s| - 1]) + (s[|s| - 1] as int - '0' as int)
  }

  /** A character of JavaScript's `\w` class (no Unicode flag): what `\b` looks at. */
  predicate IsWordChar(c: char) {
    ('a' <= c <= 'z') || ('A' <= c <= 'Z') || IsDigit(c) || c == '_'
  }

  function Max(a: int, b: int): int {
    if a < b then b else a
  }

  function Min(a: int, b: int): int {
    if a < b then a else b
  }

  // ---------------------------------------------------------------------
  // trim and whitespace collapse
  // ---------------------------------------------------------------------

  /** No whitespace at either end. */
  predicate Trimmed(s: string) {
    s == [] || (!IsSpace(s[0]) && !IsSpace(s[|s| - 1]))
  }

  /** The only whitespace is the plain space, and never two in a row:
      what `.replace(/\s+/g, " ")` leaves. */
  predicate SingleSpaced(s: string) {
    forall i :: 0 <= i < |s| ==> SingleSpaceAt(s, i)
  }

  /** Whitespace at index `i` is a plain space, and no second space follows it. */
  predicate SingleSpaceAt(s: string, i: nat)
    requires i < |s|
  {
    (IsSpace(s[i]) ==> s[i] == ' ') && (s[i] == ' ' && i + 1 < |s| ==> s[i + 1] != ' ')
  }

  /** Trimmed and single-spaced: the shape every normalizer here produces. */
  predicate Normal(s: string) {
    Trimmed(s) && SingleSpaced(s)
  }

  /** Every character is whitespace. */
  predicate AllSpace(s: string) {
    forall i :: 0 <= i < |s| ==> IsSpace(s[i])
  }

  function TrimStart(s: string): (r: string)
    ensures |r| <= |s|
    ensures r == [] || !IsSpace(r[0])
    ensures AllSpace(s[..|s| - |r|])
  {
    if s != [] && IsSpace(s[0]) then TrimStart(s[1..]) else s
  }

  /** What `TrimStart` leaves is a suffix of its input. */
  lemma {:induction false} TrimStartSuffix(s: string)
    ensures TrimStart(s) == s[|s| - |TrimStart(s)|..]
  {
    if s != [] && IsSpace(s[0]) {
      TrimStartSuffix(s[1..]);
    }
  }

  function TrimEnd(s: string): (r: string)
    ensures |r| <= |s| && r == s[..|r|]
    ensures r == [] || !IsSpace(r[|r| - 1])
    ensures AllSpace(s[|r|..])
  {
    if s != [] && IsSpace(s[|s| - 1]) then TrimEnd(s[..|s| - 1]) else s
  }

  /** `s.trim()`: whitespace at neither end, and empty exactly when the input
      is all whitespace. */
  function Trim(s: string): (r: string)
    ensures Trimmed(r)
    ensures |r| <= |TrimStart(s)|
    ensures r == [] <==> AllSpace(s)
  {
    TrimStartSuffix(s);
    TrimEnd(TrimStart(s))
  }

  /** `Trim` only cuts whitespace off the ends: the result is a slice of the input. */
  lemma TrimSlice(s: string)
    ensures Trim(s) == s[|s| - |TrimStart(s)|..|s| - |TrimStart(s)| + |Trim(s)|]
  {
    TrimStartSuffix(s);
    var t := TrimStart(s);
    var r := Trim(s);
    assert r == t[..|r|];
  }

  /** `s.replace(/\s+/g, " ")`: every maximal run of whitespace becomes one space. */
  function Collapse(s: string): (r: string)
    ensures SingleSpaced(r)
    ensures |r| <= |s|
    ensures r == [] <==> s == []
    ensures s != [] ==> (if IsSpace(s[0]) then r[0] == ' ' else r[0] == s[0])
    decreases |s|
  {
    if s == [] then []
    else if IsSpace(s[0]) then
      var t := TrimStart(s);
      var rest := Collapse(t);
      assert t != [] ==> rest[0] == t[0];
      ConsSingleSpaced(' ', rest);
      " " + rest
    else
      var rest := Collapse(s[1..]);
      ConsSingleSpaced(s[0], rest);
      [s[0]] + rest
  }

  /** Putting a character in front of a single-spaced string keeps it single-spaced,
      unless it is whitespace other than a space, or a space before a space. */
  lemma ConsSingleSpaced(c: char, s: string)
    requires SingleSpaced(s)
    requires IsSpace(c) ==> c == ' '
    requires c == ' ' && s != [] ==> s[0] != ' '
    ensures SingleSpaced([c] + s)
  {
    var r := [c] + s;
    forall i | 0 <= i < |r| ensures SingleSpaceAt(r, i) {
      if i > 0 {
        assert SingleSpaceAt(s, i - 1);
      }
    }
  }

  /** A string without whitespace. */
  predicate Solid(w: string) {
    forall k :: 0 <= k < |w| ==> !IsSpace(w[k])
  }

  /** A word of Hebrew letters only. */
  predicate HebrewWord(w: string) {
    forall k :: 0 <= k < |w| ==> '\U{05D0}' <= w[k] <= '\U{05EA}'
  }

  /** No character of `s` is one of `cs`. */
  predicate CharsAvoid(s: string, cs: set<char>) {
    forall i :: 0 <= i < |s| ==> s[i] !in cs
  }

  /** Every character of `s` is its own lower case. */
  predicate LowerCase(s: string) {
    forall i :: 0 <= i < |s| ==> LowerChar(s[i]) == s[i]
  }

  /** `Collapse` adds no character other than the space, so it keeps a string
      free of any set of characters the space is not in, and lower case. */
  lemma {:induction false} CollapseKeepsChars(s: string, cs: set<char>)
    requires ' ' !in cs && CharsAvoid(s, cs)
    ensures CharsAvoid(Collapse(s), cs)
    ensures LowerCase(s) ==> LowerCase(Collapse(s))
    decreases |s|
  {
    if s != [] {
      var t := if IsSpace(s[0]) then TrimStart(s) else s[1..];
      TrimStartSuffix(s);
      assert t == s[|s| - |t|..];
      CollapseKeepsChars(t, cs);
      var rest := Collapse(t);
      var r := Collapse(s);
      assert r == [if IsSpace(s[0]) then ' ' else s[0]] + rest;
      assert forall i :: 1 <= i < |r| ==> r[i] == rest[i - 1];
    }
  }

  /** `Collapse` keeps the last character when it is not whitespace. */
  lemma {:induction false} CollapseLast(s: string)
    requires s != [] && !IsSpace(s[|s| - 1])
    ensures Collapse(s)[|Collapse(s)| - 1] == s[|s| - 1]
    decreases |s|
  {
    if IsSpace(s[0]) {
      var t := TrimStart(s);
      TrimStartSuffix(s);
      assert t != [];
      assert t[|t| - 1] == s[|s| - 1];
      CollapseLast(t);
      assert Collapse(s) == " " + Collapse(t);
    } else if |s| > 1 {
      CollapseLast(s[1..]);
      assert Collapse(s) == [s[0]] + Collapse(s[1..]);
    }
  }

  lemma {:induction false} TrimOfTrimmed(s: string)
    requires Trimmed(s)
    ensures Trim(s) == s
  {
    if s != [] {
      assert TrimStart(s) == s;
      assert TrimEnd(s) == s;
    }
  }

  lemma {:induction false} CollapseOfSingleSpaced(s: string)
    requires SingleSpaced(s)
    ensures Collapse(s) == s
    decreases |s|
  {
    if s != [] {
      var t := s[1..];
      SliceSingleSpaced(s, 1, |s|);
      assert s[1..|s|] == t;
      CollapseOfSingleSpaced(t);
      if IsSpace(s[0]) {
        assert SingleSpaceAt(s, 0);
        if |s| > 1 {
          assert s[1] != ' ';
          assert !IsSpace(t[0]);
        }
        assert TrimStart(t) == t;
        assert TrimStart(s) == t;
      }
    }
  }

  /** A slice of a single-spaced string is single-spaced. */
  lemma SliceSingleSpaced(s: string, a: int, b: int)
    requires 0 <= a <= b <= |s| && SingleSpaced(s)
    ensures SingleSpaced(s[a..b])
  {
    var t := s[a..b];
    forall i | 0 <= i < |t| ensures SingleSpaceAt(t, i) {
      assert SingleSpaceAt(s, a + i);
    }
  }

  /** `Collapse` then `Trim` gives a normal string. */
  lemma TrimCollapseNormal(s: string)
    ensures Normal(Trim(Collapse(s)))
  {
    TrimSingleSpacedNormal(Collapse(s));
  }

  /** `Trim` only cuts, so it keeps a string free of `cs`, and lower case. */
  lemma TrimKeepsChars(s: string, cs: set<char>)
    requires CharsAvoid(s, cs)
    ensures CharsAvoid(Trim(s), cs) && (LowerCase(s) ==> LowerCase(Trim(s)))
  {
    var a := |s| - |TrimStart(s)|;
    TrimSlice(s);
    assert Trim(s) == s[a..a + |Trim(s)|];
  }

  /** `Trim` of a single-spaced string is normal. */
  lemma TrimSingleSpacedNormal(s: string)
    requires SingleSpaced(s)
    ensures Normal(Trim(s))
  {
    var r := Trim(s);
    var i := |s| - |TrimStart(s)|;
    TrimSlice(s);
    SliceSingleSpaced(s, i, i + |r|);
  }

  /** A normal string is left alone by `Collapse` and `Trim`. */
  lemma NormalFixed(s: string)
    requires Normal(s)
    ensures Collapse(s) == s && Trim(s) == s && Trim(Collapse(s)) == s
  {
    CollapseOfSingleSpaced(s);
    TrimOfTrimmed(s);
  }

  // ---------------------------------------------------------------------
  // character maps and filters
  // ---------------------------------------------------------------------

  /** `s.replace(/[cs]/g, "")` */
  function RemoveChars(s: string, cs: set<char>): (r: string)
    ensures |r| <= |s|
    ensures forall i :: 0 <= i < |r| ==> r[i] !in cs
  {
    if s == [] then []
    else
      var rest := RemoveChars(s[1..], cs);
      if s[0] in cs then rest
      else
        var r := [s[0]] + rest;
        assert forall i :: 1 <= i < |r| ==> r[i] == rest[i - 1];
        r
  }

  /** `RemoveChars` only deletes, so it keeps a string lower case. */
  lemma {:induction false} RemoveCharsLowerCase(s: string, cs: set<char>)
    requires LowerCase(s)
    ensures LowerCase(RemoveChars(s, cs))
  {
    if s != [] {
      RemoveCharsLowerCase(s[1..], cs);
      var rest := RemoveChars(s[1..], cs);
      var r := RemoveChars(s, cs);
      assert s[0] !in cs ==> r == [s[0]] + rest;
    }
  }

  /** Removing characters none of which occur changes nothing. */
  lemma {:induction false} RemoveCharsNone(s: string, cs: set<char>)
    requires CharsAvoid(s, cs)
    ensures RemoveChars(s, cs) == s
  {
    if s != [] {
      RemoveCharsNone(s[1..], cs);
    }
  }

  /** Removing characters works piece by piece. */
  lemma {:induction false} RemoveCharsAppend(a: string, b: string, cs: set<char>)
    ensures RemoveChars(a + b, cs) == RemoveChars(a, cs) + RemoveChars(b, cs)
  {
    if a == [] {
      assert a + b == b;
    } else {
      assert (a + b)[0] == a[0];
      assert (a + b)[1..] == a[1..] + b;
      RemoveCharsAppend(a[1..], b, cs);
    }
  }

  /** `s.replace(/[cs]/g, rep)` with a one-character replacement. */
  function ReplaceChars(s: string, cs: set<char>, rep: char): (r: string)
    ensures |r| == |s|
    ensures forall i :: 0 <= i < |s| ==> r[i] == if s[i] in cs then rep else s[i]
  {
    if s == [] then [] else [if s[0] in cs then rep else s[0]] + ReplaceChars(s[1..], cs, rep)
  }

  /** `toLowerCase` on one character: Latin A-Z and the Cyrillic capitals
      U+0400-U+042F; every other character is its own lower case here. */
  function LowerChar(c: char): (r: char)
    ensures IsSpace(r) <==> IsSpace(c)
    ensures IsWordChar(r) <==> IsWordChar(c)
  {
    if 'A' <= c <= 'Z' then (c as int + 32) as char
    else if '\U{0410}' <= c <= '\U{042F}' then (c as int + 32) as char
    else if '\U{0400}' <= c <= '\U{040F}' then (c as int + 80) as char
    else c
  }

  /** `s.toLowerCase()` */
  function Lower(s: string): (r: string)
    ensures |r| == |s|
    ensures forall i :: 0 <= i < |s| ==> r[i] == LowerChar(s[i])
    ensures LowerCase(r)
  {
    if s == [] then [] else [LowerChar(s[0])] + Lower(s[1..])
  }

  /** Lower-casing a lower-case string changes nothing. */
  lemma LowerFixed(s: string)
    requires LowerCase(s)
    ensures Lower(s) == s
  {
  }

  // ---------------------------------------------------------------------
  // split and join
  // ---------------------------------------------------------------------

  /** `parts.join(sep)` */
  function Join(parts: seq<string>, sep: string): string {
    if |parts| == 0 then ""
    else if |parts| == 1 then parts[0]
    else parts[0] + sep + Join(parts[1..], sep)
  }

  /** `s.split(/[seps]/)`: the pieces between separator characters, always at least one. */
  function Split(s: string, seps: set<char>): (r: seq<string>)
    ensures |r| >= 1
    ensures forall k, i :: 0 <= k < |r| && 0 <= i < |r[k]| ==> r[k][i] !in seps
  {
    if s == [] then [""]
    else
      var rest := Split(s[1..], seps);
      if s[0] in seps then [""] + rest
      else
        var r := [[s[0]] + rest[0]] + rest[1..];
        assert forall k :: 1 <= k < |r| ==> r[k] == rest[k];
        r
  }

  /** Joining the pieces of a split on one character with that character gives the string back. */
  lemma {:induction false} JoinSplit(s: string, c: char)
    ensures Join(Split(s, {c}), [c]) == s
  {
    if s != [] {
      var rest := Split(s[1..], {c});
      JoinSplit(s[1..], c);
      if s[0] != c {
        var r := Split(s, {c});
        assert r == [[s[0]] + rest[0]] + rest[1..];
        if |rest| == 1 {
          assert Join(r, [c]) == [s[0]] + rest[0];
        } else {
          assert r[1..] == rest[1..];
          assert Join(rest, [c]) == rest[0] + [c] + Join(rest[1..], [c]);
        }
      }
    }
  }

  /** `parts.filter(Boolean)` on strings: the non-empty ones, in order. */
  function NonEmpty(parts: seq<string>): (r: seq<string>)
    ensures |r| <= |parts|
    ensures forall k :: 0 <= k < |r| ==> r[k] != ""
  {
    if parts == [] then []
    else
      var rest := NonEmpty(parts[1..]);
      if parts[0] == "" then rest
      else
        var r := [parts[0]] + rest;
        assert forall k :: 1 <= k < |r| ==> r[k] == rest[k - 1];
        r
  }

  /** A single part survives exactly when it is non-empty. */
  lemma NonEmptySingle(x: string)
    ensures NonEmpty([x]) == if x == "" then [] else [x]
  {
  }

  /** Filtering a concatenation filters each side, in order. */
  lemma {:induction false} NonEmptyAppend(a: seq<string>, b: seq<string>)
    ensures NonEmpty(a + b) == NonEmpty(a) + NonEmpty(b)
  {
    if a == [] {
      assert a + b == b;
    } else {
      assert (a + b)[1..] == a[1..] + b;
      NonEmptyAppend(a[1..], b);
    }
  }

  /** The filter keeps every non-empty part and nothing else. */
  lemma {:induction false} NonEmptyMembers(parts: seq<string>, x: string)
    ensures x in NonEmpty(parts) <==> x in parts && x != ""
  {
    if parts != [] {
      NonEmptyMembers(parts[1..], x);
      assert parts == [parts[0]] + parts[1..];
    }
  }

  /** Parts that are all non-empty pass the filter unchanged. */
  lemma {:induction false} NonEmptyOfFull(parts: seq<string>)
    requires forall k :: 0 <= k < |parts| ==> parts[k] != ""
    ensures NonEmpty(parts) == parts
  {
    if parts != [] {
      NonEmptyOfFull(parts[1..]);
    }
  }

  // ---------------------------------------------------------------------
  // substring search
  // ---------------------------------------------------------------------

  predicate OccursAt(s: string, w: string, i: int) {
    0 <= i && i + |w| <= |s| && s[i..i + |w|] == w
  }

  /** `s.includes(w)` */
  predicate Contains(s: string, w: string) {
    exists i :: 0 <= i <= |s| && OccursAt(s, w, i)
  }

  /** `s.startsWith(p)` */
  predicate StartsWith(s: string, p: string) {
    |p| <= |s| && s[..|p|] == p
  }

  /** `s.endsWith(p)` */
  predicate EndsWith(s: string, p: string) {
    |p| <= |s| && s[|s| - |p|..] == p
  }

  /** A word containing `w` contains every substring of `w`. */
  lemma ContainsTransitive(s: string, w: string, v: string)
    requires Contains(s, w) && Contains(w, v)
    ensures Contains(s, v)
  {
    var i :| 0 <= i <= |s| && OccursAt(s, w, i);
    var j :| 0 <= j <= |w| && OccursAt(w, v, j);
    forall k | 0 <= k < |v| ensures s[i + j + k] == v[k] {
      assert s[i + j + k] == s[i..i + |w|][j + k] == w[j + k] == w[j..j + |v|][k];
    }
    assert s[i + j..i + j + |v|] == v;
    assert OccursAt(s, v, i + j);
  }

  // ---------------------------------------------------------------------
  // regular-expression replacements
  // ---------------------------------------------------------------------

  /** JavaScript's `\b` at position `i`: a `\w` character on exactly one side. */
  predicate BoundaryAt(s: string, i: int)
    requires 0 <= i <= |s|
  {
    (i > 0 && IsWordChar(s[i - 1])) != (i < |s| && IsWordChar(s[i]))
  }

  /** `\bw\b` matches at `i`. */
  predicate WordAt(s: string, w: string, i: int)
    requires 0 <= i
  {
    OccursAt(s, w, i) && BoundaryAt(s, i) && BoundaryAt(s, i + |w|)
  }

  /** `s.replace(/\bw\b/g, rep)`, scanning from index `i` of the original string. */
  function ReplaceWordFrom(s: string, w: string, rep: string, i: nat): string
    requires |w| > 0 && i <= |s|
    decreases |s| - i
  {
    if i == |s| then []
    else if WordAt(s, w, i) then rep + ReplaceWordFrom(s, w, rep, i + |w|)
    else [s[i]] + ReplaceWordFrom(s, w, rep, i + 1)
  }

  function ReplaceWord(s: string, w: string, rep: string): string
    requires |w| > 0
  {
    ReplaceWordFrom(s, w, rep, 0)
  }

  /** A word whose first and last characters are not `\w` can only sit
      between two `\w` characters, so `\bw\b` finds nothing in a string
      without ASCII letters, digits or `_`. */
  lemma {:induction false} ReplaceWordIdentity(s: string, w: string, rep: string, i: nat)
    requires |w| > 0 && i <= |s|
    requires !IsWordChar(w[0])
    requires forall k :: 0 <= k < |s| ==> !IsWordChar(s[k])
    ensures ReplaceWordFrom(s, w, rep, i) == s[i..]
    decreases |s| - i
  {
    if i < |s| {
      if OccursAt(s, w, i) {
        assert s[i] == w[0];
        assert !BoundaryAt(s, i);
      }
      ReplaceWordIdentity(s, w, rep, i + 1);
    }
  }

  /** The first index at or after `i` that does not hold whitespace. */
  function SpaceEnd(s: string, i: nat): (j: nat)
    requires i <= |s|
    ensures i <= j <= |s|
    ensures j < |s| ==> !IsSpace(s[j])
    ensures forall k :: i <= k < j ==> IsSpace(s[k])
    decreases |s| - i
  {
    if i < |s| && IsSpace(s[i]) then SpaceEnd(s, i + 1) else i
  }

  /** The first of `words` that occurs at `j`. */
  function FirstWordAt(s: string, words: seq<string>, j: nat): (r: int)
    ensures -1 <= r < |words|
    ensures r >= 0 ==> OccursAt(s, words[r], j) && forall k :: 0 <= k < r ==> !OccursAt(s, words[k], j)
    ensures r == -1 ==> forall k :: 0 <= k < |words| ==> !OccursAt(s, words[k], j)
  {
    if words == [] then -1
    else if OccursAt(s, words[0], j) then 0
    else
      var r := FirstWordAt(s, words[1..], j);
      if r == -1 then -1 else r + 1
  }

  // The test the patterns of `ReplaceSpacedFrom` make at `i`: whitespace
  // starts at `i`, one of `words` follows the whitespace run and, when
  // `trailing`, whitespace follows the word.
  predicate SpacedMatchAt(s: string, words: seq<string>, trailing: bool, i: nat)
    requires i < |s|
  {
    IsSpace(s[i]) &&
    var j := SpaceEnd(s, i);
    var k := FirstWordAt(s, words, j);
    k >= 0 && (!trailing || (j + |words[k]| < |s| && IsSpace(s[j + |words[k]|])))
  }

  // `s.replace(/\s+(w1|w2|...)\s*/g, rep)` when `trailing` is false, and
  // `s.replace(/\s+(w1|...)\s+/g, rep)` when it is true, for words that do not
  // start with whitespace: a match starts at a whitespace run, the word follows
  // the run, and the trailing whitespace run (required or not) is consumed.
  function ReplaceSpacedFrom(s: string, words: seq<string>, trailing: bool, rep: string, i: nat): string
    requires i <= |s|
    requires forall k :: 0 <= k < |words| ==> words[k] != [] && !IsSpace(words[k][0])
    decreases |s| - i
  {
    if i == |s| then []
    else if SpacedMatchAt(s, words, trailing, i) then
      var j := SpaceEnd(s, i);
      var k := FirstWordAt(s, words, j);
      rep + ReplaceSpacedFrom(s, words, trailing, rep, SpaceEnd(s, j + |words[k]|))
    else [s[i]] + ReplaceSpacedFrom(s, words, trailing, rep, i + 1)
  }

  // ---------------------------------------------------------------------
  // the transformations piece by piece
  // ---------------------------------------------------------------------

  /** Leading whitespace cut from a concatenation comes from its first part
      alone, unless that part is all whitespace and the second part starts
      with whitespace. */
  lemma {:induction false} TrimStartAppend(a: string, b: string)
    requires TrimStart(a) != [] || b == [] || !IsSpace(b[0])
    ensures TrimStart(a + b) == TrimStart(a) + b
  {
    if a == [] {
      assert a + b == b;
    } else {
      assert (a + b)[0] == a[0];
      if IsSpace(a[0]) {
        assert (a + b)[1..] == a[1..] + b;
        TrimStartAppend(a[1..], b);
      }
    }
  }

  lemma AppendAssoc(x: string, y: string, z: string)
    ensures x + (y + z) == (x + y) + z
  {
  }

  /** A whitespace run never reaches across a non-whitespace character, so
      `Collapse` works piece by piece across one. */
  lemma {:induction false} CollapseAppend(a: string, b: string)
    requires (a != [] && !IsSpace(a[|a| - 1])) || (b != [] && !IsSpace(b[0]))
    ensures Collapse(a + b) == Collapse(a) + Collapse(b)
    decreases |a|, 1
  {
    if a == [] {
      assert a + b == b;
    } else if IsSpace(a[0]) {
      CollapseAppendSpace(a, b);
    } else {
      CollapseAppendChar(a, b);
    }
  }

  lemma {:induction false} CollapseAppendSpace(a: string, b: string)
    requires a != [] && IsSpace(a[0])
    requires !IsSpace(a[|a| - 1]) || (b != [] && !IsSpace(b[0]))
    ensures Collapse(a + b) == Collapse(a) + Collapse(b)
    decreases |a|, 0
  {
    var t := TrimStart(a);
    TrimStartSuffix(a);
    assert t == a[|a| - |t|..];
    if t == [] {
      assert a[..|a| - |t|][|a| - 1] == a[|a| - 1];
    } else {
      assert t[|t| - 1] == a[|a| - 1];
    }
    TrimStartAppend(a, b);
    assert (a + b)[0] == a[0];
    CollapseAppend(t, b);
    calc {
      Collapse(a + b);
      " " + Collapse(t + b);
      " " + (Collapse(t) + Collapse(b));
      { AppendAssoc(" ", Collapse(t), Collapse(b)); }
      (" " + Collapse(t)) + Collapse(b);
      Collapse(a) + Collapse(b);
    }
  }

  lemma {:induction false} CollapseAppendChar(a: string, b: string)
    requires a != [] && !IsSpace(a[0])
    requires !IsSpace(a[|a| - 1]) || (b != [] && !IsSpace(b[0]))
    ensures Collapse(a + b) == Collapse(a) + Collapse(b)
    decreases |a|, 0
  {
    var c, rest := a[0], a[1..];
    assert Collapse(a + b) == [c] + Collapse(rest + b) by {
      assert (a + b)[0] == c && (a + b)[1..] == rest + b;
    }
    assert Collapse(a) == [c] + Collapse(rest);
    if rest == [] {
      assert rest + b == b;
    } else {
      CollapseAppend(rest, b);
    }
    AppendAssoc([c], Collapse(rest), Collapse(b));
  }

  /** `Trim` cuts whitespace, and only whitespace, off both ends: what it
      keeps is the slice between the two cuts. */
  lemma TrimBounds(s: string)
    ensures var i, r := |s| - |TrimStart(s)|, Trim(s);
      && i + |r| <= |s| && r == s[i..i + |r|]
      && (forall j :: 0 <= j < i ==> IsSpace(s[j]))
      && (forall j :: i + |r| <= j < |s| ==> IsSpace(s[j]))
  {
    TrimStartSuffix(s);
    var t := TrimStart(s);
    SpacedAround(s, |s| - |t|, t, TrimEnd(t));
  }

  /** A slice `r` of the suffix `t` of `s`, with only whitespace cut off on
      either side, is the slice of `s` at the same offset. */
  lemma SpacedAround(s: string, i: nat, t: string, r: string)
    requires i <= |s| && t == s[i..] && |r| <= |t| && r == t[..|r|]
    requires AllSpace(s[..i]) && AllSpace(t[|r|..])
    ensures i + |r| <= |s| && r == s[i..i + |r|]
    ensures forall j :: 0 <= j < i ==> IsSpace(s[j])
    ensures forall j :: i + |r| <= j < |s| ==> IsSpace(s[j])
  {
    forall j | 0 <= j < i ensures IsSpace(s[j]) {
      assert s[..i][j] == s[j];
    }
    forall j | i + |r| <= j < |s| ensures IsSpace(s[j]) {
      assert t[|r|..][j - i - |r|] == s[j];
    }
  }

  /** An occurrence of a word that starts and ends with non-whitespace lies
      inside the trimmed string. */
  lemma TrimKeepsOccurrence(s: string, w: string, p: int)
    requires OccursAt(s, w, p) && w != [] && !IsSpace(w[0]) && !IsSpace(w[|w| - 1])
    ensures OccursAt(Trim(s), w, p - (|s| - |TrimStart(s)|))
  {
    TrimBounds(s);
    SpacedSliceKeepsOccurrence(s, w, p, |s| - |TrimStart(s)|, |Trim(s)|);
  }

  /** The same for any slice with only whitespace outside it. */
  lemma SpacedSliceKeepsOccurrence(s: string, w: string, p: int, i: nat, n: nat)
    requires OccursAt(s, w, p) && w != [] && !IsSpace(w[0]) && !IsSpace(w[|w| - 1])
    requires i + n <= |s|
    requires forall j :: 0 <= j < i ==> IsSpace(s[j])
    requires forall j :: i + n <= j < |s| ==> IsSpace(s[j])
    ensures OccursAt(s[i..i + n], w, p - i)
  {
    assert s[p] == w[0] && s[p + |w| - 1] == w[|w| - 1] by {
      assert s[p..p + |w|] == w;
    }
    assert i <= p && p + |w| <= i + n;
    SliceOfSlice(s, i, i + n, p - i, p - i + |w|);
  }

  /** A slice of a slice is a slice of the whole. */
  lemma SliceOfSlice(s: string, i: int, j: int, a: int, b: int)
    requires 0 <= i <= j <= |s| && 0 <= a <= b <= j - i
    ensures s[i..j][a..b] == s[i + a..i + b]
  {
    forall k | 0 <= k < b - a ensures s[i..j][a..b][k] == s[i + a..i + b][k] {
    }
  }

  /** A string is what comes before an occurrence, the occurrence, and what
      comes after it. */
  lemma AroundOccurrence(s: string, w: string, p: int)
    requires OccursAt(s, w, p)
    ensures s == s[..p] + (w + s[p + |w|..])
  {
    assert s[p..p + |w|] == w;
  }

  lemma OccursBetween(x: string, w: string, y: string)
    ensures OccursAt(x + (w + y), w, |x|)
  {
    assert (x + (w + y))[|x|..|x| + |w|] == w;
  }

  /** An occurrence of a word free of the removed characters survives their removal. */
  lemma RemoveCharsKeepsOccurrence(s: string, w: string, p: int, cs: set<char>)
    requires OccursAt(s, w, p) && CharsAvoid(w, cs)
    ensures OccursAt(RemoveChars(s, cs), w, |RemoveChars(s[..p], cs)|)
  {
    var a, b := s[..p], s[p + |w|..];
    AroundOccurrence(s, w, p);
    RemoveCharsAppend(a, w + b, cs);
    RemoveCharsAppend(w, b, cs);
    RemoveCharsNone(w, cs);
    OccursBetween(RemoveChars(a, cs), w, RemoveChars(b, cs));
  }

  /** An occurrence of a single-spaced word that starts and ends with
      non-whitespace survives the whitespace collapse. */
  lemma CollapseKeepsOccurrence(s: string, w: string, p: int)
    requires OccursAt(s, w, p) && w != [] && !IsSpace(w[0]) && !IsSpace(w[|w| - 1]) && SingleSpaced(w)
    ensures OccursAt(Collapse(s), w, |Collapse(s[..p])|)
  {
    var a, b := s[..p], s[p + |w|..];
    AroundOccurrence(s, w, p);
    assert (w + b)[0] == w[0];
    CollapseAppend(a, w + b);
    CollapseAppend(w, b);
    CollapseOfSingleSpaced(w);
    OccursBetween(Collapse(a), w, Collapse(b));
  }

  /** A string without the separator splits into itself alone. */
  lemma {:induction false} SplitNone(s: string, c: char)
    requires CharsAvoid(s, {c})
    ensures Split(s, {c}) == [s]
  {
    if s != [] {
      SplitNone(s[1..], c);
      assert [s[0]] + s[1..] == s;
    }
  }

  /** The first piece of a split is the text before the first separator. */
  lemma {:induction false} SplitPrefix(w: string, c: char, rest: string)
    requires CharsAvoid(w, {c})
    ensures Split(w + [c] + rest, {c}) == [w] + Split(rest, {c})
  {
    var s := w + [c] + rest;
    if w == [] {
      assert s[0] == c && s[1..] == rest;
    } else {
      assert s[0] == w[0] && s[1..] == w[1..] + [c] + rest;
      SplitPrefix(w[1..], c, rest);
      assert [w[0]] + w[1..] == w;
    }
  }

  /** A split into two or more pieces is the first piece, the separator and
      the other pieces joined back together. */
  lemma SplitFirst(s: string, c: char)
    requires |Split(s, {c})| >= 2
    ensures s == Split(s, {c})[0] + [c] + Join(Split(s, {c})[1..], [c])
  {
    JoinSplit(s, c);
  }

  // ---------------------------------------------------------------------
  // what the replacements leave alone
  // ---------------------------------------------------------------------

  lemma CharsAvoidAppend(x: string, y: string, cs: set<char>)
    requires CharsAvoid(x, cs) && CharsAvoid(y, cs)
    ensures CharsAvoid(x + y, cs)
  {
    assert forall i :: |x| <= i < |x + y| ==> (x + y)[i] == y[i - |x|];
  }

  /** A character map over characters that do not occur changes nothing. */
  lemma ReplaceCharsNone(s: string, cs: set<char>, rep: char)
    requires CharsAvoid(s, cs)
    ensures ReplaceChars(s, cs, rep) == s
  {
  }

  /** `\bw\b` replaced by a string free of `cs` keeps a string free of `cs`. */
  lemma {:induction false} ReplaceWordKeepsChars(s: string, w: string, rep: string, i: nat, cs: set<char>)
    requires |w| > 0 && i <= |s| && CharsAvoid(s, cs) && CharsAvoid(rep, cs)
    ensures CharsAvoid(ReplaceWordFrom(s, w, rep, i), cs)
    decreases |s| - i
  {
    if i < |s| {
      var n := if WordAt(s, w, i) then i + |w| else i + 1;
      var head := if WordAt(s, w, i) then rep else [s[i]];
      ReplaceWordKeepsChars(s, w, rep, n, cs);
      CharsAvoidAppend(head, ReplaceWordFrom(s, w, rep, n), cs);
    }
  }

  /** A word that occurs nowhere is never replaced. */
  lemma {:induction false} ReplaceWordAbsent(s: string, w: string, rep: string, i: nat)
    requires |w| > 0 && i <= |s| && forall k :: !OccursAt(s, w, k)
    ensures ReplaceWordFrom(s, w, rep, i) == s[i..]
    decreases |s| - i
  {
    if i < |s| {
      ReplaceWordAbsent(s, w, rep, i + 1);
    }
  }

  /** The whitespace patterns, replaced by a string free of `cs`, keep a
      string free of `cs`. */
  lemma {:induction false} SpacedKeepsChars(s: string, words: seq<string>, trailing: bool, rep: string, i: nat, cs: set<char>)
    requires i <= |s| && CharsAvoid(s, cs) && CharsAvoid(rep, cs)
    requires forall k :: 0 <= k < |words| ==> words[k] != [] && !IsSpace(words[k][0])
    ensures CharsAvoid(ReplaceSpacedFrom(s, words, trailing, rep, i), cs)
    decreases |s| - i
  {
    if i < |s| {
      if SpacedMatchAt(s, words, trailing, i) {
        var j := SpaceEnd(s, i);
        var n := SpaceEnd(s, j + |words[FirstWordAt(s, words, j)]|);
        SpacedKeepsChars(s, words, trailing, rep, n, cs);
        CharsAvoidAppend(rep, ReplaceSpacedFrom(s, words, trailing, rep, n), cs);
      } else {
        SpacedKeepsChars(s, words, trailing, rep, i + 1, cs);
        CharsAvoidAppend([s[i]], ReplaceSpacedFrom(s, words, trailing, rep, i + 1), cs);
      }
    }
  }

  /** What the whitespace patterns match on single-spaced text: a space, one of
      `words`, and a space after it when `trailing`. */
  function SpacedPattern(w: string, trailing: bool): string {
    if trailing then " " + w + " " else " " + w
  }

  /** On single-spaced text a whitespace run starting at a space is that one
      space. */
  lemma SingleSpaceEnd(s: string, i: nat)
    requires SingleSpaced(s) && i < |s| && IsSpace(s[i])
    ensures s[i] == ' ' && SpaceEnd(s, i) == i + 1
  {
    assert SingleSpaceAt(s, i);
    if i + 1 < |s| {
      assert SingleSpaceAt(s, i + 1);
    }
  }

  /** On single-spaced text the test at `i` succeeds only where the pattern of
      the first word that fits occurs at `i`. */
  lemma SpacedMatchOccurs(s: string, words: seq<string>, trailing: bool, i: nat)
    requires SingleSpaced(s) && i < |s|
    ensures SpacedMatchAt(s, words, trailing, i) ==>
      var m := FirstWordAt(s, words, SpaceEnd(s, i));
      0 <= m < |words| && OccursAt(s, SpacedPattern(words[m], trailing), i)
  {
    if SpacedMatchAt(s, words, trailing, i) {
      SingleSpaceEnd(s, i);
      var m := FirstWordAt(s, words, i + 1);
      SpacedMatchPattern(s, words[m], trailing, i);
    }
  }

  /** A space, then `w`, then whitespace when `trailing`: on single-spaced
      text that is the pattern of `w`. */
  lemma SpacedMatchPattern(s: string, w: string, trailing: bool, i: nat)
    requires SingleSpaced(s) && i < |s| && s[i] == ' ' && OccursAt(s, w, i + 1)
    requires trailing ==> i + 1 + |w| < |s| && IsSpace(s[i + 1 + |w|])
    ensures OccursAt(s, SpacedPattern(w, trailing), i)
  {
    SpaceBefore(s, w, i);
    if trailing {
      assert SingleSpaceAt(s, i + 1 + |w|);
      SpaceAfter(s, " " + w, i);
    }
  }

  /** Where no pattern occurs at `i` the test at `i` fails. */
  lemma SpacedNoMatch(s: string, words: seq<string>, trailing: bool, i: nat)
    requires SingleSpaced(s) && i < |s|
    requires forall m :: 0 <= m < |words| ==> !OccursAt(s, SpacedPattern(words[m], trailing), i)
    ensures !SpacedMatchAt(s, words, trailing, i)
  {
    SpacedMatchOccurs(s, words, trailing, i);
  }

  /** Where the test fails the scan copies one character. */
  lemma SpacedCopy(s: string, words: seq<string>, trailing: bool, rep: string, i: nat)
    requires i < |s| && !SpacedMatchAt(s, words, trailing, i)
    requires forall k :: 0 <= k < |words| ==> words[k] != [] && !IsSpace(words[k][0])
    ensures ReplaceSpacedFrom(s, words, trailing, rep, i) == [s[i]] + ReplaceSpacedFrom(s, words, trailing, rep, i + 1)
  {
  }

  /** A space before an occurrence of `w` makes an occurrence of ` w`. */
  lemma SpaceBefore(s: string, w: string, i: nat)
    requires i < |s| && s[i] == ' ' && OccursAt(s, w, i + 1)
    ensures OccursAt(s, " " + w, i)
  {
    assert s[i..i + |w| + 1] == [s[i]] + s[i + 1..i + 1 + |w|];
  }

  /** A space after an occurrence of `u` makes an occurrence of `u `. */
  lemma SpaceAfter(s: string, u: string, i: nat)
    requires OccursAt(s, u, i) && i + |u| < |s| && s[i + |u|] == ' '
    ensures OccursAt(s, u + " ", i)
  {
    assert s[i..i + |u| + 1] == s[i..i + |u|] + [s[i + |u|]];
  }

  /** Where no pattern occurs the scan copies the text. */
  lemma SpacedSkip(s: string, words: seq<string>, trailing: bool, rep: string, i: nat, j: nat)
    requires SingleSpaced(s) && i <= j <= |s|
    requires forall k :: 0 <= k < |words| ==> words[k] != [] && !IsSpace(words[k][0])
    requires forall k, m :: i <= k < j && 0 <= m < |words| ==> !OccursAt(s, SpacedPattern(words[m], trailing), k)
    ensures ReplaceSpacedFrom(s, words, trailing, rep, i) == s[i..j] + ReplaceSpacedFrom(s, words, trailing, rep, j)
  {
    forall k | i <= k < j
      ensures !SpacedMatchAt(s, words, trailing, k)
    {
      SpacedNoMatch(s, words, trailing, k);
    }
    SpacedCopies(s, words, trailing, rep, i, j);
  }

  /** Where the test fails throughout, the scan copies the text. */
  lemma {:induction false} SpacedCopies(s: string, words: seq<string>, trailing: bool, rep: string, i: nat, j: nat)
    requires i <= j <= |s|
    requires forall k :: 0 <= k < |words| ==> words[k] != [] && !IsSpace(words[k][0])
    requires forall k :: i <= k < j ==> !SpacedMatchAt(s, words, trailing, k)
    ensures ReplaceSpacedFrom(s, words, trailing, rep, i) == s[i..j] + ReplaceSpacedFrom(s, words, trailing, rep, j)
    decreases j - i
  {
    if i < j {
      SpacedCopies(s, words, trailing, rep, i + 1, j);
      calc {
        ReplaceSpacedFrom(s, words, trailing, rep, i);
        { SpacedCopy(s, words, trailing, rep, i); }
        [s[i]] + ReplaceSpacedFrom(s, words, trailing, rep, i + 1);
        [s[i]] + (s[i + 1..j] + ReplaceSpacedFrom(s, words, trailing, rep, j));
        { assert s[i..j] == [s[i]] + s[i + 1..j]; }
        s[i..j] + ReplaceSpacedFrom(s, words, trailing, rep, j);
      }
    }
  }

  /** A space, a word and a space at `i`: the word occurs at `i + 1`. */
  lemma SpacedWordAt(s: string, w: string, i: nat)
    requires OccursAt(s, " " + w + " ", i)
    ensures i + |w| + 2 <= |s| && s[i] == ' ' && s[i + 1 + |w|] == ' ' && OccursAt(s, w, i + 1)
  {
    var win := s[i..i + |w| + 2];
    assert win[0] == ' ' && win[|w| + 1] == ' ';
    assert win[1..|w| + 1] == w;
  }

  /** Where the pattern of the first word that fits occurs, and a space follows
      that word, the scan writes `rep` and resumes after the space. */
  lemma SpacedHit(s: string, words: seq<string>, trailing: bool, rep: string, i: nat, m: nat)
    requires SingleSpaced(s) && m < |words|
    requires forall k :: 0 <= k < |words| ==> words[k] != [] && !IsSpace(words[k][0])
    requires OccursAt(s, " " + words[m] + " ", i)
    requires forall p :: 0 <= p < m ==> !OccursAt(s, words[p], i + 1)
    ensures ReplaceSpacedFrom(s, words, trailing, rep, i)
      == rep + ReplaceSpacedFrom(s, words, trailing, rep, i + |words[m]| + 2)
  {
    var w := words[m];
    SpacedWordAt(s, w, i);
    SingleSpaceEnd(s, i);
    SingleSpaceEnd(s, i + 1 + |w|);
    assert FirstWordAt(s, words, i + 1) == m;
    assert SpacedMatchAt(s, words, trailing, i);
  }

  /** The same when no earlier word starts with the first letter of the word
      that occurs. */
  lemma SpacedHitFirst(s: string, words: seq<string>, trailing: bool, rep: string, i: nat, m: nat)
    requires SingleSpaced(s) && m < |words|
    requires forall k :: 0 <= k < |words| ==> words[k] != [] && !IsSpace(words[k][0])
    requires OccursAt(s, " " + words[m] + " ", i)
    requires forall p :: 0 <= p < m ==> words[p][0] != words[m][0]
    ensures ReplaceSpacedFrom(s, words, trailing, rep, i)
      == rep + ReplaceSpacedFrom(s, words, trailing, rep, i + |words[m]| + 2)
  {
    SpacedWordAt(s, words[m], i);
    assert s[i + 1] == s[i + 1..i + 1 + |words[m]|][0] == words[m][0];
    forall p | 0 <= p < m ensures !OccursAt(s, words[p], i + 1) {
      FirstCharDiffers(s, words[p], i + 1);
    }
    SpacedHit(s, words, trailing, rep, i, m);
  }

  /** Where the pattern of word `m` occurs at `i` and no pattern occurs
      anywhere else, the scan replaces that one occurrence and copies the rest. */
  lemma SpacedOnlyAt(s: string, words: seq<string>, trailing: bool, rep: string, i: nat, m: nat)
    requires SingleSpaced(s) && m < |words|
    requires forall k :: 0 <= k < |words| ==> words[k] != [] && !IsSpace(words[k][0])
    requires OccursAt(s, " " + words[m] + " ", i)
    requires forall p :: 0 <= p < m ==> words[p][0] != words[m][0]
    requires forall k, p :: 0 <= k < i && 0 <= p < |words| ==> !OccursAt(s, SpacedPattern(words[p], trailing), k)
    requires forall k, p :: i + |words[m]| + 2 <= k && 0 <= p < |words| ==> !OccursAt(s, SpacedPattern(words[p], trailing), k)
    ensures ReplaceSpacedFrom(s, words, trailing, rep, 0) == s[..i] + (rep + s[i + |words[m]| + 2..])
  {
    var n := i + |words[m]| + 2;
    SpacedSkip(s, words, trailing, rep, 0, i);
    SpacedHitFirst(s, words, trailing, rep, i, m);
    SpacedSkip(s, words, trailing, rep, n, |s|);
    assert s[0..i] == s[..i] && s[n..|s|] == s[n..];
  }

  // ---------------------------------------------------------------------
  // occurrences across a join
  // ---------------------------------------------------------------------

  /** Whitespace strictly inside `t` sits at index `n` at most; `n == 0`
      allows none. */
  predicate SpaceInsideOnlyAt(t: string, n: nat) {
    forall i :: 0 < i < |t| - 1 && i != n ==> !IsSpace(t[i])
  }

  /** `t` occurs nowhere in ` x `: `x` with a space added at each end. */
  predicate FreeOf(x: string, t: string) {
    forall k :: 0 <= k <= |x| + 2 ==> !OccursAt(" " + x + " ", t, k)
  }

  /** A non-empty Hebrew word is normal, has nothing to lower-case, and with
      spaces around it holds no whitespace inside. */
  lemma HebrewWordShape(w: string)
    requires w != [] && HebrewWord(w)
    ensures Solid(w) && Normal(w) && LowerCase(w)
    ensures SpaceInsideOnlyAt(" " + w, 0) && SpaceInsideOnlyAt(" " + w + " ", 0)
  {
    assert forall i :: 0 < i < |w| + 1 ==> (" " + w)[i] == w[i - 1];
    assert forall i :: 0 < i < |w| + 1 ==> (" " + w + " ")[i] == w[i - 1];
  }

  /** A string free of `t` holds no occurrence of it. */
  lemma FreeOfNone(x: string, t: string)
    requires FreeOf(x, t)
    ensures forall k :: !OccursAt(x, t, k)
  {
    var p := " " + x + " ";
    forall k | 0 <= k && k + |t| <= |x|
      ensures !OccursAt(x, t, k)
    {
      assert p[k + 1..k + 1 + |t|] == x[k..k + |t|];
      assert !OccursAt(p, t, k + 1);
    }
  }

  /** A string without some character of `t` other than the space is free of `t`. */
  lemma FreeOfMissingChar(x: string, t: string, i: nat)
    requires i < |t| && t[i] != ' ' && forall j :: 0 <= j < |x| ==> x[j] != t[i]
    ensures FreeOf(x, t)
  {
    var p := " " + x + " ";
    forall k | 0 <= k <= |x| + 2 && k + |t| <= |p|
      ensures !OccursAt(p, t, k)
    {
      assert p[k..k + |t|][i] == p[k + i];
    }
  }

  /** A string free of `t` is free of every extension of `t`. */
  lemma FreeOfExtension(x: string, t: string, u: string)
    requires FreeOf(x, t)
    ensures FreeOf(x, t + u)
  {
    var p := " " + x + " ";
    forall k | 0 <= k <= |x| + 2 && k + |t + u| <= |p|
      ensures !OccursAt(p, t + u, k)
    {
      assert p[k..k + |t + u|][..|t|] == p[k..k + |t|];
      assert !OccursAt(p, t, k);
    }
  }

  /** Joining two strings free of `t` with one space keeps the result free of
      `t`: an occurrence across the joining space would need whitespace inside
      `t` at index `n`, `x` to end with `t[..n]` and `y` to start with `t[n..]`. */
  lemma FreeOfJoin(x: string, y: string, t: string, n: nat)
    requires |t| >= 2 && SpaceInsideOnlyAt(t, n) && FreeOf(x, t) && FreeOf(y, t)
    requires n > 0 ==> n < |t| && (!EndsWith(" " + x, t[..n]) || !StartsWith(" " + y + " ", t[n..]))
    ensures FreeOf(x + " " + y, t)
  {
    var p := " " + (x + " " + y) + " ";
    var px, py := " " + x + " ", " " + y + " ";
    var m := |x| + 1;
    assert p == px + y + " ";
    assert p[..m] == " " + x;
    assert p[m..] == py;
    forall k | 0 <= k <= |x + " " + y| + 2 && k + |t| <= |p|
      ensures !OccursAt(p, t, k)
    {
      var win := p[k..k + |t|];
      if k + |t| <= m + 1 {
        assert win == px[k..k + |t|];
        assert !OccursAt(px, t, k);
      } else if k >= m {
        assert win == py[k - m..k - m + |t|];
        assert !OccursAt(py, t, k - m);
      } else {
        assert win[m - k] == ' ';
        if m - k == n {
          assert win[..n] == p[k..m] == p[..m][k..];
          assert win[n..] == p[m..k + |t|] == py[..|t| - n];
        }
      }
    }
  }

  /** No occurrence of `t` starts inside `x` in `x + " " + y`, when `x` is free
      of `t`: one across the joining space would need whitespace inside `t` at
      index `n` and ` y ` to start with `t[n..]`. */
  lemma NoneBeforeJoin(x: string, y: string, t: string, n: nat)
    requires |t| >= 2 && SpaceInsideOnlyAt(t, n) && FreeOf(x, t)
    requires n > 0 ==> n < |t| && !StartsWith(" " + y + " ", t[n..])
    ensures forall k :: 0 <= k < |x| ==> !OccursAt(x + " " + y, t, k)
  {
    var s := x + " " + y;
    var px, py := " " + x + " ", " " + y + " ";
    forall k | 0 <= k < |x| && k + |t| <= |s|
      ensures !OccursAt(s, t, k)
    {
      var win := s[k..k + |t|];
      if k + |t| <= |x| + 1 {
        assert win == px[k + 1..k + 1 + |t|];
        assert !OccursAt(px, t, k + 1);
      } else {
        assert win[|x| - k] == ' ';
        if |x| - k == n {
          assert win[n..] == py[..|t| - n];
        }
      }
    }
  }

  /** No occurrence of `t` starts inside `y` in `x + y` when `y` is free of `t`. */
  lemma NoneAfter(x: string, y: string, t: string)
    requires FreeOf(y, t)
    ensures forall k :: |x| <= k ==> !OccursAt(x + y, t, k)
  {
    FreeOfNone(y, t);
    forall k | |x| <= k && k + |t| <= |x + y|
      ensures !OccursAt(x + y, t, k)
    {
      assert (x + y)[k..k + |t|] == y[k - |x|..k - |x| + |t|];
      assert !OccursAt(y, t, k - |x|);
    }
  }

  /** Joining two strings free of `t` with a comma, or a comma and a space,
      keeps the result free of `t` when `t` holds no comma. */
  lemma FreeOfComma(x: string, sep: string, y: string, t: string)
    requires sep == "," || sep == ", "
    requires FreeOf(x, t) && FreeOf(y, t) && CharsAvoid(t, {','})
    ensures FreeOf(x + sep + y, t)
  {
    var p := " " + (x + sep + y) + " ";
    var px, py := " " + x + " ", " " + y + " ";
    var c := |x| + 1;
    assert p[..c] == px[..c];
    assert p[c] == ',';
    assert p[c + 1..] == if sep == "," then py[1..] else py;
    forall k | 0 <= k <= |x + sep + y| + 2 && k + |t| <= |p|
      ensures !OccursAt(p, t, k)
    {
      var win := p[k..k + |t|];
      if k + |t| <= c {
        assert win == px[k..k + |t|];
        assert !OccursAt(px, t, k);
      } else if k > c {
        var o := if sep == "," then k - c else k - c - 1;
        assert win == py[o..o + |t|];
        assert !OccursAt(py, t, o);
      } else {
        assert win[c - k] == ',';
      }
    }
  }

  /** A string whose character at `j` differs from the first of `v` holds no
      occurrence of `v` at `j`. */
  lemma FirstCharDiffers(s: string, v: string, j: nat)
    requires j < |s| && v != [] && s[j] != v[0]
    ensures !OccursAt(s, v, j)
  {
    assert j + |v| <= |s| ==> s[j..j + |v|][0] == s[j];
  }

  /** A string that differs from `v` at some index of both does not start with `v`. */
  lemma DiffersAt(u: string, v: string, i: nat)
    requires i < |u| && i < |v| && u[i] != v[i]
    ensures !StartsWith(u, v)
  {
    assert |v| <= |u| ==> u[..|v|][i] == u[i];
  }

  lemma NormalJoin(x: string, sep: string, y: string)
    requires Normal(x) && Normal(y) && x != [] && y != []
    requires sep == " " || sep == ", " || sep == ","
    ensures Normal(x + sep + y)
  {
    var s := x + sep + y;
    forall i | 0 <= i < |s| ensures SingleSpaceAt(s, i) {
      if i < |x| {
        assert SingleSpaceAt(x, i);
      } else if i >= |x| + |sep| {
        assert SingleSpaceAt(y, i - |x| - |sep|);
      }
    }
  }

  lemma LowerCaseAppend(x: string, y: string)
    requires LowerCase(x) && LowerCase(y)
    ensures LowerCase(x + y)
  {
    assert forall i :: |x| <= i < |x + y| ==> (x + y)[i] == y[i - |x|];
  }

  /** A string free of the separators, a separator, and the rest: the first
      piece is that string. */
  lemma {:induction false} SplitAt(w: string, c: char, rest: string, seps: set<char>)
    requires c in seps && CharsAvoid(w, seps)
    ensures Split(w + [c] + rest, seps) == [w] + Split(rest, seps)
  {
    var s := w + [c] + rest;
    if w == [] {
      assert s[0] == c && s[1..] == rest;
    } else {
      assert s[0] == w[0] && s[1..] == w[1..] + [c] + rest;
      SplitAt(w[1..], c, rest, seps);
      assert [w[0]] + w[1..] == w;
    }
  }

  /** A string free of the separators splits into itself alone. */
  lemma {:induction false} SplitWhole(s: string, seps: set<char>)
    requires CharsAvoid(s, seps)
    ensures Split(s, seps) == [s]
  {
    if s != [] {
      SplitWhole(s[1..], seps);
      assert [s[0]] + s[1..] == s;
    }
  }
}
