/** The command recognizer of App.tsx: `isClearListCommand` for each app
    language, and the fixed-order Hebrew verb patterns with which
    `executeVoiceTextWithUndo` decides what a normalized transcript asks for. */
module Commands {
  import opened Text

  /** `AppLang` */
  datatype Lang = He | En | Ru | Ar

  // ---------------------------------------------------------------------
  // the text isClearListCommand looks at
  // ---------------------------------------------------------------------

  /** `\p{L}` or `\p{N}` for the scripts the app speaks: ASCII letters and
      digits, the Latin-1 letters, Hebrew letters, Cyrillic letters, Arabic
      letters and the Arabic-Indic digits. */
  predicate IsLetterOrDigit(c: char) {
    || ('a' <= c <= 'z') || ('A' <= c <= 'Z') || ('0' <= c <= '9')
    || ('\U{00C0}' <= c <= '\U{00FF}' && c != '\U{00D7}' && c != '\U{00F7}')
    || ('\U{05D0}' <= c <= '\U{05EA}') || ('\U{05EF}' <= c <= '\U{05F2}')
    || ('\U{0400}' <= c <= '\U{0481}') || ('\U{048A}' <= c <= '\U{052F}')
    || ('\U{0620}' <= c <= '\U{064A}') || ('\U{0660}' <= c <= '\U{0669}')
    || ('\U{0671}' <= c <= '\U{06D3}') || ('\U{06F0}' <= c <= '\U{06F9}')
  }

  /** `.replace(/[^\p{L}\p{N}\s]/gu, " ")`: every symbol becomes a space. */
  function BlankSymbols(s: string): (r: string)
    ensures |r| == |s|
    ensures forall i :: 0 <= i < |s| ==> r[i] == (if IsLetterOrDigit(s[i]) || IsSpace(s[i]) then s[i] else ' ')
  {
    if s == [] then []
    else [if IsLetterOrDigit(s[0]) || IsSpace(s[0]) then s[0] else ' '] + BlankSymbols(s[1..])
  }

  /** The cleaned text `isClearListCommand` matches its patterns against:
      trimmed, lower-cased, symbols blanked, whitespace collapsed, trimmed. */
  function ClearText(t: string): (r: string)
    ensures Normal(r)
  {
    var b := BlankSymbols(Lower(Trim(t)));
    TrimCollapseNormal(b);
    Trim(Collapse(b))
  }

  /** A word of letters and digits that lower-casing leaves alone, such as
      every verb the patterns look for. */
  predicate PlainWord(w: string) {
    forall k :: 0 <= k < |w| ==> IsLetterOrDigit(w[k]) && LowerChar(w[k]) == w[k]
  }

  /** Cleaning never breaks up a plain word: if the transcript contains it,
      so does the cleaned text. */
  lemma ClearTextKeepsWord(t: string, w: string, i: nat)
    requires PlainWord(w) && OccursAt(t, w, i)
    ensures Contains(ClearText(t), w)
  {
    if w == [] {
      assert OccursAt(ClearText(t), w, 0);
      return;
    }
    assert Solid(w);
    assert SingleSpaced(w);
    var t1 := Trim(t);
    TrimKeepsOccurrence(t, w, i);
    var i1 := i - (|t| - |TrimStart(t)|);
    var t3 := BlankSymbols(Lower(t1));
    LowerBlankKeepsOccurrence(t1, w, i1);
    CollapseKeepsOccurrence(t3, w, i1);
    var t4 := Collapse(t3);
    var i4 := |Collapse(t3[..i1])|;
    TrimKeepsOccurrence(t4, w, i4);
    assert OccursAt(ClearText(t), w, i4 - (|t4| - |TrimStart(t4)|));
  }

  /** Lower-casing and blanking symbols keep a plain word where it is. */
  lemma LowerBlankKeepsOccurrence(s: string, w: string, i: nat)
    requires PlainWord(w) && OccursAt(s, w, i)
    ensures OccursAt(BlankSymbols(Lower(s)), w, i)
  {
    var l := Lower(s);
    var b := BlankSymbols(l);
    forall k | 0 <= k < |w| ensures b[i + k] == w[k] {
      assert s[i + k] == w[k];
      assert l[i + k] == w[k];
    }
    assert b[i..i + |w|] == w;
  }

  /** No character of `s` is in the class `p`. */
  predicate Avoids(s: string, p: char -> bool) {
    forall k :: 0 <= k < |s| ==> !p(s[k])
  }

  /** A character class cleaning cannot produce: the space is not in it, and
      a character lower-cases into it only if it is in it already. */
  predicate CleanClosed(p: char -> bool) {
    !p(' ') && forall c :: p(LowerChar(c)) ==> p(c)
  }

  /** Cleaning adds no character of a class it cannot produce. */
  lemma ClearTextAvoids(t: string, p: char -> bool)
    requires Avoids(t, p) && CleanClosed(p)
    ensures Avoids(ClearText(t), p)
  {
    TrimAvoids(t, p);
    var b := BlankSymbols(Lower(Trim(t)));
    assert Avoids(b, p);
    CollapseAvoids(b, p);
    TrimAvoids(Collapse(b), p);
  }

  /** `Trim` only cuts, so it adds no character. */
  lemma TrimAvoids(s: string, p: char -> bool)
    requires Avoids(s, p)
    ensures Avoids(Trim(s), p)
  {
    var a := |s| - |TrimStart(s)|;
    TrimSlice(s);
    assert Trim(s) == s[a..a + |Trim(s)|];
  }

  /** `Collapse` adds only spaces. */
  lemma {:induction false} CollapseAvoids(s: string, p: char -> bool)
    requires Avoids(s, p) && !p(' ')
    ensures Avoids(Collapse(s), p)
    decreases |s|
  {
    if s != [] {
      var t := if IsSpace(s[0]) then TrimStart(s) else s[1..];
      TrimStartSuffix(s);
      assert t == s[|s| - |t|..];
      CollapseAvoids(t, p);
      var r := Collapse(s);
      assert r == [if IsSpace(s[0]) then ' ' else s[0]] + Collapse(t);
      assert forall i :: 1 <= i < |r| ==> r[i] == Collapse(t)[i - 1];
    }
  }

  /** `\b` needs an ASCII word character on one side, so `\bw\b` never
      matches in a string without any. */
  lemma NoWordAtWithoutWordChars(s: string, w: string, i: nat)
    requires Avoids(s, IsWordChar)
    ensures !WordAt(s, w, i)
  {
    if OccursAt(s, w, i) {
      assert !BoundaryAt(s, i);
    }
  }

  /** Text that is already normal, lower case and free of symbols is its own
      cleaned form. */
  lemma ClearTextFixed(text: string)
    requires Normal(text) && LowerCase(text)
    requires forall k :: 0 <= k < |text| ==> IsLetterOrDigit(text[k]) || text[k] == ' '
    ensures ClearText(text) == text
  {
    NormalFixed(text);
    LowerFixed(text);
    assert BlankSymbols(text) == text;
  }

  // ---------------------------------------------------------------------
  // isClearListCommand
  // ---------------------------------------------------------------------

  /** `\b(f1|f2|...)\b.*\b(s1|s2|...)\b` on a string without line
      terminators: one of the first words, then at or after its end one of
      the second words, each with a word boundary on both sides. */
  predicate WordThenWord(text: string, firsts: seq<string>, seconds: seq<string>) {
    exists a, i, b, j ::
      0 <= a < |firsts| && 0 <= b < |seconds| && 0 <= i && i + |firsts[a]| <= j <= |text| &&
      WordAt(text, firsts[a], i) && WordAt(text, seconds[b], j)
  }

  /** `^(v1|v2|...)\s+(n1|n2|...)$` on a single-spaced string. */
  predicate VerbThenNoun(text: string, verbs: seq<string>, nouns: seq<string>) {
    exists a, b :: 0 <= a < |verbs| && 0 <= b < |nouns| && text == verbs[a] + " " + nouns[b]
  }

  /** `some(...)` over the five English patterns. */
  predicate IsClearEn(text: string) {
    || text == "clear list" || text == "clear the list"
    || text == "empty list" || text == "empty the list"
    || WordThenWord(text, ["clear", "empty"], ["list"])
    || WordThenWord(text, ["delete", "remove"], ["all", "everything", "all items", "items"])
    || WordThenWord(text, ["delete", "remove"], ["list"])
  }

  const RuClean: seq<string> := ["очист", "очистить"]
  const RuDelete: seq<string> := ["удал", "удалить"]
  const RuList: seq<string> := ["список", "списка"]

  /** The four anchored Russian patterns. */
  predicate IsClearRuAnchored(text: string) {
    || VerbThenNoun(text, RuClean, RuList)
    || VerbThenNoun(text, RuDelete, RuList)
    || VerbThenNoun(text, RuDelete, ["все"])
    || VerbThenNoun(text, RuClean, ["все"])
  }

  /** `some(...)` over the six Russian patterns. */
  predicate IsClearRu(text: string) {
    || IsClearRuAnchored(text)
    || WordThenWord(text, ["очист", "очистить", "удал", "удалить", "стер", "стереть", "убери", "уберите"], RuList)
    || WordThenWord(text, ["удал", "удалить", "очист", "очистить"], ["все"])
  }

  /** The two anchored Arabic patterns. */
  predicate IsClearArAnchored(text: string) {
    || VerbThenNoun(text, ["امسح", "احذف"], ["القائمة"])
    || VerbThenNoun(text, ["امسح", "احذف"], ["الكل"])
  }

  /** `some(...)` over the four Arabic patterns. */
  predicate IsClearAr(text: string) {
    || IsClearArAnchored(text)
    || WordThenWord(text, ["امسح", "احذف", "افرغ"], ["القائمة"])
    || WordThenWord(text, ["امسح", "احذف"], ["الكل"])
  }

  /** The verbs of the first Hebrew pattern. Every group after the verb is
      optional and nothing anchors it, so it matches wherever a verb occurs. */
  const HeClearVerbs: seq<string> := ["מחק", "תמחק", "תמחוק", "למחוק", "נקה", "תנקה", "תרוקן", "רוקן", "מרחק", "רחק"]

  predicate ContainsAny(text: string, words: seq<string>) {
    exists k :: 0 <= k < |words| && Contains(text, words[k])
  }

  /** The Hebrew test: the two patterns, then the two `includes` conjunctions. */
  predicate IsClearHe(text: string) {
    || ContainsAny(text, HeClearVerbs)
    || text == "מחק" || text == "רחק" || text == "מרחק"
    || (Contains(text, "מחק") && Contains(text, "הכל") && (Contains(text, "רשימה") || Contains(text, "הרשימה")))
    || (Contains(text, "למחוק") && (Contains(text, "רשימה") || Contains(text, "הרשימה")))
  }

  /** `isClearListCommand(t, lang)` */
  predicate IsClearListCommand(t: string, lang: Lang) {
    var text := ClearText(t);
    match lang
    case En => IsClearEn(text)
    case Ru => IsClearRu(text)
    case Ar => IsClearAr(text)
    case He => IsClearHe(text)
  }

  /** In Hebrew the whole test amounts to "the cleaned text contains one of
      the clear verbs": the anchored pattern and both conjunctions only ever
      accept texts the first pattern already accepts. */
  lemma HebrewClearIsVerbSubstring(t: string)
    ensures IsClearListCommand(t, He) <==> ContainsAny(ClearText(t), HeClearVerbs)
  {
    HebrewClearText(ClearText(t));
  }

  lemma HebrewClearText(text: string)
    ensures IsClearHe(text) <==> ContainsAny(text, HeClearVerbs)
  {
    if text == "מחק" || text == "רחק" || text == "מרחק" {
      assert OccursAt(text, text, 0);
      assert text == HeClearVerbs[0] || text == HeClearVerbs[9] || text == HeClearVerbs[8];
    }
    if Contains(text, "מחק") {
      assert Contains(text, HeClearVerbs[0]);
    }
    if Contains(text, "למחוק") {
      assert Contains(text, HeClearVerbs[3]);
    }
  }

  /** A transcript with a Hebrew clear verb anywhere in it is a Hebrew clear
      command, whatever surrounds the verb. */
  lemma ClearVerbAnywhere(t: string, m: nat, i: nat)
    requires m < |HeClearVerbs| && OccursAt(t, HeClearVerbs[m], i)
    ensures IsClearListCommand(t, He)
  {
    assert PlainWord(HeClearVerbs[m]);
    ClearTextKeepsWord(t, HeClearVerbs[m], i);
    HebrewClearIsVerbSubstring(t);
  }

  /** For Russian and Arabic the `\b` patterns never fire on a transcript
      without ASCII word characters: JavaScript's `\b` does not see Cyrillic
      or Arabic letters as word characters, so only the anchored patterns can
      accept. */
  lemma BoundaryPatternsNeedAscii(t: string)
    requires Avoids(t, IsWordChar)
    ensures IsClearListCommand(t, Ru) <==> IsClearRuAnchored(ClearText(t))
    ensures IsClearListCommand(t, Ar) <==> IsClearArAnchored(ClearText(t))
  {
    var text := ClearText(t);
    ClearTextAvoids(t, IsWordChar);
    NoWordThenWord(text, ["очист", "очистить", "удал", "удалить", "стер", "стереть", "убери", "уберите"], RuList);
    NoWordThenWord(text, ["удал", "удалить", "очист", "очистить"], ["все"]);
    NoWordThenWord(text, ["امسح", "احذف", "افرغ"], ["القائمة"]);
    NoWordThenWord(text, ["امسح", "احذف"], ["الكل"]);
  }

  /** A `\b...\b.*\b...\b` pattern finds nothing in a string without ASCII
      word characters. */
  lemma NoWordThenWord(text: string, firsts: seq<string>, seconds: seq<string>)
    requires Avoids(text, IsWordChar)
    ensures !WordThenWord(text, firsts, seconds)
  {
    forall a, i | 0 <= a < |firsts| && 0 <= i ensures !WordAt(text, firsts[a], i) {
      NoWordAtWithoutWordChars(text, firsts[a], i);
    }
  }

  // ---------------------------------------------------------------------
  // the Hebrew verb patterns of the executor
  // ---------------------------------------------------------------------

  const DeleteVerbs: seq<string> := ["מחק", "תמחק", "תמחוק", "תמחקי"]
  const MarkVerbs: seq<string> := ["סמן", "תסמן", "תסמני"]
  const BoughtWords: seq<string> := ["נקנה", "כנקנה", "נקנתה"]
  const IncreaseVerbs: seq<string> := ["הגדל", "תגדיל", "תגדילי"]
  const DecreaseVerbs: seq<string> := ["הקטן", "תקטין", "תקטיני"]
  const AddVerbs: seq<string> := ["הוסף", "תוסיף", "תוסיפי", "הוספה"]

  /** The optional word ("item") the add pattern skips after its verb. */
  const ItemWord := "פריט"

  /** `^w\s`: the word starts the text and whitespace follows it. */
  predicate VerbLeads(text: string, w: string) {
    |w| < |text| && text[..|w|] == w && IsSpace(text[|w|])
  }

  /** The alternative `^(v1|v2|...)\s+` settles on: the first verb that
      leads the text, or -1 when none does. */
  function LeadingVerb(text: string, verbs: seq<string>): (k: int)
    ensures -1 <= k < |verbs|
    ensures k >= 0 ==> VerbLeads(text, verbs[k]) && forall m :: 0 <= m < k ==> !VerbLeads(text, verbs[m])
    ensures k == -1 ==> forall m :: 0 <= m < |verbs| ==> !VerbLeads(text, verbs[m])
  {
    if verbs == [] then -1
    else if VerbLeads(text, verbs[0]) then 0
    else
      var k := LeadingVerb(text, verbs[1..]);
      if k == -1 then -1 else k + 1
  }

  /** What `^(v1|v2|...)\s+` leaves: the text after the verb and the
      whitespace run that follows it. */
  function AfterVerb(text: string, verbs: seq<string>): (r: Option<string>)
    ensures r.None? <==> forall m :: 0 <= m < |verbs| ==> !VerbLeads(text, verbs[m])
    ensures r.Some? ==> |r.value| < |text| && r.value == text[|text| - |r.value|..]
  {
    var k := LeadingVerb(text, verbs);
    if k < 0 then None else Some(text[SpaceEnd(text, |verbs[k]|)..])
  }

  /** `text.replace(/^(מחק|תמחק|תמחוק|תמחקי)\s+/, "").trim()` when the pattern matches. */
  function DeleteTarget(text: string): Option<string> {
    match AfterVerb(text, DeleteVerbs)
    case None => None
    case Some(rest) => Some(Trim(rest))
  }

  /** The trimmed `(.+)` group of `^(v1|v2|...)\s+(.+)$` on a single-spaced text. */
  function VerbObject(text: string, verbs: seq<string>): Option<string> {
    match AfterVerb(text, verbs)
    case None => None
    case Some(rest) => if rest == "" then None else Some(Trim(rest))
  }

  /** The index of the first of `words` that ends `rest` after a space and a
      non-empty stretch before it, or -1. */
  function TrailingWord(rest: string, words: seq<string>): (k: int)
    ensures -1 <= k < |words|
    ensures k >= 0 ==> |rest| >= |words[k]| + 2 && EndsWith(rest, " " + words[k])
    ensures k == -1 ==> forall m :: 0 <= m < |words| ==> !(|rest| >= |words[m]| + 2 && EndsWith(rest, " " + words[m]))
  {
    if words == [] then -1
    else if |rest| >= |words[0]| + 2 && EndsWith(rest, " " + words[0]) then 0
    else
      var k := TrailingWord(rest, words[1..]);
      if k == -1 then -1 else k + 1
  }

  /** The trimmed name group of `^(סמן|תסמן|תסמני)\s+(.+)\s+(נקנה|כנקנה|נקנתה)$`
      on a single-spaced text. */
  function MarkTarget(text: string): Option<string> {
    match AfterVerb(text, MarkVerbs)
    case None => None
    case Some(rest) =>
      var k := TrailingWord(rest, BoughtWords);
      if k < 0 then None else Some(Trim(rest[..|rest| - |BoughtWords[k]| - 1]))
  }

  /** The `(.+)` group of `^(הוסף|תוסיף|תוסיפי|הוספה)(?:\s+פריט)?\s+(.+)$` on a
      single-spaced text, or the whole text when the pattern does not match.
      The optional group is greedy: `פריט` is dropped only when a non-empty
      payload follows it. */
  function AddPayload(text: string): (r: string)
    ensures |r| <= |text|
  {
    match AfterVerb(text, AddVerbs)
    case None => text
    case Some(rest) =>
      if rest == "" then text
      else if VerbLeads(rest, ItemWord) && SpaceEnd(rest, |ItemWord|) < |rest| then rest[SpaceEnd(rest, |ItemWord|)..]
      else rest
  }

  /** What a normalized transcript asks for. */
  datatype Command =
    | Nothing
    | ClearList
    | DeleteItem(name: string)
    | MarkBought(name: string)
    | Increase(name: string)
    | Decrease(name: string)
    | AddItems(payload: string)

  /** The dispatch of `executeVoiceTextWithUndo`: the first test that accepts
      the text decides. The verb patterns are read on single-spaced text,
      which is all the executor gives them. */
  function Classify(text: string, lang: Lang): (c: Command)
    requires SingleSpaced(text)
    ensures c == Nothing <==> text == ""
    ensures c.AddItems? ==> c.payload != ""
    ensures text != "" && IsClearListCommand(text, lang) ==> c == ClearList
    ensures c.DeleteItem? ==> !IsClearListCommand(text, lang) && AfterVerb(text, DeleteVerbs).Some?
  {
    Dispatch(text, IsClearListCommand(text, lang))
  }

  /** The same dispatch for a given outcome `clear` of the clear-list test. */
  function Dispatch(text: string, clear: bool): (c: Command)
    requires SingleSpaced(text)
    ensures c == Nothing <==> text == ""
    ensures c.AddItems? ==> c.payload != ""
    ensures text != "" && clear ==> c == ClearList
    ensures c.DeleteItem? ==> !clear && AfterVerb(text, DeleteVerbs).Some?
  {
    if text == "" then Nothing
    else if clear then ClearList
    else if DeleteTarget(text).Some? then DeleteItem(DeleteTarget(text).value)
    else if MarkTarget(text).Some? then MarkBought(MarkTarget(text).value)
    else if VerbObject(text, IncreaseVerbs).Some? then Increase(VerbObject(text, IncreaseVerbs).value)
    else if VerbObject(text, DecreaseVerbs).Some? then Decrease(VerbObject(text, DecreaseVerbs).value)
    else AddItems(AddPayload(text))
  }

  // ---------------------------------------------------------------------
  // what each verb pattern reads off a command
  // ---------------------------------------------------------------------

  /** Every word of the table is free of whitespace. */
  predicate AllSolid(words: seq<string>) {
    forall m :: 0 <= m < |words| ==> Solid(words[m])
  }

  /** A word of Hebrew letters. */
  lemma HebrewTableSolid(words: seq<string>)
    requires forall m :: 0 <= m < |words| ==> HebrewWord(words[m])
    ensures AllSolid(words)
  {
  }

  /** The executor's verb tables and bought words hold single words. */
  lemma VerbTablesSolid()
    ensures AllSolid(DeleteVerbs) && AllSolid(MarkVerbs) && AllSolid(BoughtWords)
    ensures AllSolid(IncreaseVerbs) && AllSolid(DecreaseVerbs) && AllSolid(AddVerbs)
  {
    HebrewTableSolid(DeleteVerbs);
    HebrewTableSolid(MarkVerbs);
    HebrewTableSolid(BoughtWords);
    HebrewTableSolid(IncreaseVerbs);
    HebrewTableSolid(DecreaseVerbs);
    HebrewTableSolid(AddVerbs);
  }

  /** The first word of `v rest` is the only word that leads it. */
  lemma VerbLeadsOnlyItself(v: string, rest: string, u: string)
    requires v != [] && Solid(v) && Solid(u)
    ensures VerbLeads(v + " " + rest, u) <==> u == v
  {
    var text := v + " " + rest;
    assert forall k :: 0 <= k < |v| ==> text[k] == v[k];
    assert text[|v|] == ' ';
    if VerbLeads(text, u) {
      assert forall k :: 0 <= k < |u| ==> text[k] == u[k];
      assert |u| == |v|;
      assert u == text[..|v|] == v;
    }
  }

  /** `^(v1|v2|...)\s+` on `v rest`: the rest when `v` is one of the verbs,
      nothing otherwise. */
  lemma AfterOwnVerb(v: string, rest: string, verbs: seq<string>)
    requires v != [] && Solid(v) && AllSolid(verbs)
    requires rest == [] || !IsSpace(rest[0])
    ensures v in verbs ==> AfterVerb(v + " " + rest, verbs) == Some(rest)
    ensures v !in verbs ==> AfterVerb(v + " " + rest, verbs) == None
  {
    var text := v + " " + rest;
    forall m | 0 <= m < |verbs| ensures VerbLeads(text, verbs[m]) <==> verbs[m] == v {
      VerbLeadsOnlyItself(v, rest, verbs[m]);
    }
    if v in verbs {
      var k := LeadingVerb(text, verbs);
      assert verbs[k] == v;
      assert SpaceEnd(text, |v|) == |v| + 1;
      assert text[|v| + 1..] == rest;
    }
  }

  /** The last word of `n b` is the only word `\s+(w1|w2|...)$` finds there. */
  lemma TrailingOnlyItself(n: string, b: string, u: string)
    requires n != [] && b != [] && Solid(b) && Solid(u)
    ensures (|n + " " + b| >= |u| + 2 && EndsWith(n + " " + b, " " + u)) <==> u == b
  {
    var rest := n + " " + b;
    if |rest| >= |u| + 2 && EndsWith(rest, " " + u) {
      var d := |rest| - |u| - 1;
      assert rest[d] == ' ' by { assert rest[d..][0] == (" " + u)[0]; }
      assert forall k :: d < k < |rest| ==> rest[k] == u[k - d - 1];
      assert forall k :: |n| < k < |rest| ==> rest[k] == b[k - |n| - 1];
      assert rest[|n|] == ' ';
      assert u == rest[d + 1..] == b;
    }
  }

  /** The index `TrailingWord` settles on for `n b` names `b`. */
  lemma TrailingOwnWord(n: string, b: string, words: seq<string>)
    requires n != [] && b != [] && Solid(b) && AllSolid(words) && b in words
    ensures TrailingWord(n + " " + b, words) >= 0 && words[TrailingWord(n + " " + b, words)] == b
  {
    forall m | 0 <= m < |words|
      ensures (|n + " " + b| >= |words[m]| + 2 && EndsWith(n + " " + b, " " + words[m])) <==> words[m] == b
    {
      TrailingOnlyItself(n, b, words[m]);
    }
  }

  /** The mark pattern reads the name between the verb and the bought word. */
  lemma MarkTargetReadsName(v: string, n: string, b: string)
    requires v in MarkVerbs && b in BoughtWords && n != "" && Trimmed(n)
    ensures MarkTarget(v + " " + n + " " + b) == Some(n)
  {
    VerbTablesSolid();
    var rest := n + " " + b;
    assert v + " " + n + " " + b == v + " " + rest;
    AfterOwnVerb(v, rest, MarkVerbs);
    TrailingOwnWord(n, b, BoughtWords);
    assert rest[..|rest| - |b| - 1] == n;
    TrimOfTrimmed(n);
  }

  /** `^(v1|v2|...)\s+(.+)$` reads the object after the verb. */
  lemma VerbObjectReadsName(v: string, n: string, verbs: seq<string>)
    requires v != [] && Solid(v) && AllSolid(verbs) && v in verbs && n != "" && Trimmed(n)
    ensures VerbObject(v + " " + n, verbs) == Some(n)
  {
    AfterOwnVerb(v, n, verbs);
    TrimOfTrimmed(n);
  }

  /** The add pattern drops the verb and the word `פריט` after it. */
  lemma AddPayloadDropsItemWord(a: string, p: string)
    requires a in AddVerbs && p != "" && Trimmed(p)
    ensures AddPayload(a + " " + (ItemWord + " " + p)) == p
  {
    HebrewTableSolid(AddVerbs);
    var rest := ItemWord + " " + p;
    AfterOwnVerb(a, rest, AddVerbs);
    WordThenRest(ItemWord, p);
    PayloadAfterItemWord(a + " " + rest, rest, p);
  }

  /** The add pattern's reading once the verb and `פריט` are known. */
  lemma PayloadAfterItemWord(text: string, rest: string, p: string)
    requires AfterVerb(text, AddVerbs) == Some(rest) && p != ""
    requires VerbLeads(rest, ItemWord) && SpaceEnd(rest, |ItemWord|) == |ItemWord| + 1
    requires rest[|ItemWord| + 1..] == p
    ensures AddPayload(text) == p
  {
  }

  /** A solid word, one space and a rest that starts with no space: the word
      leads, and the rest starts right after the space. */
  lemma WordThenRest(w: string, p: string)
    requires w != [] && Solid(w) && p != [] && !IsSpace(p[0])
    ensures VerbLeads(w + " " + p, w)
    ensures SpaceEnd(w + " " + p, |w|) == |w| + 1 && (w + " " + p)[|w| + 1..] == p
  {
    var t := w + " " + p;
    assert t[..|w|] == w;
    assert t[|w| + 1] == p[0];
  }

  /** The add pattern drops the verb alone when `פריט` does not follow it. */
  lemma AddPayloadDropsVerb(a: string, p: string)
    requires a in AddVerbs && p != "" && Trimmed(p) && SingleSpaced(p)
    requires !StartsWith(p, ItemWord + " ")
    ensures AddPayload(a + " " + p) == p
  {
    HebrewTableSolid(AddVerbs);
    AfterOwnVerb(a, p, AddVerbs);
    if |p| > |ItemWord| {
      assert SingleSpaceAt(p, |ItemWord|);
    }
    assert !VerbLeads(p, ItemWord);
  }

  // ---------------------------------------------------------------------
  // the dispatch on each kind of command
  // ---------------------------------------------------------------------

  /** A verb of one table is never a verb of another. */
  lemma VerbTablesDisjoint(v: string)
    ensures v in MarkVerbs ==> v !in DeleteVerbs
    ensures v in IncreaseVerbs ==> v !in DeleteVerbs && v !in MarkVerbs
    ensures v in DecreaseVerbs ==> v !in DeleteVerbs && v !in MarkVerbs && v !in IncreaseVerbs
    ensures v in AddVerbs ==> v !in DeleteVerbs && v !in MarkVerbs && v !in IncreaseVerbs && v !in DecreaseVerbs
  {
  }

  /** No text of the form `v rest` with `v` outside `verbs` is read by their pattern. */
  lemma OtherVerbNone(v: string, rest: string, verbs: seq<string>)
    requires v != [] && Solid(v) && AllSolid(verbs) && v !in verbs
    ensures AfterVerb(v + " " + rest, verbs) == None
  {
    forall m | 0 <= m < |verbs| ensures !VerbLeads(v + " " + rest, verbs[m]) {
      VerbLeadsOnlyItself(v, rest, verbs[m]);
    }
  }

  /** "מחק <name>" deletes the name, unless the text is a clear command
      (which, in Hebrew, it always is). */
  lemma ClassifyDelete(v: string, n: string, lang: Lang)
    requires v in DeleteVerbs && n != "" && Trimmed(n) && SingleSpaced(v + " " + n)
    ensures Classify(v + " " + n, lang) ==
      if IsClearListCommand(v + " " + n, lang) then ClearList else DeleteItem(n)
  {
    DispatchDelete(v, n, IsClearListCommand(v + " " + n, lang));
  }

  /** "מחק <name>" reaches the delete branch whenever the clear test fails. */
  lemma DispatchDelete(v: string, n: string, clear: bool)
    requires v in DeleteVerbs && n != "" && Trimmed(n) && SingleSpaced(v + " " + n)
    ensures Dispatch(v + " " + n, clear) == if clear then ClearList else DeleteItem(n)
  {
    VerbTablesSolid();
    AfterOwnVerb(v, n, DeleteVerbs);
    TrimOfTrimmed(n);
  }

  /** "סמן <name> נקנה" marks the name bought, unless the text is a clear
      command, which is tested first. */
  lemma ClassifyMark(v: string, n: string, b: string, lang: Lang)
    requires v in MarkVerbs && b in BoughtWords && n != "" && Trimmed(n)
    requires SingleSpaced(v + " " + n + " " + b)
    ensures Classify(v + " " + n + " " + b, lang) ==
      if IsClearListCommand(v + " " + n + " " + b, lang) then ClearList else MarkBought(n)
  {
    var rest := n + " " + b;
    assert v + " " + n + " " + b == v + " " + rest;
    VerbTablesSolid();
    VerbTablesDisjoint(v);
    OtherVerbNone(v, rest, DeleteVerbs);
    MarkTargetReadsName(v, n, b);
  }

  /** "הגדל <name>" increases the name, unless the text is a clear command. */
  lemma ClassifyIncrease(v: string, n: string, lang: Lang)
    requires v in IncreaseVerbs && n != "" && Trimmed(n) && SingleSpaced(v + " " + n)
    ensures Classify(v + " " + n, lang) ==
      if IsClearListCommand(v + " " + n, lang) then ClearList else Increase(n)
  {
    VerbTablesSolid();
    VerbTablesDisjoint(v);
    OtherVerbNone(v, n, DeleteVerbs);
    OtherVerbNone(v, n, MarkVerbs);
    VerbObjectReadsName(v, n, IncreaseVerbs);
  }

  /** "הקטן <name>" decreases the name, unless the text is a clear command. */
  lemma ClassifyDecrease(v: string, n: string, lang: Lang)
    requires v in DecreaseVerbs && n != "" && Trimmed(n) && SingleSpaced(v + " " + n)
    ensures Classify(v + " " + n, lang) ==
      if IsClearListCommand(v + " " + n, lang) then ClearList else Decrease(n)
  {
    VerbTablesSolid();
    VerbTablesDisjoint(v);
    OtherVerbNone(v, n, DeleteVerbs);
    OtherVerbNone(v, n, MarkVerbs);
    OtherVerbNone(v, n, IncreaseVerbs);
    VerbObjectReadsName(v, n, DecreaseVerbs);
  }

  /** "הוסף <payload>" adds the payload without the verb, unless the text is
      a clear command. */
  lemma ClassifyAdd(a: string, p: string, lang: Lang)
    requires a in AddVerbs && p != "" && Trimmed(p) && SingleSpaced(a + " " + p)
    ensures Classify(a + " " + p, lang) ==
      if IsClearListCommand(a + " " + p, lang) then ClearList else AddItems(AddPayload(a + " " + p))
  {
    VerbTablesSolid();
    VerbTablesDisjoint(a);
    OtherVerbNone(a, p, DeleteVerbs);
    OtherVerbNone(a, p, MarkVerbs);
    OtherVerbNone(a, p, IncreaseVerbs);
    OtherVerbNone(a, p, DecreaseVerbs);
  }

  /** What the add pattern leaves of `a p` for a single-spaced payload: `p`
      without a leading `פריט`, when something follows that word. */
  lemma AddPayloadOf(a: string, p: string)
    requires a in AddVerbs && p != "" && Trimmed(p) && SingleSpaced(p)
    ensures StartsWith(p, ItemWord + " ") ==>
      |p| > |ItemWord| + 1 && AddPayload(a + " " + p) == p[|ItemWord| + 1..]
    ensures !StartsWith(p, ItemWord + " ") ==> AddPayload(a + " " + p) == p
  {
    if StartsWith(p, ItemWord + " ") {
      var n := |ItemWord| + 1;
      var q := p[n..];
      assert p[n - 1] == p[..n][n - 1] == ' ';
      assert |p| > n;
      assert Trimmed(q) by { assert SingleSpaceAt(p, n - 1) && SingleSpaceAt(p, n); }
      assert p == ItemWord + " " + q;
      AddPayloadDropsItemWord(a, q);
    } else {
      AddPayloadDropsVerb(a, p);
    }
  }

  /** A text that starts with none of the verbs is added whole, unless it is
      a clear command. */
  lemma ClassifyAddPlain(text: string, lang: Lang)
    requires SingleSpaced(text) && text != ""
    requires forall m :: 0 <= m < |DeleteVerbs| ==> !VerbLeads(text, DeleteVerbs[m])
    requires forall m :: 0 <= m < |MarkVerbs| ==> !VerbLeads(text, MarkVerbs[m])
    requires forall m :: 0 <= m < |IncreaseVerbs| ==> !VerbLeads(text, IncreaseVerbs[m])
    requires forall m :: 0 <= m < |DecreaseVerbs| ==> !VerbLeads(text, DecreaseVerbs[m])
    requires forall m :: 0 <= m < |AddVerbs| ==> !VerbLeads(text, AddVerbs[m])
    ensures Classify(text, lang) == if IsClearListCommand(text, lang) then ClearList else AddItems(text)
  {
    NoVerbNone(text, DeleteVerbs);
    NoVerbNone(text, MarkVerbs);
    NoVerbNone(text, IncreaseVerbs);
    NoVerbNone(text, DecreaseVerbs);
    NoVerbNone(text, AddVerbs);
  }

  lemma NoVerbNone(text: string, verbs: seq<string>)
    requires forall m :: 0 <= m < |verbs| ==> !VerbLeads(text, verbs[m])
    ensures AfterVerb(text, verbs) == None
  {
  }

  /** Each Hebrew delete verb starts with a clear verb. */
  lemma DeleteVerbHoldsClearVerb(k: nat) returns (m: nat)
    requires k < |DeleteVerbs|
    ensures m < |HeClearVerbs| && OccursAt(DeleteVerbs[k], HeClearVerbs[m], 0)
  {
    m := if k == 0 then 0 else if k == 1 || k == 3 then 1 else 2;
    assert DeleteVerbs[k][..|HeClearVerbs[m]|] == HeClearVerbs[m];
  }

  /** A word at the start of a word at the start of `t` is at the start of `t`. */
  lemma OccursAtStartOfStart(t: string, d: string, w: string)
    requires OccursAt(t, d, 0) && OccursAt(d, w, 0)
    ensures OccursAt(t, w, 0)
  {
    assert t[..|w|] == d[..|w|];
  }

  /** A transcript that starts with a delete verb is a clear-list command in
      Hebrew: "מחק חלב" clears the whole list. */
  lemma DeleteVerbClearsInHebrew(text: string)
    requires AfterVerb(text, DeleteVerbs).Some?
    ensures IsClearListCommand(text, He)
  {
    var k := LeadingVerb(text, DeleteVerbs);
    var m := DeleteVerbHoldsClearVerb(k);
    OccursAtStartOfStart(text, DeleteVerbs[k], HeClearVerbs[m]);
    ClearVerbAnywhere(text, m, 0);
  }

  /** In Hebrew the delete branch is never taken. */
  lemma DeleteUnreachableInHebrew(text: string)
    requires SingleSpaced(text)
    ensures !Classify(text, He).DeleteItem?
  {
    if AfterVerb(text, DeleteVerbs).Some? {
      DeleteVerbClearsInHebrew(text);
    }
  }

  // ---------------------------------------------------------------------
  // examples
  // ---------------------------------------------------------------------

  /** "מחק חלב" clears the whole list in Hebrew. */
  lemma DeleteMilkExample()
    ensures Classify("מחק חלב", He) == ClearList
  {
    var text := "מחק חלב";
    assert VerbLeads(text, DeleteVerbs[0]);
    DeleteVerbClearsInHebrew(text);
  }

  predicate IsQof(c: char) {
    c == 'ק'
  }

  /** Every Hebrew clear verb has the letter ק. */
  lemma ClearVerbsNeedQof(text: string)
    requires Avoids(text, IsQof)
    ensures !ContainsAny(text, HeClearVerbs)
  {
    forall m, i | 0 <= m < |HeClearVerbs| && 0 <= i <= |text| ensures !OccursAt(text, HeClearVerbs[m], i) {
      var v := HeClearVerbs[m];
      assert IsQof(v[|v| - 1]) || IsQof(v[|v| - 2]);
    }
  }

  /** A transcript without the letter ק is never a Hebrew clear command. */
  lemma ClearNeedsQof(t: string)
    requires Avoids(t, IsQof)
    ensures !IsClearListCommand(t, He)
  {
    ClearTextAvoids(t, IsQof);
    ClearVerbsNeedQof(ClearText(t));
    HebrewClearIsVerbSubstring(t);
  }


  // ---------------------------------------------------------------------
  // the Hebrew clear test with its list noun required
  // ---------------------------------------------------------------------

  predicate IsResh(c: char) {
    c == 'ר'
  }

  /** Where the list noun of `\s*(לי\s*)?(את\s*)?(כל\s*)?(הרשימה|רשימה)` must
      start when the tail begins at `j`. Each optional word starts with a
      letter no later part starts with, so a match takes each one that is
      there. */
  function ListNounAt(t: string, j: nat): (d: nat)
    requires j <= |t|
    ensures d <= |t|
  {
    var a := SpaceEnd(t, j);
    var b := if OccursAt(t, "לי", a) then SpaceEnd(t, a + 2) else a;
    var c := if OccursAt(t, "את", b) then SpaceEnd(t, b + 2) else b;
    if OccursAt(t, "כל", c) then SpaceEnd(t, c + 2) else c
  }

  /** The tail matches at `j`, the list noun no longer optional. */
  predicate ListTailAt(t: string, j: nat)
    requires j <= |t|
  {
    OccursAt(t, "הרשימה", ListNounAt(t, j)) || OccursAt(t, "רשימה", ListNounAt(t, j))
  }

  /** The first Hebrew pattern with the list noun required: a clear verb
      followed by the tail. */
  predicate ListPhrase(text: string) {
    exists m, i :: 0 <= m < |HeClearVerbs| && 0 <= i <= |text| && OccursAt(text, HeClearVerbs[m], i) && ListTailAt(text, i + |HeClearVerbs[m]|)
  }

  /** The Hebrew test with that first pattern; the rest as written. */
  predicate IsClearHeIntended(text: string) {
    || ListPhrase(text)
    || text == "מחק" || text == "רחק" || text == "מרחק"
    || (Contains(text, "מחק") && Contains(text, "הכל") && (Contains(text, "רשימה") || Contains(text, "הרשימה")))
    || (Contains(text, "למחוק") && (Contains(text, "רשימה") || Contains(text, "הרשימה")))
  }

  /** `isClearListCommand` with the intended Hebrew test. */
  predicate IsClearListIntended(t: string, lang: Lang) {
    if lang == He then IsClearHeIntended(ClearText(t)) else IsClearListCommand(t, lang)
  }

  /** The dispatch with the intended clear-list test. */
  function ClassifyIntended(text: string, lang: Lang): (c: Command)
    requires SingleSpaced(text)
    ensures c == Nothing <==> text == ""
    ensures text != "" && IsClearListIntended(text, lang) ==> c == ClearList
    ensures c.DeleteItem? ==> !IsClearListIntended(text, lang) && AfterVerb(text, DeleteVerbs).Some?
  {
    Dispatch(text, IsClearListIntended(text, lang))
  }

  /** `הרשימה` holds `רשימה` one letter on. */
  lemma ArticleDropped(t: string, i: nat)
    requires OccursAt(t, "הרשימה", i)
    ensures OccursAt(t, "רשימה", i + 1)
  {
    assert t[i + 1..i + 6] == t[i..i + 6][1..];
  }

  /** A tail that matches holds the word רשימה. */
  lemma ListTailHasList(t: string, j: nat)
    requires j <= |t|
    ensures ListTailAt(t, j) ==> Contains(t, "רשימה")
  {
    var d := ListNounAt(t, j);
    if OccursAt(t, "הרשימה", d) {
      ArticleDropped(t, d);
      assert OccursAt(t, "רשימה", d + 1);
    } else if OccursAt(t, "רשימה", d) {
      assert 0 <= d <= |t|;
    }
  }

  /** The intended test accepts only the bare verbs and texts holding רשימה. */
  lemma IntendedNeedsList(text: string)
    ensures IsClearHeIntended(text) ==> Contains(text, "רשימה") || text == "מחק" || text == "רחק" || text == "מרחק"
  {
    if ListPhrase(text) {
      var m, i :| 0 <= m < |HeClearVerbs| && 0 <= i <= |text| && OccursAt(text, HeClearVerbs[m], i) && ListTailAt(text, i + |HeClearVerbs[m]|);
      ListTailHasList(text, i + |HeClearVerbs[m]|);
    }
    if Contains(text, "הרשימה") {
      var i :| 0 <= i <= |text| && OccursAt(text, "הרשימה", i);
      ArticleDropped(text, i);
    }
  }

  /** Without the letter ר the intended test accepts only the bare verb מחק. */
  lemma IntendedWithoutResh(text: string)
    requires Avoids(text, IsResh)
    ensures IsClearHeIntended(text) ==> text == "מחק"
  {
    IntendedNeedsList(text);
    forall i | 0 <= i < |text| ensures !OccursAt(text, "רשימה", i) {
      assert !IsResh(text[i]);
      FirstCharDiffers(text, "רשימה", i);
    }
    if |text| == 3 || |text| == 4 {
      assert !IsResh(text[0]) && !IsResh(text[1]);
    }
  }

  /** With the list noun required, "מחק N" deletes N for a name without the
      letter ר, unless cleaning leaves only the verb. */
  lemma ClassifyIntendedDelete(v: string, n: string)
    requires v in DeleteVerbs && n != "" && Trimmed(n) && SingleSpaced(v + " " + n) && Avoids(n, IsResh)
    ensures ClassifyIntended(v + " " + n, He) == if ClearText(v + " " + n) == "מחק" then ClearList else DeleteItem(n)
  {
    var text := v + " " + n;
    assert Avoids(v, IsResh);
    assert Avoids(text, IsResh) by {
      forall k | 0 <= k < |text| ensures !IsResh(text[k]) {
        if k < |v| {
          assert text[k] == v[k];
        } else if k > |v| {
          assert text[k] == n[k - |v| - 1];
        }
      }
    }
    ClearTextAvoids(text, IsResh);
    IntendedWithoutResh(ClearText(text));
    DispatchDelete(v, n, IsClearListIntended(text, He));
  }

  /** With the list noun required, "מחק N" deletes N for a Hebrew word N
      without the letter ר: "מחק חלב" deletes the milk. */
  lemma DeleteWordIntended(v: string, n: string)
    requires v in DeleteVerbs && n != [] && HebrewWord(n) && Avoids(n, IsResh)
    ensures ClassifyIntended(v + " " + n, He) == DeleteItem(n)
  {
    var text := v + " " + n;
    assert v != [] && HebrewWord(v);
    HebrewWordShape(v);
    HebrewWordShape(n);
    NormalJoin(v, " ", n);
    LowerCaseAppend(v, " ");
    LowerCaseAppend(v + " ", n);
    assert forall k :: 0 <= k < |text| ==> IsLetterOrDigit(text[k]) || text[k] == ' ' by {
      forall k | 0 <= k < |text| ensures IsLetterOrDigit(text[k]) || text[k] == ' ' {
        if k < |v| {
          assert text[k] == v[k];
        } else if k > |v| {
          assert text[k] == n[k - |v| - 1];
        }
      }
    }
    ClearTextFixed(text);
    assert |ClearText(text)| > 3;
    ClassifyIntendedDelete(v, n);
  }

  /** "מחק את הרשימה" is its own cleaned text. */
  lemma ClearListPhraseClean(text: string)
    requires text == "מחק את הרשימה"
    ensures ClearText(text) == text
  {
    assert SingleSpaceAt(text, 3) && SingleSpaceAt(text, 6);
    ClearTextFixed(text);
  }

  /** With the list noun required, "מחק את הרשימה" still clears the list. */
  lemma ClearListIntended(text: string)
    requires text == "מחק את הרשימה"
    ensures ClassifyIntended(text, He) == ClearList
  {
    ListPhraseIntended(text);
  }

  /** "מחק את הרשימה" passes the intended Hebrew test. */
  lemma ListPhraseIntended(text: string)
    requires text == "מחק את הרשימה"
    ensures IsClearListIntended(text, He)
  {
    ClearListPhraseClean(text);
    ListPhraseAtStart(text);
    assert IsClearHeIntended(ClearText(text));
  }

  /** The verb at 0 and the tail after it: `את`, then the list noun at 7. */
  lemma ListPhraseAtStart(text: string)
    requires text == "מחק את הרשימה"
    ensures ListPhrase(text)
  {
    assert SpaceEnd(text, 3) == 4;
    assert OccursAt(text, "את", 4) by { assert text[4..6] == "את"; }
    assert SpaceEnd(text, 6) == 7;
    assert ListNounAt(text, 3) == 7;
    assert OccursAt(text, "הרשימה", 7) by { assert text[7..13] == "הרשימה"; }
    assert OccursAt(text, HeClearVerbs[0], 0) by { assert text[0..3] == HeClearVerbs[0]; }
    assert ListTailAt(text, 3);
  }
}
