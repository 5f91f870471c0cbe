/** The Hebrew item-phrase parser of App.tsx: the two text normalizers, the
    quantity words, the compound merger, the token scanner that turns one
    clause into `{ name, qty }` items, and the splitting of a whole utterance
    into clauses. */
module ItemParser {
  import opened Text

  /** One `{ name, qty }` entry the parser yields. */
  datatype ParsedItem = ParsedItem(name: string, qty: int)

  /** The word tables the parser consults: the number words with their
      values, the multi-word prefixes, the compound phrases, the adjectives and
      the noun-compound tails. The parser is defined for any tables; `Tables`
      holds the ones App.tsx declares. */
  datatype Vocab = Vocab(
    numbers: map<string, nat>,
    prefixes: set<string>,
    phrases: set<string>,
    adjectives: set<string>,
    tails: set<string>)

  const Tables := Vocab(HebNumberWords, MultiwordPrefixes, CompoundPhrases, Adjectives, NounCompoundTails)

  /** `HEB_NUMBER_WORDS` */
  const HebNumberWords: map<string, nat> := map[
    "אחד" := 1, "אחת" := 1, "שני" := 2, "שניים" := 2, "שתיים" := 2, "שתים" := 2,
    "שתי" := 2, "שלוש" := 3, "שלושה" := 3, "ארבע" := 4, "ארבעה" := 4, "חמש" := 5,
    "חמישה" := 5, "שש" := 6, "שישה" := 6, "שבע" := 7, "שבעה" := 7, "שמונה" := 8,
    "תשע" := 9, "תשעה" := 9, "עשר" := 10, "עשרה" := 10]

  /** The quote characters `normalize` deletes: gershayim, `"` and `'`. */
  const Quotes: set<char> := {'\U{05F4}', '\"', '\''}

  // ---------------------------------------------------------------------
  // normalizers
  // ---------------------------------------------------------------------

  /** `normalize`: trim, lower-case, delete quotes, collapse whitespace. */
  function Normalize(s: string): (r: string)
    ensures SingleSpaced(r)
  {
    Collapse(RemoveChars(Lower(Trim(s)), Quotes))
  }

  /** What `Normalize` leaves: no quote characters and nothing left to lower-case. */
  lemma NormalizeChars(s: string)
    ensures CharsAvoid(Normalize(s), Quotes) && LowerCase(Normalize(s))
  {
    var l := Lower(Trim(s));
    RemoveCharsLowerCase(l, Quotes);
    CollapseKeepsChars(RemoveChars(l, Quotes), Quotes);
  }

  /** Normalizing twice only trims once more: `Normalize` is idempotent on
      every input whose normal form does not begin or end with a space. */
  lemma NormalizeTwice(s: string)
    ensures Normalize(Normalize(s)) == Trim(Normalize(s))
  {
    var n := Normalize(s);
    NormalizeChars(s);
    TrimSingleSpacedNormal(n);
    TrimKeepsChars(n, Quotes);
    NormalFixedPoint(Trim(n));
  }

  /** A leading quote is deleted after the trim, so the result can begin with a space. */
  lemma NormalizeKeepsSpaceAfterQuote()
    ensures Normalize("' a") == " a"
    ensures Normalize(Normalize("' a")) == "a"
  {
    var s := "' a";
    assert Trim(s) == s by { TrimOfTrimmed(s); }
    assert Lower(s) == s;
    assert RemoveChars(s, Quotes) == " a" by {
      assert RemoveChars("a", Quotes) == "a";
      assert RemoveChars(" a", Quotes) == " a";
    }
    assert Collapse(" a") == " a" by {
      assert TrimStart(" a") == "a";
      assert Collapse("a") == "a";
    }
    NormalizeTwice(s);
    assert TrimStart(" a") == "a";
    assert Trim(" a") == "a";
  }

  /** The filler words `normalizeVoiceText` deletes after whitespace. */
  const Fillers: seq<string> := ["בבקשה", "פליז", "תודה"]

  /** The sentence marks and the full-width comma `normalizeVoiceText` rewrites. */
  const Marks: set<char> := {'.', '?', '!', '\U{FF0C}'}

  /** The first steps of `normalizeVoiceText`: trim; sentence marks become
      spaces; a full-width comma and the words `פסיקים`/`פסיק` between `\b`
      boundaries become commas. No sentence mark and no full-width comma is left. */
  function MarkPasses(s: string): (r: string)
    ensures CharsAvoid(r, Marks)
  {
    var a := ReplaceChars(Trim(s), {'.', '?', '!'}, ' ');
    var b := ReplaceChars(a, {'\U{FF0C}'}, ',');
    var c := ReplaceWord(b, "פסיקים", ",");
    ReplaceWordKeepsChars(b, "פסיקים", ",", 0, Marks);
    ReplaceWordKeepsChars(c, "פסיק", ",", 0, Marks);
    ReplaceWord(c, "פסיק", ",")
  }

  /** `normalizeVoiceText`: the steps above; then a filler word after whitespace
      becomes one space; whitespace runs collapse; trim. No sentence mark and no
      full-width comma survives. */
  function NormalizeVoiceText(s: string): (r: string)
    ensures Normal(r)
    ensures CharsAvoid(r, Marks)
  {
    var d := MarkPasses(s);
    var e := ReplaceSpacedFrom(d, Fillers, false, " ", 0);
    SpacedKeepsChars(d, Fillers, false, " ", 0, Marks);
    CollapseKeepsChars(e, Marks);
    TrimKeepsChars(Collapse(e), Marks);
    TrimCollapseNormal(e);
    Trim(Collapse(e))
  }

  /** No sentence mark, no full-width comma and no `פסיק`, even at either end. */
  predicate MarkFree(s: string) {
    CharsAvoid(s, Marks) && FreeOf(s, "פסיק")
  }

  /** Text `normalizeVoiceText` leaves as it is: normal, free of marks, and with
      no word after a space that starts with a filler. */
  predicate VoiceClean(s: string) {
    && Normal(s) && MarkFree(s)
    && forall m :: 0 <= m < |Fillers| ==> FreeOf(s, " " + Fillers[m])
  }

  /** The filler words: Hebrew words free of marks. */
  lemma FillerWords()
    ensures forall m :: 0 <= m < |Fillers| ==> Fillers[m] != [] && HebrewWord(Fillers[m]) && MarkFree(Fillers[m])
  {
    forall m | 0 <= m < |Fillers| ensures MarkFree(Fillers[m]) {
      FreeOfMissingChar(Fillers[m], "פסיק", 1);
    }
  }

  /** No two filler words start with the same letter. */
  lemma FillerInitials()
    ensures forall p, q :: 0 <= p < q < |Fillers| ==> Fillers[p][0] != Fillers[q][0]
  {
  }

  /** Joining two mark-free strings with a space keeps them mark-free. */
  lemma MarkFreeJoin(x: string, y: string)
    requires MarkFree(x) && MarkFree(y)
    ensures MarkFree(x + " " + y)
  {
    CharsAvoidAppend(x, " ", Marks);
    CharsAvoidAppend(x + " ", y, Marks);
    FreeOfJoin(x, y, "פסיק", 0);
  }

  /** Joining two clean non-empty strings with a space keeps them clean. */
  lemma VoiceCleanJoin(x: string, y: string)
    requires VoiceClean(x) && VoiceClean(y) && x != [] && y != []
    ensures VoiceClean(x + " " + y)
  {
    NormalJoin(x, " ", y);
    MarkFreeJoin(x, y);
    FillerWords();
    forall m | 0 <= m < |Fillers| ensures FreeOf(x + " " + y, " " + Fillers[m]) {
      HebrewWordShape(Fillers[m]);
      FreeOfJoin(x, y, " " + Fillers[m], 0);
    }
  }

  /** The replacements before the filler pass change nothing in trimmed
      mark-free text. */
  lemma MarkPassesFixed(s: string)
    requires Trimmed(s) && MarkFree(s)
    ensures MarkPasses(s) == s
  {
    TrimOfTrimmed(s);
    ReplaceCharsNone(s, {'.', '?', '!'}, ' ');
    ReplaceCharsNone(s, {'\U{FF0C}'}, ',');
    FreeOfExtension(s, "פסיק", "ים");
    assert "פסיק" + "ים" == "פסיקים";
    FreeOfNone(s, "פסיקים");
    FreeOfNone(s, "פסיק");
    ReplaceWordAbsent(s, "פסיקים", ",", 0);
    ReplaceWordAbsent(s, "פסיק", ",", 0);
  }

  /** `normalizeVoiceText` changes nothing in clean text. */
  lemma NormalizeVoiceTextFixed(s: string)
    requires VoiceClean(s)
    ensures NormalizeVoiceText(s) == s
  {
    MarkPassesFixed(s);
    forall m | 0 <= m < |Fillers| ensures forall k :: !OccursAt(s, SpacedPattern(Fillers[m], false), k) {
      FreeOfNone(s, " " + Fillers[m]);
    }
    SpacedSkip(s, Fillers, false, " ", 0, |s|);
    assert ReplaceSpacedFrom(s, Fillers, false, " ", 0) == s by {
      assert s[0..|s|] == s;
    }
    NormalFixed(s);
  }

  /** A filler between two clean clauses is dropped with the spaces around it
      and one space takes its place: "חלב תודה ביצים" becomes "חלב ביצים". */
  lemma NormalizeVoiceTextDropsFiller(a: string, f: string, b: string)
    requires VoiceClean(a) && VoiceClean(b) && a != [] && b != [] && f in Fillers
    ensures NormalizeVoiceText(a + " " + f + " " + b) == a + " " + b
  {
    FillerWords();
    HebrewWordShape(f);
    var fb := f + " " + b;
    var s := a + " " + fb;
    assert s == a + " " + f + " " + b;
    NormalJoin(f, " ", b);
    NormalJoin(a, " ", fb);
    MarkFreeJoin(f, b);
    MarkFreeJoin(a, fb);
    MarkPassesFixed(s);
    FillerPassDrops(a, f, b);
    NormalJoin(a, " ", b);
    NormalFixed(a + " " + b);
  }

  /** The filler pass on a filler between two filler-free strings. */
  lemma FillerPassDrops(a: string, f: string, b: string)
    requires SingleSpaced(a + " " + f + " " + b) && f in Fillers
    requires forall m :: 0 <= m < |Fillers| ==> FreeOf(a, " " + Fillers[m]) && FreeOf(b, " " + Fillers[m])
    ensures ReplaceSpacedFrom(a + " " + f + " " + b, Fillers, false, " ", 0) == a + " " + b
  {
    var s := a + " " + f + " " + b;
    FillersBefore(a, f + " " + b);
    assert a + " " + (f + " " + b) == s;
    FillersAfter(a + " " + f + " ", b);
    OccursBetween(a, " " + f + " ", b);
    assert a + (" " + f + " " + b) == s;
    assert s[..|a|] == a && s[|a| + |f| + 2..] == b;
    var i :| 0 <= i < |Fillers| && Fillers[i] == f;
    FillerWords();
    FillerInitials();
    SpacedOnlyAt(s, Fillers, false, " ", |a|, i);
    AppendAssoc(a, " ", b);
  }

  /** No filler pattern starts inside a filler-free `x` joined to anything by a space. */
  lemma FillersBefore(x: string, y: string)
    requires forall m :: 0 <= m < |Fillers| ==> FreeOf(x, " " + Fillers[m])
    ensures forall k, m :: 0 <= k < |x| && 0 <= m < |Fillers| ==> !OccursAt(x + " " + y, SpacedPattern(Fillers[m], false), k)
  {
    FillerWords();
    forall m | 0 <= m < |Fillers|
      ensures forall k :: 0 <= k < |x| ==> !OccursAt(x + " " + y, " " + Fillers[m], k)
    {
      HebrewWordShape(Fillers[m]);
      NoneBeforeJoin(x, y, " " + Fillers[m], 0);
    }
  }

  /** No filler pattern starts inside a filler-free `y` at the end. */
  lemma FillersAfter(x: string, y: string)
    requires forall m :: 0 <= m < |Fillers| ==> FreeOf(y, " " + Fillers[m])
    ensures forall k, m :: |x| <= k && 0 <= m < |Fillers| ==> !OccursAt(x + y, SpacedPattern(Fillers[m], false), k)
  {
    forall m | 0 <= m < |Fillers|
      ensures forall k :: |x| <= k ==> !OccursAt(x + y, " " + Fillers[m], k)
    {
      NoneAfter(x, y, " " + Fillers[m]);
    }
  }

  // ---------------------------------------------------------------------
  // quantity words
  // ---------------------------------------------------------------------

  /** `isQtyToken`: all digits, or a number word. */
  predicate IsQtyToken(v: Vocab, tok: string) {
    tok != "" && (AllDigits(tok) || tok in v.numbers)
  }

  /** `qtyFromToken`: the digits' value or the number word's value; a value
      exists exactly for the quantity tokens. */
  function QtyFromToken(v: Vocab, tok: string): (r: Option<nat>)
    ensures r.Some? <==> IsQtyToken(v, tok)
    ensures AllDigits(tok) && tok != "" ==> r == Some(DigitsValue(tok))
  {
    if tok == "" then None
    else if AllDigits(tok) then Some(DigitsValue(tok))
    else if tok in v.numbers then Some(v.numbers[tok])
    else None
  }

  /** The number words of App.tsx stand for 1 to 10. */
  lemma NumberWordValues(tok: string)
    ensures !AllDigits(tok) && QtyFromToken(Tables, tok).Some? ==> 1 <= QtyFromToken(Tables, tok).value <= 10
  {
  }

  /** `Math.max(1, qtyFromToken(tok) || 1)`: the quantity a token stands for,
      at least 1. */
  function TokenQuantity(v: Vocab, tok: string): (q: int)
    ensures q >= 1
    ensures QtyFromToken(v, tok).Some? && QtyFromToken(v, tok).value >= 1 ==> q == QtyFromToken(v, tok).value
    ensures QtyFromToken(v, tok).None? ==> q == 1
  {
    match QtyFromToken(v, tok)
    case Some(n) => Max(1, if n == 0 then 1 else n)
    case None => 1
  }

  /** A spoken "0" is a quantity token whose quantity is 1. */
  lemma ZeroDigitIsOne(v: Vocab)
    ensures IsQtyToken(v, "0") && QtyFromToken(v, "0") == Some(0) && TokenQuantity(v, "0") == 1
  {
    assert AllDigits("0");
    assert DigitsValue("0") == 0 by { assert "0"[..0] == ""; }
  }

  /** Keys every plain JavaScript object inherits from `Object.prototype`. */
  const InheritedKeys: set<string> := {
    "constructor", "__proto__", "toString", "toLocaleString", "valueOf", "hasOwnProperty",
    "isPrototypeOf", "propertyIsEnumerable", "__defineGetter__", "__defineSetter__",
    "__lookupGetter__", "__lookupSetter__"}

  /** `isQtyToken` as written: `HEB_NUMBER_WORDS[tok] != null` on a plain object
      also holds for the keys it inherits. */
  predicate IsQtyTokenAsWritten(v: Vocab, tok: string) {
    tok != "" && (AllDigits(tok) || tok in v.numbers || tok in InheritedKeys)
  }

  /** A word of lower-case ASCII letters. */
  predicate AsciiLowerWord(s: string) {
    |s| > 0 && forall i :: 0 <= i < |s| ==> 'a' <= s[i] <= 'z'
  }

  /** Every number word begins with a Hebrew letter. */
  lemma NumberWordsAreHebrew()
    ensures forall w :: w in HebNumberWords ==> |w| > 0 && '\U{05D0}' <= w[0] <= '\U{05EA}'
  {
  }

  /** A lower-case ASCII word is its own normal form and is no quantity token. */
  lemma AsciiWordSurvives(s: string)
    requires AsciiLowerWord(s)
    ensures Normalize(s) == s
    ensures !IsQtyToken(Tables, s) && QtyFromToken(Tables, s).None?
  {
    assert !IsQtyToken(Tables, s) by {
      NumberWordsAreHebrew();
      assert !IsDigit(s[0]);
    }
    assert Normal(s) by {
      assert forall i :: 0 <= i < |s| ==> !IsSpace(s[i]);
    }
    assert LowerCase(s) && CharsAvoid(s, Quotes);
    NormalFixedPoint(s);
  }

  /** A normal string of letters without quotes and upper case is its own normal form. */
  lemma NormalFixedPoint(s: string)
    requires Normal(s) && LowerCase(s) && CharsAvoid(s, Quotes)
    ensures Normalize(s) == s
  {
    TrimOfTrimmed(s);
    LowerFixed(s);
    RemoveCharsNone(s, Quotes);
    CollapseOfSingleSpaced(s);
  }

  /** The token "constructor", which `Normalize` leaves as it is, passes the
      check as written although it has no numeric value. */
  lemma InheritedKeyIsQuantityAsWritten()
    ensures IsQtyTokenAsWritten(Tables, "constructor")
    ensures !IsQtyToken(Tables, "constructor") && QtyFromToken(Tables, "constructor").None?
    ensures Normalize("constructor") == "constructor"
  {
    AsciiWordSurvives("constructor");
  }

  // ---------------------------------------------------------------------
  // vocabularies
  // ---------------------------------------------------------------------

  /** `MULTIWORD_PREFIXES`: first words that almost always take a second word. */
  const MultiwordPrefixes: set<string> := {
    "רסק", "שמן", "גבינה", "גבינת", "אבקת", "מיץ", "מי", "רוטב", "קמח", "סוכר", "מלח", "פלפל",
    "מרק", "פירורי", "חמאת", "בשר", "עוף", "דג", "דגים", "קפה", "תה", "שוקולד", "מעדן", "יוגורט"}

  /** `COMPOUND_PHRASES` */
  const CompoundPhrases: set<string> := {
    "מלפפון חמוץ", "תפוח אדמה", "בצל ירוק", "שום כתוש", "גזר גמדי", "עגבניות שרי", "פלפל חריף",
    "פלפל ירוק", "חסה קרחון", "פטריות שמפיניון", "רסק עגבניות", "שמן זית", "שמן קנולה", "קמח לבן",
    "קמח מלא", "סוכר חום", "אבקת אפייה", "סודה לשתייה", "פירורי לחם", "גבינה צהובה", "גבינה לבנה",
    "גבינת שמנת", "גבינה בולגרית", "שמנת מתוקה", "ביצים קשות", "חזה עוף", "בשר טחון", "דג סלמון",
    "נקניקיות עוף", "ציפס קפוא", "צ\'יפס קפוא", "צ׳יפס קפוא", "פיצה קפואה", "ירקות קפואים"}

  /** `ADJECTIVES` */
  const Adjectives: set<string> := {
    "צהוב", "צהובה", "צהובים", "צהובות", "אדום", "אדומה", "אדומים", "אדומות", "ירוק", "ירוקה",
    "ירוקים", "ירוקות", "כחול", "כחולה", "כחולים", "כחולות", "שחור", "שחורה", "שחורים", "שחורות",
    "לבן", "לבנה", "לבנים", "לבנות", "אפור", "אפורה", "אפורים", "אפורות", "ורוד", "ורודה", "ורודים",
    "ורודות", "סגול", "סגולה", "סגולים", "סגולות", "חום", "חומה", "חומים", "חומות", "חריף", "חריפה",
    "חריפים", "חריפות", "חמוץ", "חמוצה", "חמוצים", "חמוצות", "מתוק", "מתוקה", "מתוקים", "מתוקות",
    "גדול", "גדולה", "גדולים", "גדולות", "קטן", "קטנה", "קטנים", "קטנות", "טרי", "טרייה", "טריים",
    "טריות", "קפוא", "קפואה", "קפואים", "קפואות"}

  /** `NOUN_COMPOUND_TAILS` */
  const NounCompoundTails: set<string> := {
    "שיניים", "ידיים", "פנים", "רצפה", "חלון", "כביסה", "כלים", "טואלט", "סופג", "זבל", "ניקוי",
    "רחצה", "גילוח"}

  /** The connector words that keep a name open: "of" and "with". */
  predicate IsLinker(t: string) {
    t == "של" || t == "עם"
  }

  // ---------------------------------------------------------------------
  // compound merging
  // ---------------------------------------------------------------------

  /** The word after token `i`, or nothing at the end. */
  function NextToken(ts: seq<string>, i: nat): string {
    if i + 1 < |ts| then ts[i + 1] else ""
  }

  /** `stripHe`: drop a leading definite article from a word longer than it. */
  function StripHe(t: string): string {
    if |t| > 1 && t[0] == 'ה' then t[1..] else t
  }

  /** The token `mergeCompounds` makes of the adjacent pair `a b`, if it fuses
      them: a listed phrase, an adjective, or a listed tail noun, each tried
      as spoken and with the article stripped from `b`. */
  function Fuse(v: Vocab, a: string, b: string): Option<string> {
    if a != "" && b != "" && !IsQtyToken(v, a) && !IsQtyToken(v, b) then
      var pair := a + " " + b;
      var pairNorm := a + " " + StripHe(b);
      if pair in v.phrases || pairNorm in v.phrases then
        Some(if pair in v.phrases then pair else pairNorm)
      else if b in v.adjectives || StripHe(b) in v.adjectives then
        Some(if b in v.adjectives then pair else pairNorm)
      else if b in v.tails || StripHe(b) in v.tails then
        Some(if b in v.tails then pair else pairNorm)
      else None
    else None
  }

  /** The greedy left-to-right merge `mergeCompounds` computes. */
  function Merge(v: Vocab, ts: seq<string>): seq<string>
    decreases |ts|
  {
    if ts == [] then []
    else
      match Fuse(v, ts[0], NextToken(ts, 0))
      case Some(f) => [f] + Merge(v, ts[2..])
      case None => [ts[0]] + Merge(v, ts[1..])
  }

  /** `f` is the two adjacent tokens `a b` fused, the second possibly without its article. */
  predicate FusedForm(v: Vocab, f: string, a: string, b: string) {
    !IsQtyToken(v, a) && !IsQtyToken(v, b) && (f == a + " " + b || f == a + " " + StripHe(b))
  }

  /** `out` splits `ts` into consecutive groups in order: each output token is
      one input token, or two adjacent non-quantity tokens fused. */
  predicate MergedFrom(v: Vocab, out: seq<string>, ts: seq<string>)
    decreases |ts|
  {
    if ts == [] then out == []
    else
      && out != []
      && ((out[0] == ts[0] && MergedFrom(v, out[1..], ts[1..]))
          || (|ts| >= 2 && FusedForm(v, out[0], ts[0], ts[1]) && MergedFrom(v, out[1..], ts[2..])))
  }

  /** `mergeCompounds` */
  method MergeCompounds(v: Vocab, tokens: seq<string>) returns (out: seq<string>)
    ensures out == Merge(v, tokens)
  {
    out := [];
    var i := 0;
    while i < |tokens|
      invariant 0 <= i <= |tokens|
      invariant out + Merge(v, tokens[i..]) == Merge(v, tokens)
    {
      var a := tokens[i];
      var b := if i + 1 < |tokens| then tokens[i + 1] else "";
      var fused := Fuse(v, a, b);
      MergeProgress(v, tokens, i, out);
      if fused.Some? {
        out := out + [fused.value];
        i := i + 2;
      } else {
        out := out + [a];
        i := i + 1;
      }
    }
    assert tokens[i..] == [];
  }

  /** One turn of the merge loop keeps its invariant. */
  lemma MergeProgress(v: Vocab, ts: seq<string>, i: nat, out: seq<string>)
    requires i < |ts| && out + Merge(v, ts[i..]) == Merge(v, ts)
    ensures var f := Fuse(v, ts[i], NextToken(ts, i));
      if f.Some? then i + 1 < |ts| && (out + [f.value]) + Merge(v, ts[i + 2..]) == Merge(v, ts)
      else (out + [ts[i]]) + Merge(v, ts[i + 1..]) == Merge(v, ts)
  {
    if Fuse(v, ts[i], NextToken(ts, i)).Some? {
      MergeFusedAt(v, ts, i);
    } else {
      MergeKeptAt(v, ts, i);
    }
  }

  /** Where the tokens at `i` fuse, the merge from `i` starts with the fused token. */
  lemma MergeFusedAt(v: Vocab, ts: seq<string>, i: nat)
    requires i < |ts| && Fuse(v, ts[i], NextToken(ts, i)).Some?
    ensures i + 1 < |ts|
    ensures Merge(v, ts[i..]) == [Fuse(v, ts[i], ts[i + 1]).value] + Merge(v, ts[i + 2..])
  {
    assert ts[i..][0] == ts[i];
    assert ts[i..][2..] == ts[i + 2..];
  }

  /** Where they do not, it starts with token `i` as it is. */
  lemma MergeKeptAt(v: Vocab, ts: seq<string>, i: nat)
    requires i < |ts| && Fuse(v, ts[i], NextToken(ts, i)).None?
    ensures Merge(v, ts[i..]) == [ts[i]] + Merge(v, ts[i + 1..])
  {
    assert ts[i..][0] == ts[i];
    assert ts[i..][1..] == ts[i + 1..];
  }

  /** The merge splits its input into one- and two-token groups, fusing only
      non-quantity tokens, and keeps their order. */
  lemma {:induction false} MergeShape(v: Vocab, ts: seq<string>)
    ensures MergedFrom(v, Merge(v, ts), ts)
    decreases |ts|
  {
    if ts != [] {
      var b := if 1 < |ts| then ts[1] else "";
      match Fuse(v, ts[0], b)
      case Some(f) =>
        MergeShape(v, ts[2..]);
        assert Merge(v, ts)[1..] == Merge(v, ts[2..]);
      case None =>
        MergeShape(v, ts[1..]);
        assert Merge(v, ts)[1..] == Merge(v, ts[1..]);
    }
  }

  /** Grouping never adds tokens and at most halves them. */
  lemma {:induction false} MergedFromLength(v: Vocab, out: seq<string>, ts: seq<string>)
    requires MergedFrom(v, out, ts)
    ensures |ts| <= 2 * |out| && |out| <= |ts|
    decreases |ts|
  {
    if ts != [] {
      if out[0] == ts[0] && MergedFrom(v, out[1..], ts[1..]) {
        MergedFromLength(v, out[1..], ts[1..]);
      } else {
        MergedFromLength(v, out[1..], ts[2..]);
      }
    }
  }

  /** No adjacent pair can fuse. */
  predicate NoFusion(v: Vocab, ts: seq<string>) {
    forall i :: 0 <= i < |ts| - 1 ==> Fuse(v, ts[i], ts[i + 1]).None?
  }

  /** When no adjacent pair fuses, the merge changes nothing. */
  lemma {:induction false} MergeWithoutFusion(v: Vocab, ts: seq<string>)
    requires NoFusion(v, ts)
    requires forall i :: 0 <= i < |ts| ==> ts[i] != ""
    ensures Merge(v, ts) == ts
    decreases |ts|
  {
    if ts != [] {
      if |ts| > 1 {
        assert Fuse(v, ts[0], ts[1]).None?;
      }
      assert NoFusion(v, ts[1..]) by {
        forall i | 0 <= i < |ts[1..]| - 1 ensures Fuse(v, ts[1..][i], ts[1..][i + 1]).None? {
          assert Fuse(v, ts[i + 1], ts[i + 2]).None?;
        }
      }
      MergeWithoutFusion(v, ts[1..]);
    }
  }

  /** A quantity token is never fused: it survives the merge as its own token. */
  lemma {:induction false} QuantityTokensSurviveMerge(v: Vocab, ts: seq<string>, k: nat)
    requires k < |ts| && IsQtyToken(v, ts[k])
    ensures ts[k] in Merge(v, ts)
    decreases |ts|
  {
    var b := if 1 < |ts| then ts[1] else "";
    match Fuse(v, ts[0], b)
    case Some(f) =>
      assert k >= 2 by {
        assert !IsQtyToken(v, ts[0]) && !IsQtyToken(v, b);
      }
      QuantityTokensSurviveMerge(v, ts[2..], k - 2);
      assert ts[2..][k - 2] == ts[k];
    case None =>
      if k > 0 {
        QuantityTokensSurviveMerge(v, ts[1..], k - 1);
        assert ts[1..][k - 1] == ts[k];
      }
  }

  // ---------------------------------------------------------------------
  // the token scanner of one clause
  // ---------------------------------------------------------------------

  /** The scanner's variables: `pendingQty`, `nameParts` and `out`. */
  datatype Scan = Scan(pending: int, nameParts: seq<string>, out: seq<ParsedItem>)

  const ScanStart := Scan(1, [], [])

  /** `flush(qtyOverride)`: emit the accumulated name, if any, with the override
      or the pending quantity (at least 1); then reset. */
  function Flush(st: Scan, qtyOverride: Option<int>): Scan {
    var name := Trim(Join(st.nameParts, " "));
    var q := Max(1, match qtyOverride case Some(o) => o case None => st.pending);
    Scan(1, [], if name != "" then st.out + [ParsedItem(name, q)] else st.out)
  }

  /** One iteration of the scanner's `for` loop, on token `i`. */
  function Step(v: Vocab, tokens: seq<string>, i: nat, st: Scan): Scan
    requires i < |tokens|
  {
    var tok := tokens[i];
    var nxt := NextToken(tokens, i);
    if IsQtyToken(v, tok) then
      var q := TokenQuantity(v, tok);
      if |st.nameParts| == 0 then st.(pending := q)
      else if nxt == "" then Flush(st, Some(q))
      else Flush(st, None).(pending := q)
    else
      var st1 := st.(nameParts := st.nameParts + [tok]);
      if |st1.nameParts| == 1 && tok in v.prefixes then st1
      else if IsLinker(tok) || IsLinker(nxt) then st1
      else if IsQtyToken(v, nxt) then st1
      else Flush(st1, None)
  }

  /** The scanner's state after the first `n` tokens. */
  function ScanTo(v: Vocab, tokens: seq<string>, n: nat): Scan
    requires n <= |tokens|
  {
    if n == 0 then ScanStart else Step(v, tokens, n - 1, ScanTo(v, tokens, n - 1))
  }

  /** A non-empty normal name and a quantity of at least 1. */
  predicate WellFormedItem(it: ParsedItem) {
    it.name != "" && Normal(it.name) && it.qty >= 1
  }

  predicate ItemsWellFormed(items: seq<ParsedItem>) {
    forall k :: 0 <= k < |items| ==> WellFormedItem(items[k])
  }

  /** One item of the closing `map`/`filter`: the name collapsed and trimmed,
      the quantity clamped to at least 1; nothing when the name is empty. */
  function CleanItem(it: ParsedItem): (r: Option<ParsedItem>)
    ensures r.Some? ==> WellFormedItem(r.value)
  {
    var name := Trim(Collapse(it.name));
    TrimCollapseNormal(it.name);
    if name == "" then None
    else Some(ParsedItem(name, Max(1, if it.qty == 0 then 1 else it.qty)))
  }

  /** The closing `map`/`filter` over all items. */
  function CleanItems(out: seq<ParsedItem>): (r: seq<ParsedItem>)
    ensures ItemsWellFormed(r)
    ensures |r| <= |out|
  {
    if out == [] then []
    else
      var rest := CleanItems(out[1..]);
      match CleanItem(out[0])
      case None => rest
      case Some(it) => [it] + rest
  }

  /** The items the scanner yields for a merged token list. */
  function SegmentItems(v: Vocab, tokens: seq<string>): seq<ParsedItem> {
    var st := ScanTo(v, tokens, |tokens|);
    CleanItems((if |st.nameParts| > 0 then Flush(st, None) else st).out)
  }

  /** `seg.split(" ").filter(Boolean)` */
  function SplitTokens(seg: string): seq<string> {
    NonEmpty(Split(seg, {' '}))
  }

  /** What `parseSegmentTokensToItems` returns for one clause. */
  function ParseSegment(v: Vocab, segRaw: string): (r: seq<ParsedItem>)
    ensures ItemsWellFormed(r)
  {
    var seg := Normalize(segRaw);
    if seg == "" then []
    else
      var tokens := Merge(v, SplitTokens(seg));
      if tokens == [] then [] else SegmentItems(v, tokens)
  }

  /** `parseSegmentTokensToItems` */
  method ParseSegmentTokensToItems(v: Vocab, segRaw: string) returns (items: seq<ParsedItem>)
    ensures items == ParseSegment(v, segRaw)
    ensures ItemsWellFormed(items)
  {
    var seg := Normalize(segRaw);
    if seg == "" {
      return [];
    }
    var tokens := SplitTokens(seg);
    tokens := MergeCompounds(v, tokens);
    if |tokens| == 0 {
      return [];
    }
    items := ScanTokens(v, tokens);
  }

  /** The scanning loop of `parseSegmentTokensToItems`, its final flush and
      its closing `map`/`filter`. */
  method ScanTokens(v: Vocab, tokens: seq<string>) returns (items: seq<ParsedItem>)
    ensures items == SegmentItems(v, tokens)
    ensures ItemsWellFormed(items)
  {
    var pendingQty := 1;
    var nameParts: seq<string> := [];
    var out: seq<ParsedItem> := [];
    for i := 0 to |tokens|
      invariant Scan(pendingQty, nameParts, out) == ScanTo(v, tokens, i)
    {
      var tok := tokens[i];
      var nxt := if i + 1 < |tokens| then tokens[i + 1] else "";
      var st := Scan(pendingQty, nameParts, out);
      if IsQtyToken(v, tok) {
        var q := TokenQuantity(v, tok);
        if |nameParts| == 0 {
          pendingQty := q;
        } else if nxt == "" {
          st := Flush(st, Some(q));
          pendingQty, nameParts, out := st.pending, st.nameParts, st.out;
        } else {
          st := Flush(st, None);
          pendingQty, nameParts, out := q, st.nameParts, st.out;
        }
      } else {
        nameParts := nameParts + [tok];
        if |nameParts| == 1 && tok in v.prefixes {
        } else if IsLinker(tok) || IsLinker(nxt) {
        } else if IsQtyToken(v, nxt) {
        } else {
          st := Flush(Scan(pendingQty, nameParts, out), None);
          pendingQty, nameParts, out := st.pending, st.nameParts, st.out;
        }
      }
    }
    var st := Scan(pendingQty, nameParts, out);
    if |nameParts| > 0 {
      st := Flush(st, None);
    }
    items := CleanItems(st.out);
  }

  // ---------------------------------------------------------------------
  // what the scanner yields
  // ---------------------------------------------------------------------

  /** A token the scanner closes on its own: a non-empty trimmed word or
      merged phrase that is no quantity, no multi-word prefix and no connector. */
  predicate ClosingWord(v: Vocab, t: string) {
    t != "" && Trimmed(t) && !IsQtyToken(v, t) && t !in v.prefixes && !IsLinker(t)
  }

  /** A closing word that is also normal, so cleaning keeps it as it is. */
  predicate PlainToken(v: Vocab, t: string) {
    ClosingWord(v, t) && Normal(t)
  }

  /** The first `n` tokens, in order, each as one item with quantity 1. */
  predicate OnePerTokenUpTo(items: seq<ParsedItem>, ts: seq<string>, n: nat) {
    n <= |ts| && |items| == n && forall k :: 0 <= k < n ==> items[k] == ParsedItem(ts[k], 1)
  }

  /** Every token, in order, as one item with quantity 1. */
  predicate OnePerToken(items: seq<ParsedItem>, ts: seq<string>) {
    OnePerTokenUpTo(items, ts, |ts|)
  }

  /** Cleaning leaves a well-formed item alone. */
  lemma CleanItemFixed(it: ParsedItem)
    requires WellFormedItem(it)
    ensures CleanItem(it) == Some(it)
  {
    NormalFixed(it.name);
  }

  /** Cleaning leaves well-formed items alone. */
  lemma {:induction false} CleanWellFormed(items: seq<ParsedItem>)
    requires ItemsWellFormed(items)
    ensures CleanItems(items) == items
  {
    if items != [] {
      CleanItemFixed(items[0]);
      WellFormedTail(items);
      CleanWellFormed(items[1..]);
    }
  }

  lemma WellFormedTail(items: seq<ParsedItem>)
    requires items != [] && ItemsWellFormed(items)
    ensures ItemsWellFormed(items[1..])
  {
    forall k | 0 <= k < |items[1..]| ensures WellFormedItem(items[1..][k]) {
      assert items[1..][k] == items[k + 1];
    }
  }

  /** A plain token flushed alone becomes the item `(t, q)`. */
  lemma FlushPlain(v: Vocab, st: Scan, t: string, q: int)
    requires ClosingWord(v, t) && st.nameParts == [t] && q >= 1
    ensures Flush(st, Some(q)) == Scan(1, [], st.out + [ParsedItem(t, q)])
    ensures Flush(st.(pending := q), None) == Scan(1, [], st.out + [ParsedItem(t, q)])
  {
    assert Join([t], " ") == t;
    TrimOfTrimmed(t);
  }

  /** N plain tokens with nothing between them give N items of quantity 1, in
      spoken order. */
  lemma {:induction false} PlainRunScan(v: Vocab, ts: seq<string>, n: nat)
    requires n <= |ts|
    requires forall k :: 0 <= k < |ts| ==> ClosingWord(v, ts[k])
    ensures ScanTo(v, ts, n).pending == 1 && ScanTo(v, ts, n).nameParts == []
    ensures OnePerTokenUpTo(ScanTo(v, ts, n).out, ts, n)
  {
    if n > 0 {
      PlainRunScan(v, ts, n - 1);
      assert ClosingWord(v, ts[n - 1]);
      if n < |ts| {
        assert ClosingWord(v, ts[n]);
      }
      WordCloses(v, ts, n - 1);
      OnePerTokenAppend(ScanTo(v, ts, n - 1).out, ts, n - 1);
    }
  }

  /** From a state with no open name, a closing word followed by a word that
      neither is a quantity nor a connector is closed at once, with the
      pending quantity. */
  lemma WordCloses(v: Vocab, ts: seq<string>, i: nat)
    requires i < |ts| && ClosingWord(v, ts[i])
    requires !IsQtyToken(v, NextToken(ts, i)) && !IsLinker(NextToken(ts, i))
    requires ScanTo(v, ts, i).nameParts == [] && ScanTo(v, ts, i).pending >= 1
    ensures ScanTo(v, ts, i + 1)
      == Scan(1, [], ScanTo(v, ts, i).out + [ParsedItem(ts[i], ScanTo(v, ts, i).pending)])
  {
    var st := ScanTo(v, ts, i);
    FlushPlain(v, st.(nameParts := [ts[i]]), ts[i], st.pending);
  }

  /** From a state with no open name, a closing word followed by a quantity
      stays open. */
  lemma WordWaits(v: Vocab, ts: seq<string>, i: nat)
    requires i < |ts| && ClosingWord(v, ts[i]) && IsQtyToken(v, NextToken(ts, i))
    requires ScanTo(v, ts, i).nameParts == []
    ensures ScanTo(v, ts, i + 1) == ScanTo(v, ts, i).(nameParts := [ts[i]])
  {
  }

  /** With no open name, a quantity only becomes the pending quantity. */
  lemma QuantityPends(v: Vocab, ts: seq<string>, i: nat)
    requires i < |ts| && IsQtyToken(v, ts[i]) && ScanTo(v, ts, i).nameParts == []
    ensures ScanTo(v, ts, i + 1) == ScanTo(v, ts, i).(pending := TokenQuantity(v, ts[i]))
  {
  }

  /** A quantity after the single open word `t` closes it: as its own
      quantity when nothing follows, otherwise with the pending quantity
      while becoming the next pending quantity. */
  lemma QuantityCloses(v: Vocab, ts: seq<string>, i: nat, t: string)
    requires i < |ts| && IsQtyToken(v, ts[i]) && ClosingWord(v, t)
    requires ScanTo(v, ts, i).nameParts == [t] && ScanTo(v, ts, i).pending >= 1
    ensures var st := ScanTo(v, ts, i);
      ScanTo(v, ts, i + 1) == if NextToken(ts, i) == ""
        then Scan(1, [], st.out + [ParsedItem(t, TokenQuantity(v, ts[i]))])
        else Scan(TokenQuantity(v, ts[i]), [], st.out + [ParsedItem(t, st.pending)])
  {
    var st := ScanTo(v, ts, i);
    FlushPlain(v, st, t, TokenQuantity(v, ts[i]));
    FlushPlain(v, st, t, st.pending);
    assert st.(pending := st.pending) == st;
  }

  lemma OnePerTokenAppend(items: seq<ParsedItem>, ts: seq<string>, n: nat)
    requires OnePerTokenUpTo(items, ts, n) && n < |ts|
    ensures OnePerTokenUpTo(items + [ParsedItem(ts[n], 1)], ts, n + 1)
  {
  }

  lemma PlainRunItems(v: Vocab, ts: seq<string>)
    requires forall k :: 0 <= k < |ts| ==> PlainToken(v, ts[k])
    ensures OnePerToken(SegmentItems(v, ts), ts)
  {
    PlainRunScan(v, ts, |ts|);
    var out := ScanTo(v, ts, |ts|).out;
    assert forall k :: 0 <= k < |out| ==> out[k].name == ts[k];
    assert ItemsWellFormed(out);
    CleanWellFormed(out);
  }

  /** The same at the level of a clause: when its words are plain and no two
      adjacent words merge, each word is one item of quantity 1. */
  lemma PlainClause(v: Vocab, seg: string)
    requires forall k :: 0 <= k < |SplitTokens(Normalize(seg))| ==> PlainToken(v, SplitTokens(Normalize(seg))[k])
    requires NoFusion(v, SplitTokens(Normalize(seg)))
    ensures OnePerToken(ParseSegment(v, seg), SplitTokens(Normalize(seg)))
  {
    var ts := SplitTokens(Normalize(seg));
    MergeWithoutFusion(v, ts);
    PlainRunItems(v, ts);
    if Normalize(seg) == "" {
      assert Split("", {' '}) == [""];
      assert ts == [];
    }
  }

  /** Prefix quantity: "שתי בננות" gives one item with quantity 2. */
  lemma PrefixQuantity(v: Vocab, q: string, w: string)
    requires IsQtyToken(v, q) && PlainToken(v, w)
    ensures SegmentItems(v, [q, w]) == [ParsedItem(w, TokenQuantity(v, q))]
  {
    var ts := [q, w];
    QuantityPends(v, ts, 0);
    WordCloses(v, ts, 1);
    CleanWellFormed([ParsedItem(w, TokenQuantity(v, q))]);
  }

  /** Suffix quantity: "בננות שתיים" gives one item with quantity 2. */
  lemma SuffixQuantity(v: Vocab, w: string, q: string)
    requires IsQtyToken(v, q) && PlainToken(v, w)
    ensures SegmentItems(v, [w, q]) == [ParsedItem(w, TokenQuantity(v, q))]
  {
    var ts := [w, q];
    WordWaits(v, ts, 0);
    QuantityCloses(v, ts, 1, w);
    CleanWellFormed([ParsedItem(w, TokenQuantity(v, q))]);
  }

  /** A quantity between two names closes the first with quantity 1 and goes
      to the second. */
  lemma MidQuantityGoesForward(v: Vocab, w1: string, q: string, w2: string)
    requires IsQtyToken(v, q) && PlainToken(v, w1) && PlainToken(v, w2)
    ensures SegmentItems(v, [w1, q, w2]) == [ParsedItem(w1, 1), ParsedItem(w2, TokenQuantity(v, q))]
  {
    var ts := [w1, q, w2];
    WordWaits(v, ts, 0);
    QuantityCloses(v, ts, 1, w1);
    WordCloses(v, ts, 2);
    CleanWellFormed([ParsedItem(w1, 1), ParsedItem(w2, TokenQuantity(v, q))]);
  }

  /** A prefix quantity attaches only to the item right after it:
      "שתי מלפפונים עגבניות" gives two cucumbers and one tomato item. */
  lemma PrefixQuantityOnlyNext(v: Vocab, q: string, w1: string, w2: string)
    requires IsQtyToken(v, q) && PlainToken(v, w1) && PlainToken(v, w2)
    ensures SegmentItems(v, [q, w1, w2]) == [ParsedItem(w1, TokenQuantity(v, q)), ParsedItem(w2, 1)]
  {
    var ts := [q, w1, w2];
    QuantityPends(v, ts, 0);
    WordCloses(v, ts, 1);
    WordCloses(v, ts, 2);
    CleanWellFormed([ParsedItem(w1, TokenQuantity(v, q)), ParsedItem(w2, 1)]);
  }

  // ---------------------------------------------------------------------
  // a whole utterance
  // ---------------------------------------------------------------------

  /** The conjunctions `parseItemsFromText` turns into commas, in the order it does so. */
  const Conjunctions: seq<string> := ["וגם", "ואז", "אחר כך", "ואחר כך", "ו"]

  /** `.replace(/\s+w\s+/g, ",")` */
  function ConjunctionToComma(s: string, w: string): string
    requires w != [] && !IsSpace(w[0])
  {
    ReplaceSpacedFrom(s, [w], true, ",", 0)
  }

  /** The conjunction replacements from the `m`-th on, in the source's order. */
  function RewriteFrom(t: string, m: nat): string
    requires m <= |Conjunctions|
    decreases |Conjunctions| - m
  {
    if m == |Conjunctions| then t
    else
      ConjunctionWords();
      RewriteFrom(ConjunctionToComma(t, Conjunctions[m]), m + 1)
  }

  /** The five conjunction replacements, applied in the source's order. */
  function RewriteConjunctions(t: string): string {
    RewriteFrom(t, 0)
  }

  function TrimAll(parts: seq<string>): (r: seq<string>)
    ensures |r| == |parts| && forall k :: 0 <= k < |r| ==> r[k] == Trim(parts[k])
  {
    if parts == [] then [] else [Trim(parts[0])] + TrimAll(parts[1..])
  }

  /** The clauses `parseItemsFromText` hands to the scanner one by one. */
  function Segments(raw: string): seq<string> {
    var t := Normalize(NormalizeVoiceText(raw));
    if t == "" then [] else NonEmpty(TrimAll(Split(RewriteConjunctions(t), {',', '\n'})))
  }

  /** The items of the clauses, concatenated in order. */
  function ParseSegments(v: Vocab, segs: seq<string>): (r: seq<ParsedItem>)
    ensures ItemsWellFormed(r)
  {
    if segs == [] then []
    else
      var init := ParseSegments(v, segs[..|segs| - 1]);
      var last := ParseSegment(v, segs[|segs| - 1]);
      WellFormedAppend(init, last);
      init + last
  }

  lemma WellFormedAppend(a: seq<ParsedItem>, b: seq<ParsedItem>)
    requires ItemsWellFormed(a) && ItemsWellFormed(b)
    ensures ItemsWellFormed(a + b)
  {
    assert forall k :: |a| <= k < |a + b| ==> (a + b)[k] == b[k - |a|];
  }

  /** `parseItemsFromText` */
  method ParseItemsFromText(v: Vocab, raw: string) returns (out: seq<ParsedItem>)
    ensures out == ParseSegments(v, Segments(raw))
    ensures ItemsWellFormed(out)
  {
    var segments := Segments(raw);
    out := [];
    for k := 0 to |segments|
      invariant out == ParseSegments(v, segments[..k])
    {
      var parsed := ParseSegmentTokensToItems(v, segments[k]);
      ParseSegmentsSnoc(v, segments, k);
      out := out + parsed;
    }
    assert segments[..|segments|] == segments;
  }

  lemma ParseSegmentsSnoc(v: Vocab, segs: seq<string>, k: nat)
    requires k < |segs|
    ensures ParseSegments(v, segs[..k + 1]) == ParseSegments(v, segs[..k]) + ParseSegment(v, segs[k])
  {
    assert segs[..k + 1][..k] == segs[..k];
  }

  // ---------------------------------------------------------------------
  // the conjunction table
  // ---------------------------------------------------------------------

  /** Where the whitespace inside the `m`-th conjunction pattern ` w ` sits:
      nowhere (0) for the one-word conjunctions, after `אחר` for the others. */
  function InnerSpace(m: nat): nat {
    if m == 2 then 4 else if m == 3 then 5 else 0
  }

  /** Each conjunction starts with a Hebrew letter other than `כ`. */
  lemma ConjunctionWords()
    ensures forall m :: 0 <= m < |Conjunctions| ==>
      Conjunctions[m] != [] && '\U{05D0}' <= Conjunctions[m][0] <= '\U{05EA}' && Conjunctions[m][0] != 'כ'
  {
  }

  /** A Hebrew word without `ס` and without the first letters of the fillers is
      clean voice text, in lower case, without quotes, commas or line breaks. */
  lemma CleanHebrewWord(w: string)
    requires w != [] && HebrewWord(w) && CharsAvoid(w, {'ס', 'ב', 'פ', 'ת'})
    ensures VoiceClean(w) && LowerCase(w) && CharsAvoid(w, Quotes + {',', '\n'})
  {
    HebrewWordShape(w);
    FreeOfMissingChar(w, "פסיק", 1);
    assert forall p :: 0 <= p < |Fillers| ==> Fillers[p][0] in {'ב', 'פ', 'ת'};
    forall p | 0 <= p < |Fillers| ensures FreeOf(w, " " + Fillers[p]) {
      FreeOfMissingChar(w, " " + Fillers[p], 1);
    }
  }

  /** The conjunctions are clean voice text, in lower case, without quotes,
      commas or line breaks. */
  lemma ConjunctionShapes()
    ensures forall m :: 0 <= m < |Conjunctions| ==>
      VoiceClean(Conjunctions[m]) && LowerCase(Conjunctions[m]) && CharsAvoid(Conjunctions[m], Quotes + {',', '\n'})
  {
    forall m | 0 <= m < |Conjunctions|
      ensures VoiceClean(Conjunctions[m]) && LowerCase(Conjunctions[m]) && CharsAvoid(Conjunctions[m], Quotes + {',', '\n'})
    {
      if m == 2 || m == 3 {
        var first := if m == 2 then "אחר" else "ואחר";
        CleanHebrewWord("כך");
        CleanTwoWords(first, "כך");
        assert Conjunctions[m] == first + " " + "כך";
      } else {
        CleanHebrewWord(Conjunctions[m]);
      }
    }
  }

  /** Two such words joined by a space are clean the same way. */
  lemma CleanTwoWords(x: string, y: string)
    requires x != [] && HebrewWord(x) && CharsAvoid(x, {'ס', 'ב', 'פ', 'ת'})
    requires VoiceClean(y) && LowerCase(y) && CharsAvoid(y, Quotes + {',', '\n'}) && y != []
    ensures VoiceClean(x + " " + y) && LowerCase(x + " " + y) && CharsAvoid(x + " " + y, Quotes + {',', '\n'})
  {
    CleanHebrewWord(x);
    VoiceCleanJoin(x, y);
    LowerCaseAppend(x, " ");
    LowerCaseAppend(x + " ", y);
    CharsAvoidAppend(x, " ", Quotes + {',', '\n'});
    CharsAvoidAppend(x + " ", y, Quotes + {',', '\n'});
  }

  /** The conjunction patterns: whitespace inside only at `InnerSpace`, no
      comma, and ` כך ` after the inner space. */
  lemma ConjunctionPatterns()
    ensures forall m :: 0 <= m < |Conjunctions| ==>
      && SpaceInsideOnlyAt(" " + Conjunctions[m] + " ", InnerSpace(m))
      && CharsAvoid(" " + Conjunctions[m] + " ", {','})
      && (InnerSpace(m) > 0 ==> InnerSpace(m) < |Conjunctions[m]| + 2 && (" " + Conjunctions[m] + " ")[InnerSpace(m)..] == " כך ")
  {
  }

  /** No conjunction holds the pattern of an earlier one, and the two-word
      patterns cannot begin inside a later conjunction. */
  lemma EarlierPatterns()
    ensures forall m, p :: 0 <= p < m < |Conjunctions| ==>
      && FreeOf(Conjunctions[m], " " + Conjunctions[p] + " ")
      && (InnerSpace(p) > 0 ==> !EndsWith(" " + Conjunctions[m], (" " + Conjunctions[p] + " ")[..InnerSpace(p)]))
  {
    forall m, p | 0 <= p < m < |Conjunctions|
      ensures FreeOf(Conjunctions[m], " " + Conjunctions[p] + " ")
      ensures InnerSpace(p) > 0 ==> !EndsWith(" " + Conjunctions[m], (" " + Conjunctions[p] + " ")[..InnerSpace(p)])
    {
      EarlierPattern(m, p);
    }
  }

  /** The same for one pair: each case names a letter of the earlier pattern
      the later conjunction lacks. */
  lemma EarlierPattern(m: nat, p: nat)
    requires p < m < |Conjunctions|
    ensures FreeOf(Conjunctions[m], " " + Conjunctions[p] + " ")
    ensures InnerSpace(p) > 0 ==> !EndsWith(" " + Conjunctions[m], (" " + Conjunctions[p] + " ")[..InnerSpace(p)])
  {
    var w, t := Conjunctions[m], " " + Conjunctions[p] + " ";
    if p == 0 {
      assert t[2] == 'ג';
      FreeOfMissingChar(w, t, 2);
    } else if p == 1 {
      assert t[3] == 'ז';
      FreeOfMissingChar(w, t, 3);
    } else if m == 4 {
      assert t[p - 1] == 'א';
      FreeOfMissingChar(w, t, p - 1);
    } else {
      LongerFreeOfShorter();
      assert w == "ואחר כך" && t == " אחר כך " && t[..4] == " אחר";
    }
  }

  /** ` אחר כך ` does not occur in ` ואחר כך `, and ` ואחר כך` does not end with ` אחר`. */
  lemma LongerFreeOfShorter()
    ensures FreeOf("ואחר כך", " אחר כך ")
    ensures !EndsWith(" ואחר כך", " אחר")
  {
    var x, t := " ואחר כך ", " אחר כך ";
    assert " " + "ואחר כך" + " " == x;
    forall k | 0 <= k <= 9 ensures !OccursAt(x, t, k) {
      if k + |t| <= |x| {
        assert x[k..k + |t|][0] == x[k] && x[k..k + |t|][1] == x[k + 1];
      }
    }
    assert " ואחר כך"[4..][0] == 'ר';
  }

  // ---------------------------------------------------------------------
  // how an utterance splits into clauses
  // ---------------------------------------------------------------------

  /** A clause `parseItemsFromText` keeps whole: non-empty clean voice text in
      lower case, without quotes, commas or line breaks, and without any
      conjunction between spaces, even at either end. */
  predicate CleanClause(x: string) {
    && x != [] && VoiceClean(x) && LowerCase(x) && CharsAvoid(x, Quotes + {',', '\n'})
    && forall m :: 0 <= m < |Conjunctions| ==> FreeOf(x, " " + Conjunctions[m] + " ")
  }

  /** A conjunction whose pattern does not occur changes nothing. */
  lemma ConjunctionAbsent(t: string, w: string)
    requires SingleSpaced(t) && w != [] && !IsSpace(w[0]) && FreeOf(t, " " + w + " ")
    ensures ConjunctionToComma(t, w) == t
  {
    FreeOfNone(t, " " + w + " ");
    SpacedSkip(t, [w], true, ",", 0, |t|);
    assert t[0..|t|] == t;
  }

  /** Replacements whose patterns do not occur change nothing. */
  lemma {:induction false} RewriteSkip(t: string, lo: nat, hi: nat)
    requires lo <= hi <= |Conjunctions| && SingleSpaced(t)
    requires forall p :: lo <= p < hi ==> FreeOf(t, " " + Conjunctions[p] + " ")
    ensures RewriteFrom(t, lo) == RewriteFrom(t, hi)
    decreases hi - lo
  {
    if lo < hi {
      ConjunctionWords();
      ConjunctionAbsent(t, Conjunctions[lo]);
      RewriteSkip(t, lo + 1, hi);
    }
  }

  /** The conjunction `w` between two strings free of its pattern becomes one
      comma: `n` is where the pattern holds whitespace inside. */
  lemma ConjunctionBetween(a: string, w: string, b: string, n: nat)
    requires w != [] && !IsSpace(w[0]) && SingleSpaced(a + " " + w + " " + b)
    requires FreeOf(a, " " + w + " ") && FreeOf(b, " " + w + " ") && SpaceInsideOnlyAt(" " + w + " ", n)
    requires n > 0 ==> n < |w| + 2 && !StartsWith(" " + (w + " " + b) + " ", (" " + w + " ")[n..])
    ensures ConjunctionToComma(a + " " + w + " " + b, w) == a + "," + b
  {
    var t := " " + w + " ";
    var s := a + " " + w + " " + b;
    NoneBeforeJoin(a, w + " " + b, t, n);
    assert a + " " + (w + " " + b) == s;
    NoneAfter(a + " " + w + " ", b, t);
    OccursBetween(a, t, b);
    assert a + (t + b) == s;
    assert s[..|a|] == a && s[|a| + |w| + 2..] == b;
    assert [w][0] == w && SpacedPattern(w, true) == t;
    SpacedOnlyAt(s, [w], true, ",", |a|, 0);
    AppendAssoc(a, ",", b);
  }

  /** An earlier conjunction's pattern does not occur around a later conjunction. */
  lemma EarlierFree(a: string, b: string, m: nat, p: nat)
    requires CleanClause(a) && CleanClause(b) && p < m < |Conjunctions|
    ensures FreeOf(a + " " + Conjunctions[m] + " " + b, " " + Conjunctions[p] + " ")
  {
    var w, t, n := Conjunctions[m], " " + Conjunctions[p] + " ", InnerSpace(p);
    ConjunctionWords();
    ConjunctionPatterns();
    EarlierPattern(m, p);
    FreeOfJoin(w, b, t, n);
    if n > 0 {
      var u := " " + (w + " " + b) + " ";
      assert u[1] == w[0];
      DiffersAt(u, t[n..], 1);
    }
    FreeOfJoin(a, w + " " + b, t, n);
    assert a + " " + (w + " " + b) == a + " " + w + " " + b;
  }

  /** The replacement of conjunction `m` itself. */
  lemma OwnPass(a: string, b: string, m: nat)
    requires CleanClause(a) && CleanClause(b) && m < |Conjunctions|
    requires SingleSpaced(a + " " + Conjunctions[m] + " " + b)
    ensures RewriteFrom(a + " " + Conjunctions[m] + " " + b, m) == RewriteFrom(a + "," + b, m + 1)
  {
    var w, t, n := Conjunctions[m], " " + Conjunctions[m] + " ", InnerSpace(m);
    ConjunctionWords();
    ConjunctionPatterns();
    if n > 0 {
      var u := " " + (w + " " + b) + " ";
      assert u[1] == w[0];
      DiffersAt(u, t[n..], 1);
    }
    ConjunctionBetween(a, w, b, n);
  }

  /** The five replacements turn exactly the one conjunction between two
      clean clauses into a comma. */
  lemma RewriteAround(a: string, b: string, m: nat)
    requires CleanClause(a) && CleanClause(b) && m < |Conjunctions|
    ensures RewriteConjunctions(a + " " + Conjunctions[m] + " " + b) == a + "," + b
  {
    var w := Conjunctions[m];
    var s := a + " " + w + " " + b;
    ConjunctionWords();
    ConjunctionShapes();
    ConjunctionPatterns();
    NormalJoin(w, " ", b);
    NormalJoin(a, " ", w + " " + b);
    assert a + " " + (w + " " + b) == s;
    forall p | 0 <= p < m ensures FreeOf(s, " " + Conjunctions[p] + " ") {
      EarlierFree(a, b, m, p);
    }
    RewriteSkip(s, 0, m);
    OwnPass(a, b, m);
    var r := a + "," + b;
    NormalJoin(a, ",", b);
    forall p | m < p < |Conjunctions| ensures FreeOf(r, " " + Conjunctions[p] + " ") {
      FreeOfComma(a, ",", b, " " + Conjunctions[p] + " ");
    }
    RewriteSkip(r, m + 1, |Conjunctions|);
  }

  /** Two clean clauses around a comma, or a comma and a space, split into the
      two clauses. */
  lemma CommaPieces(a: string, sep: string, b: string)
    requires a != [] && b != [] && Trimmed(a) && Trimmed(b) && (sep == "," || sep == ", ")
    requires CharsAvoid(a, {',', '\n'}) && CharsAvoid(b, {',', '\n'})
    ensures NonEmpty(TrimAll(Split(a + sep + b, {',', '\n'}))) == [a, b]
  {
    CommaSplit(a, sep, b);
    TrimAfterComma(sep, b);
    TrimPair(a, sep[1..] + b, b);
    NonEmptyOfFull([a, b]);
  }

  /** Trimming a trimmed clause and a text that trims to `b`. */
  lemma TrimPair(a: string, rest: string, b: string)
    requires Trimmed(a) && Trim(rest) == b
    ensures TrimAll([a, rest]) == [a, b]
  {
    TrimOfTrimmed(a);
  }

  /** What follows the comma trims to the clause. */
  lemma TrimAfterComma(sep: string, b: string)
    requires Trimmed(b) && (sep == "," || sep == ", ")
    ensures Trim(sep[1..] + b) == b
  {
    var rest := sep[1..] + b;
    if sep == ", " {
      assert rest != [] && IsSpace(rest[0]) && rest[1..] == b;
      assert TrimStart(rest) == TrimStart(b);
    } else {
      assert rest == b;
    }
    TrimOfTrimmed(b);
  }

  /** The split itself: the clause before the comma, then the rest. */
  lemma CommaSplit(a: string, sep: string, b: string)
    requires CharsAvoid(a, {',', '\n'}) && CharsAvoid(b, {',', '\n'}) && (sep == "," || sep == ", ")
    ensures Split(a + sep + b, {',', '\n'}) == [a, sep[1..] + b]
  {
    var seps := {',', '\n'};
    var rest := sep[1..] + b;
    assert a + sep + b == a + [','] + rest;
    SplitAt(a, ',', rest, seps);
    CharsAvoidAppend(sep[1..], b, seps);
    SplitWhole(rest, seps);
  }

  /** Clean voice text that `Normalize` also keeps is its own clause text. */
  lemma CleanUtterance(s: string)
    requires VoiceClean(s) && LowerCase(s) && CharsAvoid(s, Quotes) && s != []
    ensures Normalize(NormalizeVoiceText(s)) == s
  {
    NormalizeVoiceTextFixed(s);
    NormalFixedPoint(s);
  }

  /** "A וגם B", "A ואז B", "A אחר כך B", "A ואחר כך B" and "A ו B" each split
      into the clauses A and B. */
  lemma SegmentsAroundConjunction(a: string, b: string, m: nat)
    requires CleanClause(a) && CleanClause(b) && m < |Conjunctions|
    ensures Segments(a + " " + Conjunctions[m] + " " + b) == [a, b]
  {
    var w := Conjunctions[m];
    var s := a + " " + w + " " + b;
    ConjunctionShapes();
    VoiceCleanJoin(w, b);
    VoiceCleanJoin(a, w + " " + b);
    LowerCaseAppend(w + " ", b);
    LowerCaseAppend(w, " ");
    LowerCaseAppend(a + " ", w + " " + b);
    LowerCaseAppend(a, " ");
    CharsAvoidAppend(w, " ", Quotes);
    CharsAvoidAppend(w + " ", b, Quotes);
    CharsAvoidAppend(a, " ", Quotes);
    CharsAvoidAppend(a + " ", w + " " + b, Quotes);
    assert a + " " + (w + " " + b) == s;
    CleanUtterance(s);
    RewriteAround(a, b, m);
    CommaPieces(a, ",", b);
  }

  /** "A, B" splits into the clauses A and B. */
  lemma SegmentsAroundComma(a: string, b: string)
    requires CleanClause(a) && CleanClause(b)
    ensures Segments(a + ", " + b) == [a, b]
  {
    var s := a + ", " + b;
    NormalJoin(a, ", ", b);
    CharsAvoidAppend(a, ", ", Marks);
    CharsAvoidAppend(a + ", ", b, Marks);
    FreeOfComma(a, ", ", b, "פסיק");
    FillerWords();
    forall p | 0 <= p < |Fillers| ensures FreeOf(s, " " + Fillers[p]) {
      FreeOfComma(a, ", ", b, " " + Fillers[p]);
    }
    LowerCaseAppend(a, ", ");
    LowerCaseAppend(a + ", ", b);
    CharsAvoidAppend(a, ", ", Quotes);
    CharsAvoidAppend(a + ", ", b, Quotes);
    CleanUtterance(s);
    ConjunctionPatterns();
    forall p | 0 <= p < |Conjunctions| ensures FreeOf(s, " " + Conjunctions[p] + " ") {
      FreeOfComma(a, ", ", b, " " + Conjunctions[p] + " ");
    }
    RewriteSkip(s, 0, |Conjunctions|);
    CommaPieces(a, ", ", b);
  }

  /** The items of "A <conjunction> B" are the items of A followed by those of B. */
  lemma ItemsAroundConjunction(v: Vocab, a: string, b: string, m: nat)
    requires CleanClause(a) && CleanClause(b) && m < |Conjunctions|
    ensures ParseSegments(v, Segments(a + " " + Conjunctions[m] + " " + b)) == ParseSegment(v, a) + ParseSegment(v, b)
  {
    SegmentsAroundConjunction(a, b, m);
    ParseTwo(v, a, b);
  }

  /** The items of two clauses, in order. */
  lemma ParseTwo(v: Vocab, a: string, b: string)
    ensures ParseSegments(v, [a, b]) == ParseSegment(v, a) + ParseSegment(v, b)
  {
    assert [a, b][..1] == [a];
    assert [a][..0] == [];
    assert ParseSegments(v, [a]) == ParseSegments(v, []) + ParseSegment(v, a);
    assert ParseSegments(v, [a]) == ParseSegment(v, a);
  }
}
