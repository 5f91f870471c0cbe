/** The single-sentence parser of voice/voiceParser.ts: a sentence, once
    cleaned of punctuation and extra whitespace, is either a clear-list
    command or one item to add, whose quantity is a leading number when
    there is one. */
module VoiceParser {
  import opened Text
  import ItemParser

  /** `VoiceCommand`. The parser only ever yields `Add` and `Clear`. */
  datatype VoiceCommand = Add(name: string, quantity: nat) | Delete(name: string) | Clear | Ignore

  /** `NUMBER_WORDS` */
  const NumberWords: map<string, nat> := map[
    "אחד" := 1, "אחת" := 1, "שניים" := 2, "שני" := 2, "שתיים" := 2, "שתי" := 2,
    "שלוש" := 3, "שלושה" := 3, "ארבע" := 4, "ארבעה" := 4, "חמש" := 5, "חמישה" := 5,
    "שש" := 6, "שישה" := 6, "שבע" := 7, "שבעה" := 7, "שמונה" := 8, "תשע" := 9,
    "תשעה" := 9, "עשר" := 10, "עשרה" := 10]

  /** The marks the cleaning step deletes. */
  const Punctuation: set<char> := {'.', ',', '!', '?'}

  /** "delete list" and "clean list": either one anywhere clears the list. */
  const DeleteList: string := "מחק רשימה"
  const CleanList: string := "נקה רשימה"

  /** `wordToNumber`: a word of ASCII digits stands for its decimal value, a
      number word for its value in the table, and any other word for nothing. */
  function WordToNumber(word: string): (r: Option<nat>)
    ensures r.None? <==> !AllDigits(word) && word !in NumberWords
    ensures r.Some? && !AllDigits(word) ==> 1 <= r.value <= 10
  {
    if AllDigits(word) then Some(DigitsValue(word))
    else if word in NumberWords then Some(NumberWords[word])
    else None
  }

  /** The value a word of digits stands for: leading zeros add nothing, and
      "0" stands for 0. */
  lemma {:induction false} DigitsNumber(word: string)
    requires AllDigits(word)
    ensures WordToNumber(word) == Some(DigitsValue(word))
    ensures WordToNumber("0" + word) == WordToNumber(word)
    ensures WordToNumber("0") == Some(0)
  {
    var z := "0" + word;
    assert AllDigits(z);
    ZeroPrefix(word);
    assert DigitsValue("0") == 10 * DigitsValue("") + 0 by {
      assert "0"[..0] == "";
    }
  }

  /** A leading zero does not change the value of a string of digits. */
  lemma {:induction false} ZeroPrefix(word: string)
    requires forall i :: 0 <= i < |word| ==> IsDigit(word[i])
    ensures forall i :: 0 <= i < |"0" + word| ==> IsDigit(("0" + word)[i])
    ensures DigitsValue("0" + word) == DigitsValue(word)
    decreases |word|
  {
    var z := "0" + word;
    assert forall i :: 1 <= i < |z| ==> z[i] == word[i - 1];
    if word == [] {
      assert z[..0] == "";
    } else {
      var init := word[..|word| - 1];
      ZeroPrefix(init);
      assert z[..|z| - 1] == "0" + init;
      assert z[|z| - 1] == word[|word| - 1];
    }
  }

  /** The cleaning step: trim, delete the marks `. , ! ?`, and make every
      whitespace run one space. The trim comes first, so a mark at either end
      can leave a space behind. */
  function Clean(text: string): (r: string)
    ensures SingleSpaced(r) && CharsAvoid(r, Punctuation)
    ensures |r| <= |text|
  {
    var t := RemoveChars(Trim(text), Punctuation);
    CollapseKeepsChars(t, Punctuation);
    Collapse(t)
  }

  /** A sentence that is already clean stays as it is. */
  lemma CleanFixed(text: string)
    requires Normal(text) && CharsAvoid(text, Punctuation)
    ensures Clean(text) == text
  {
    TrimOfTrimmed(text);
    RemoveCharsNone(text, Punctuation);
    CollapseOfSingleSpaced(text);
  }

  /** `parseVoiceSentence`: a clear phrase anywhere in the cleaned sentence
      clears the list; otherwise a first word that is a number, followed by
      at least one more word, is the quantity of the rest; otherwise the whole
      cleaned sentence is one item of quantity 1. Nothing is ever ignored. */
  function ParseVoiceSentence(text: string): (r: VoiceCommand)
    ensures r.Add? || r.Clear?
  {
    var clean := Clean(text);
    if Contains(clean, DeleteList) || Contains(clean, CleanList) then Clear
    else
      var parts := Split(clean, {' '});
      if |parts| >= 2 && WordToNumber(parts[0]).Some? then
        Add(Join(parts[1..], " "), WordToNumber(parts[0]).value)
      else Add(clean, 1)
  }

  /** Every add is either the whole cleaned sentence with quantity 1, or what
      follows a first word that is a number, with that number as its
      quantity. Either way the name is the end of the cleaned sentence. */
  lemma AddShape(text: string)
    ensures var c, r := Clean(text), ParseVoiceSentence(text);
      r.Add? ==>
        && |r.name| <= |c| && r.name == c[|c| - |r.name|..]
        && (r == Add(c, 1) ||
            (|r.name| < |c| &&
             var w := c[..|c| - |r.name| - 1];
             c == w + " " + r.name && CharsAvoid(w, {' '}) && WordToNumber(w) == Some(r.quantity)))
  {
    var c := Clean(text);
    var parts := Split(c, {' '});
    if |parts| >= 2 {
      SplitFirst(c, ' ');
      var w, name := parts[0], Join(parts[1..], " ");
      assert c == w + (" " + name);
      assert c[..|c| - |name| - 1] == w && c[|c| - |name|..] == name;
      assert CharsAvoid(w, {' '}) by {
        forall i | 0 <= i < |w| ensures w[i] !in {' '} {
          assert parts[0][i] !in {' '};
        }
      }
    }
  }

  /** The first word decides: a number adds the rest of the sentence with
      exactly that quantity (no clamping, so "0" gives 0); any other word
      adds the whole sentence once. */
  lemma FirstWord(text: string, w: string, rest: string)
    requires Clean(text) == w + " " + rest && CharsAvoid(w, {' '})
    requires !Contains(Clean(text), DeleteList) && !Contains(Clean(text), CleanList)
    ensures ParseVoiceSentence(text)
      == if WordToNumber(w).Some? then Add(rest, WordToNumber(w).value) else Add(Clean(text), 1)
  {
    SplitPrefix(w, ' ', rest);
    JoinSplit(rest, ' ');
  }

  /** A sentence of one word is added as it is, even when that word is a number. */
  lemma OneWord(text: string)
    requires CharsAvoid(Clean(text), {' '})
    ensures ParseVoiceSentence(text) == Add(Clean(text), 1)
  {
    var c := Clean(text);
    SplitNone(c, ' ');
    assert forall i :: 0 <= i < |c| ==> c[i] !in {' '};
    NoClearPhrase(c);
  }

  /** Both clear phrases are single-spaced, free of marks and bounded by
      letters. */
  lemma ClearPhrases()
    ensures forall p :: p in {DeleteList, CleanList} ==>
      && |p| == 9 && !IsSpace(p[0]) && !IsSpace(p[8]) && p[3] == ' '
      && SingleSpaced(p) && CharsAvoid(p, Punctuation)
  {
    forall p | p in {DeleteList, CleanList}
      ensures SingleSpaced(p) && CharsAvoid(p, Punctuation)
    {
      forall i | 0 <= i < |p| ensures SingleSpaceAt(p, i) {
      }
    }
  }

  /** Cleaning keeps every occurrence of a single-spaced, mark-free phrase
      bounded by non-whitespace. */
  lemma CleanKeepsPhrase(text: string, w: string, p: int)
    requires OccursAt(text, w, p) && w != [] && !IsSpace(w[0]) && !IsSpace(w[|w| - 1])
    requires SingleSpaced(w) && CharsAvoid(w, Punctuation)
    ensures Contains(Clean(text), w)
  {
    var t := Trim(text);
    TrimKeepsOccurrence(text, w, p);
    var q := p - (|text| - |TrimStart(text)|);
    RemoveCharsKeepsOccurrence(t, w, q, Punctuation);
    var u := RemoveChars(t, Punctuation);
    var j := |RemoveChars(t[..q], Punctuation)|;
    CollapseKeepsOccurrence(u, w, j);
    assert OccursAt(Clean(text), w, |Collapse(u[..j])|);
  }

  /** Saying either clear phrase anywhere clears the list, whatever is said
      around it. */
  lemma ClearAnywhere(text: string, phrase: string, p: int)
    requires phrase == DeleteList || phrase == CleanList
    requires OccursAt(text, phrase, p)
    ensures ParseVoiceSentence(text) == Clear
  {
    ClearPhrases();
    assert phrase in {DeleteList, CleanList};
    CleanKeepsPhrase(text, phrase, p);
  }

  /** Marks are deleted after the trim, so a mark spoken after a space leaves
      the space behind: a number word followed by " ?" is split into the
      number and an empty name. */
  lemma MarkAfterSpace(w: string, m: char)
    requires m in Punctuation && WordToNumber(w).Some?
    requires w != [] && forall i :: 0 <= i < |w| ==> !IsSpace(w[i]) && w[i] !in Punctuation
    ensures Clean(w + [' ', m]) == w + " "
    ensures ParseVoiceSentence(w + [' ', m]) == Add("", WordToNumber(w).value)
  {
    CleanMarkAfterSpace(w, m);
    NoClearPhrase(w + " ");
    assert CharsAvoid(w, {' '});
    assert w + " " == w + " " + "";
    FirstWord(w + [' ', m], w, "");
  }

  lemma CleanMarkAfterSpace(w: string, m: char)
    requires m in Punctuation
    requires w != [] && forall i :: 0 <= i < |w| ==> !IsSpace(w[i]) && w[i] !in Punctuation
    ensures Clean(w + [' ', m]) == w + " "
  {
    var text := w + [' ', m];
    assert Trimmed(text);
    TrimOfTrimmed(text);
    DropMarkAfterSpace(w, m);
    WordSpaceSingleSpaced(w);
    CollapseOfSingleSpaced(w + " ");
  }

  lemma DropMarkAfterSpace(w: string, m: char)
    requires m in Punctuation && CharsAvoid(w, Punctuation)
    ensures RemoveChars(w + [' ', m], Punctuation) == w + " "
  {
    assert w + [' ', m] == w + ([' '] + [m]);
    RemoveCharsAppend(w, [' '] + [m], Punctuation);
    RemoveCharsAppend([' '], [m], Punctuation);
    RemoveCharsNone(w, Punctuation);
  }

  lemma WordSpaceSingleSpaced(w: string)
    requires forall i :: 0 <= i < |w| ==> !IsSpace(w[i])
    ensures SingleSpaced(w + " ")
  {
    var c := w + " ";
    forall i | 0 <= i < |c| ensures SingleSpaceAt(c, i) {
    }
  }

  /** A text with no space before its last character holds neither clear
      phrase: both have letters after their space. */
  lemma NoClearPhrase(c: string)
    requires forall i :: 0 <= i < |c| - 1 ==> c[i] != ' '
    ensures !Contains(c, DeleteList) && !Contains(c, CleanList)
  {
    forall i | 0 <= i <= |c| ensures !OccursAt(c, DeleteList, i) && !OccursAt(c, CleanList, i) {
      if i + 9 <= |c| {
        assert c[i..i + 9][3] == c[i + 3];
      }
    }
  }

  // ---------------------------------------------------------------------
  // the lookup as written
  // ---------------------------------------------------------------------

  /** What a property read on a plain JavaScript object yields: a number, a
      member inherited from `Object.prototype`, or nothing (`null`). */
  datatype Lookup = Number(n: nat) | Inherited(key: string) | Null

  /** `wordToNumber` as written: `NUMBER_WORDS[word] ?? null` reads a plain
      object, so the keys it inherits are found too, and they are not `null`. */
  function WordToNumberAsWritten(word: string): (r: Lookup)
    ensures r.Number? <==> WordToNumber(word).Some?
    ensures r.Number? ==> WordToNumber(word) == Some(r.n)
    ensures r.Inherited? ==> word in ItemParser.InheritedKeys
  {
    if AllDigits(word) then Number(DigitsValue(word))
    else if word in NumberWords then Number(NumberWords[word])
    else if word in ItemParser.InheritedKeys then Inherited(word)
    else Null
  }

  /** "constructor" is neither digits nor a number word, yet the lookup as
      written yields the inherited constructor rather than `null`, so
      "constructor milk" becomes an add whose quantity is a function. */
  lemma InheritedKeyAsWritten()
    ensures WordToNumberAsWritten("constructor") == Inherited("constructor")
    ensures WordToNumber("constructor") == None
  {
    assert !IsDigit('c');
    assert "constructor" !in NumberWords by {
      NumberWordsAreHebrew();
    }
  }

  /** Every number word begins with a Hebrew letter. */
  lemma NumberWordsAreHebrew()
    ensures forall w :: w in NumberWords ==> |w| > 0 && '\U{05D0}' <= w[0] <= '\U{05EA}'
  {
  }
}
