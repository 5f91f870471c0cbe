/** The tap-to-record voice session of App.tsx: the recogniser's results
    are kept in a per-index buffer of final transcripts plus the latest
    interim one; on stop the finals are stitched together by `mergeChunks`,
    the interim text is appended, and the outcome becomes a draft the user
    confirms or cancels. The recogniser and the timers are events the
    environment calls. */
module TapCapture {
  import opened Text
  import ItemParser
  import Commands
  import ListStore
  import Executor

  // ---------------------------------------------------------------------
  // mergeChunks
  // ---------------------------------------------------------------------

  /** The shortest overlap `mergeChunks` stitches on. */
  const MinOverlap: nat := 10
  /** The longest overlap `mergeChunks` tries. */
  const MaxOverlap: nat := 60

  /** The last `k` characters of `a` are the first `k` of `c`. */
  predicate Joins(a: string, c: string, k: nat) {
    k <= |a| && k <= |c| && a[|a| - k..] == c[..k]
  }

  /** The longest `k` with `10 <= k <= m` at which the end of `a` meets the
      start of `c`, or 0 when there is none. */
  function Overlap(a: string, c: string, m: nat): (k: nat)
    ensures k == 0 || (MinOverlap <= k <= m && Joins(a, c, k))
    ensures forall j :: k < j <= m && MinOverlap <= j ==> !Joins(a, c, j)
    decreases m
  {
    if m < MinOverlap then 0 else if Joins(a, c, m) then m else Overlap(a, c, m - 1)
  }

  /** One trimmed chunk `c` added to the accumulated text: an empty chunk
      is skipped; a chunk that starts with the text so far replaces it (the
      recogniser repeats itself cumulatively); a chunk the text already
      starts with is dropped; otherwise the chunk is spliced on at the
      longest overlap of 10 to 60 characters, or joined with one space. The
      text so far is never rewritten, and the result ends with the chunk
      unless the chunk was dropped. */
  function Stitch(acc: string, c: string): (r: string)
    ensures c == "" ==> r == acc
    ensures Trimmed(acc) && Trimmed(c) ==> Trimmed(r) && StartsWith(r, acc)
    ensures Trimmed(acc) && c != "" && !StartsWith(acc, c) ==> EndsWith(r, c)
    ensures acc != "" && c != "" && StartsWith(Trim(acc), c) && !StartsWith(c, Trim(acc)) ==> r == acc
    ensures |r| <= |acc| + |c| + 1
  {
    if c == "" then acc
    else if acc == "" then c
    else
      var a := Trim(acc);
      if StartsWith(c, a) then c
      else if StartsWith(a, c) then acc
      else
        var k := Overlap(a, c, Min(Min(|a|, |c|), MaxOverlap));
        if k > 0 then
          Splice(a, c, k);
          a + c[k..]
        else
          SpaceJoin(a, c);
          a + " " + c
  }

  /** Splicing `c` onto `a` at an overlap keeps `a` in front and ends with `c`. */
  lemma Splice(a: string, c: string, k: nat)
    requires Joins(a, c, k)
    ensures StartsWith(a + c[k..], a) && EndsWith(a + c[k..], c)
  {
    var r := a + c[k..];
    assert r[..|a|] == a;
    forall i | 0 <= i < |c| ensures r[|r| - |c| + i] == c[i] {
      if i < k {
        assert r[|a| - k + i] == a[|a| - k..][i];
        assert c[..k][i] == c[i];
      }
    }
    assert r[|r| - |c|..] == c;
  }

  /** Joining with one space keeps `a` in front and ends with `c`. */
  lemma SpaceJoin(a: string, c: string)
    ensures StartsWith(a + " " + c, a) && EndsWith(a + " " + c, c)
  {
    var r := a + " " + c;
    assert r[..|a|] == a;
    assert r[|r| - |c|..] == c;
  }

  /** The chunks, each trimmed, stitched one after the other, from the
      empty text. */
  function Fold(parts: seq<string>): (r: string)
    ensures Trimmed(r)
    decreases |parts|
  {
    if parts == [] then "" else Stitch(Fold(parts[..|parts| - 1]), Trim(parts[|parts| - 1]))
  }

  /** `mergeChunks(parts)`: the stitched text with every whitespace run made
      one space and the ends trimmed. */
  function Merged(parts: seq<string>): (r: string)
    ensures Normal(r)
  {
    TrimCollapseNormal(Fold(parts));
    Trim(Collapse(Fold(parts)))
  }

  /** The inner countdown of `mergeChunks`, from `m` down to 10. */
  method LongestOverlap(a: string, c: string, m: nat) returns (k: nat)
    requires m <= |a| && m <= |c|
    ensures k == Overlap(a, c, m)
  {
    var j: nat := m;
    while j >= MinOverlap
      invariant j <= m
      invariant Overlap(a, c, m) == Overlap(a, c, j)
      decreases j
    {
      if a[|a| - j..] == c[..j] {
        return j;
      }
      j := j - 1;
    }
    return 0;
  }

  /** `mergeChunks(parts)` */
  method MergeChunks(parts: seq<string>) returns (r: string)
    ensures r == Merged(parts)
  {
    var acc := "";
    for i := 0 to |parts|
      invariant acc == Fold(parts[..i])
    {
      assert parts[..i + 1][..i] == parts[..i];
      var c := Trim(parts[i]);
      if c == "" {
        continue;
      }
      if acc == "" {
        acc := c;
        continue;
      }
      var a := Trim(acc);
      if StartsWith(c, a) {
        acc := c;
        continue;
      }
      if StartsWith(a, c) {
        continue;
      }
      var k := LongestOverlap(a, c, Min(Min(|a|, |c|), MaxOverlap));
      if k > 0 {
        acc := a + c[k..];
      } else {
        acc := a + " " + c;
      }
    }
    assert parts[..|parts|] == parts;
    r := Trim(Collapse(acc));
  }

  /** One more chunk never rewrites the stitched text. */
  lemma FoldStep(parts: seq<string>, j: nat)
    requires 0 < j <= |parts|
    ensures StartsWith(Fold(parts[..j]), Fold(parts[..j - 1]))
  {
    assert parts[..j][..j - 1] == parts[..j - 1];
  }

  lemma PrefixTransitive(z: string, y: string, x: string)
    requires StartsWith(z, y) && StartsWith(y, x)
    ensures StartsWith(z, x)
  {
    assert z[..|x|] == z[..|y|][..|x|];
  }

  /** The stitched text only grows: what it was after `i` chunks begins what
      it is after `j >= i` chunks. */
  lemma FoldGrows(parts: seq<string>, i: nat, j: nat)
    requires i <= j <= |parts|
    ensures StartsWith(Fold(parts[..j]), Fold(parts[..i]))
  {
    var texts := seq(|parts| + 1, k requires 0 <= k <= |parts| => Fold(parts[..k]));
    forall k | 0 < k < |texts| ensures StartsWith(texts[k], texts[k - 1]) {
      FoldStep(parts, k);
    }
    ChainGrows(texts, i, j);
  }

  /** In a chain of texts each beginning with the one before, every text
      begins with every earlier one. */
  lemma {:induction false} ChainGrows(texts: seq<string>, i: nat, j: nat)
    requires i <= j < |texts|
    requires forall k :: 0 < k < |texts| ==> StartsWith(texts[k], texts[k - 1])
    ensures StartsWith(texts[j], texts[i])
    decreases j
  {
    if i < j {
      ChainGrows(texts, i, j - 1);
      PrefixTransitive(texts[j], texts[j - 1], texts[i]);
    }
  }

  /** Chunks that each repeat and extend the one before (a recogniser that
      reports cumulative text) merge into the last chunk. */
  lemma {:induction false} CumulativeChunks(parts: seq<string>)
    requires parts != []
    requires forall k :: 0 <= k < |parts| ==> parts[k] != "" && Trimmed(parts[k])
    requires forall k :: 0 < k < |parts| ==> StartsWith(parts[k], parts[k - 1])
    ensures Fold(parts) == parts[|parts| - 1]
    decreases |parts|
  {
    var last := parts[|parts| - 1];
    TrimOfTrimmed(last);
    var init := parts[..|parts| - 1];
    assert Fold(parts) == Stitch(Fold(init), last);
    if |parts| > 1 {
      assert forall k :: 0 <= k < |init| ==> init[k] == parts[k];
      CumulativeChunks(init);
      StitchExtends(parts[|parts| - 2], last);
    } else {
      assert init == [];
    }
  }

  /** A chunk that repeats and extends the text so far replaces it. */
  lemma StitchExtends(acc: string, c: string)
    requires acc != "" && Trimmed(acc) && StartsWith(c, acc)
    ensures Stitch(acc, c) == c
  {
    TrimOfTrimmed(acc);
  }

  // ---------------------------------------------------------------------
  // onresult
  // ---------------------------------------------------------------------

  /** One entry of the recogniser's result list: its best transcript and
      whether it is final. */
  datatype SpeechResult = SpeechResult(transcript: string, isFinal: bool)

  /** `buf[i] = t` on a JavaScript array: the array grows to `i + 1` when
      needed, and the holes read as nothing (the empty string). */
  function Put(buf: seq<string>, i: nat, t: string): (r: seq<string>)
    ensures |r| == Max(|buf|, i + 1) && r[i] == t
    ensures forall j :: 0 <= j < |r| && j != i ==> r[j] == (if j < |buf| then buf[j] else "")
  {
    if i < |buf| then buf[i := t] else buf + seq(i - |buf|, _ => "") + [t]
  }

  /** The results as `onresult` reads them: each transcript through
      `normalizeVoiceText`. */
  function Heard(results: seq<SpeechResult>): (r: seq<SpeechResult>)
    ensures |r| == |results|
  {
    seq(|results|, k requires 0 <= k < |results| =>
      SpeechResult(ItemParser.NormalizeVoiceText(results[k].transcript), results[k].isFinal))
  }

  /** The final-transcript buffer after `onresult` has looked at the heard
      results from `from` up to (not including) `upto`. */
  function BufferAfter(buf: seq<string>, hs: seq<SpeechResult>, from: nat, upto: nat): seq<string>
    requires upto <= |hs|
    decreases upto
  {
    if upto <= from then buf
    else
      var b := BufferAfter(buf, hs, from, upto - 1);
      var h := hs[upto - 1];
      if h.transcript != "" && h.isFinal then Put(b, upto - 1, h.transcript) else b
  }

  /** The last interim transcript after `onresult` has looked at the heard
      results from `from` up to `upto`: a non-empty final one clears it, a
      non-empty interim one replaces it. */
  function InterimAfter(prev: string, hs: seq<SpeechResult>, from: nat, upto: nat): string
    requires upto <= |hs|
    decreases upto
  {
    if upto <= from then prev
    else
      var p := InterimAfter(prev, hs, from, upto - 1);
      var h := hs[upto - 1];
      if h.transcript == "" then p else if h.isFinal then "" else h.transcript
  }

  /** A heard result that lands in the buffer. */
  predicate Lands(hs: seq<SpeechResult>, from: nat, upto: nat, j: nat) {
    from <= j < upto <= |hs| && hs[j].isFinal && hs[j].transcript != ""
  }

  /** Every final result with text lands at its own index; every other entry
      of the buffer keeps what it held (or reads as nothing where the buffer
      grew); interim results never reach the buffer. */
  lemma {:induction false} BufferPointwise(buf: seq<string>, hs: seq<SpeechResult>, from: nat, upto: nat)
    requires upto <= |hs|
    ensures var r := BufferAfter(buf, hs, from, upto);
      && |buf| <= |r|
      && (forall j :: 0 <= j && Lands(hs, from, upto, j) ==> j < |r| && r[j] == hs[j].transcript)
      && (forall j :: 0 <= j < |r| && !Lands(hs, from, upto, j) ==> r[j] == (if j < |buf| then buf[j] else ""))
    decreases upto
  {
    if upto > from {
      BufferPointwise(buf, hs, from, upto - 1);
      var b := BufferAfter(buf, hs, from, upto - 1);
      var r := BufferAfter(buf, hs, from, upto);
      forall j | 0 <= j < |r| && !Lands(hs, from, upto, j)
        ensures r[j] == (if j < |buf| then buf[j] else "")
      {
        assert !Lands(hs, from, upto - 1, j);
      }
      forall j | 0 <= j && Lands(hs, from, upto, j) ensures j < |r| && r[j] == hs[j].transcript {
        if j < upto - 1 { assert Lands(hs, from, upto - 1, j); }
      }
    }
  }

  // ---------------------------------------------------------------------
  // the session
  // ---------------------------------------------------------------------

  /** `VoiceUiState` */
  datatype VoiceUi = Idle | Recording | Processing | Review

  /** The text a stop produces: the merged non-empty finals, a space and the
      trimmed last interim text, with whitespace runs made one space and the
      ends trimmed. */
  function Combined(buffer: seq<string>, lastInterim: string): (r: string)
    ensures Normal(r)
  {
    TrimCollapseNormal(Merged(NonEmpty(buffer)) + " " + Trim(lastInterim));
    Trim(Collapse(Merged(NonEmpty(buffer)) + " " + Trim(lastInterim)))
  }

  lemma {:induction false} NoneNonEmpty(parts: seq<string>)
    requires forall k :: 0 <= k < |parts| ==> parts[k] == ""
    ensures NonEmpty(parts) == []
  {
    if parts != [] {
      NoneNonEmpty(parts[1..]);
    }
  }

  /** A stop with nothing heard produces no text. */
  lemma NothingHeard(buffer: seq<string>, lastInterim: string)
    requires forall k :: 0 <= k < |buffer| ==> buffer[k] == ""
    requires Trim(lastInterim) == ""
    ensures Combined(buffer, lastInterim) == ""
  {
    NoneNonEmpty(buffer);
    assert Fold([]) == "";
    assert Collapse(" ") == " ";
  }

  /** The text a stop produces, computed as the stop handler does: the
      merged chunks, then the interim text. */
  method CombineHeard(buffer: seq<string>, lastInterim: string) returns (combined: string)
    ensures combined == Combined(buffer, lastInterim)
    ensures Normal(combined)
  {
    var finalText := MergeChunks(NonEmpty(buffer));
    var interimText := Trim(lastInterim);
    combined := Trim(Collapse(finalText + " " + interimText));
  }

  /** The tap session: `voiceUi`, `tapActiveRef`, `startGuardRef`, the
      transcript buffer, the last interim text and the draft, plus the
      timers waiting to fire (the 220 ms flush after a stop and the 180 ms
      restart after a spontaneous end). */
  class TapSession {
    var ui: VoiceUi
    var tapActive: bool
    var startGuard: bool
    var buffer: seq<string>
    var lastInterim: string
    var draft: string
    var pendingFlushes: nat
    var pendingRestarts: nat

    /** While recording the session is active, and the restart guard is up
        only while a restart is waiting. */
    ghost predicate Valid()
      reads this
    {
      (ui == Recording ==> tapActive) && (startGuard ==> pendingRestarts >= 1)
    }

    constructor ()
      ensures ui == Idle && !tapActive && !startGuard && buffer == [] && lastInterim == "" && draft == ""
      ensures pendingFlushes == 0 && pendingRestarts == 0 && Valid()
    {
      ui := Idle;
      tapActive := false;
      startGuard := false;
      buffer := [];
      lastInterim := "";
      draft := "";
      pendingFlushes := 0;
      pendingRestarts := 0;
    }

    /** `startTapListening`. It needs a speech recogniser (`supported`) and a
        signed-in user; `started` says whether `rec.start()` succeeded. */
    method StartTap(supported: bool, signedIn: bool, started: bool)
      requires Valid()
      modifies this
      ensures Valid()
      ensures !(supported && signedIn) ==>
        ui == old(ui) && tapActive == old(tapActive) && buffer == old(buffer) && draft == old(draft)
        && startGuard == old(startGuard) && lastInterim == old(lastInterim)
      ensures supported && signedIn ==>
        && buffer == [] && lastInterim == "" && !startGuard && draft == ""
        && (if started then ui == Recording && tapActive else ui == Idle && !tapActive)
      ensures pendingFlushes == old(pendingFlushes) && pendingRestarts == old(pendingRestarts)
    {
      if !supported || !signedIn {
        return;
      }
      buffer := [];
      lastInterim := "";
      startGuard := false;
      tapActive := true;
      draft := "";
      ui := Recording;
      if !started {
        ui := Idle;
        tapActive := false;
      }
    }

    /** `stopTapListening` up to its 220 ms wait: the session is no longer
        active and shows "processing"; the rest waits as a pending flush. */
    method StopTap()
      requires Valid()
      modifies this
      ensures Valid()
      ensures old(tapActive) ==> !tapActive && ui == Processing && pendingFlushes == old(pendingFlushes) + 1
      ensures !old(tapActive) ==> ui == old(ui) && !tapActive && pendingFlushes == old(pendingFlushes)
      ensures buffer == old(buffer) && lastInterim == old(lastInterim) && draft == old(draft)
      ensures startGuard == old(startGuard) && pendingRestarts == old(pendingRestarts)
    {
      if !tapActive {
        return;
      }
      tapActive := false;
      ui := Processing;
      pendingFlushes := pendingFlushes + 1;
    }

    /** The rest of `stopTapListening`, after the wait: the buffer and the
        interim text become one text and are cleared; nothing heard goes
        back to idle, anything else becomes the draft under review. */
    method FlushElapsed()
      requires Valid()
      modifies this
      ensures Valid()
      ensures old(pendingFlushes) == 0 ==>
        ui == old(ui) && buffer == old(buffer) && lastInterim == old(lastInterim) && draft == old(draft)
      ensures old(pendingFlushes) > 0 ==>
        && pendingFlushes == old(pendingFlushes) - 1
        && buffer == [] && lastInterim == ""
        && var text := Combined(old(buffer), old(lastInterim));
           if text == "" then ui == Idle && draft == old(draft) else ui == Review && draft == text
      ensures old(pendingFlushes) == 0 ==> pendingFlushes == 0
      ensures tapActive == old(tapActive) && startGuard == old(startGuard) && pendingRestarts == old(pendingRestarts)
    {
      if pendingFlushes == 0 {
        return;
      }
      var combined := CombineHeard(buffer, lastInterim);
      Flush(combined);
    }

    /** The flush proper, given the combined text. */
    method Flush(text: string)
      requires Valid() && pendingFlushes > 0
      modifies this
      ensures Valid()
      ensures pendingFlushes == old(pendingFlushes) - 1 && buffer == [] && lastInterim == ""
      ensures if text == "" then ui == Idle && draft == old(draft) else ui == Review && draft == text
      ensures tapActive == old(tapActive) && startGuard == old(startGuard) && pendingRestarts == old(pendingRestarts)
    {
      pendingFlushes, buffer, lastInterim := pendingFlushes - 1, [], "";
      if text == "" {
        ui := Idle;
      } else {
        ui, draft := Review, text;
      }
    }

    /** The mic button: idle starts a session, recording stops it, and a tap
        while processing or under review is ignored. */
    method MicTap(supported: bool, signedIn: bool, started: bool)
      requires Valid()
      modifies this
      ensures Valid()
      ensures old(ui) == Processing || old(ui) == Review || (old(ui) == Idle && !(supported && signedIn)) ==>
        && ui == old(ui) && tapActive == old(tapActive) && startGuard == old(startGuard)
        && buffer == old(buffer) && lastInterim == old(lastInterim) && draft == old(draft)
      ensures old(ui) == Idle && supported && signedIn ==>
        && buffer == [] && lastInterim == "" && !startGuard && draft == ""
        && (if started then ui == Recording && tapActive else ui == Idle && !tapActive)
      ensures old(ui) == Recording ==>
        && ui == Processing && !tapActive && pendingFlushes == old(pendingFlushes) + 1
        && startGuard == old(startGuard) && buffer == old(buffer) && lastInterim == old(lastInterim) && draft == old(draft)
      ensures old(ui) != Recording ==> pendingFlushes == old(pendingFlushes)
      ensures pendingRestarts == old(pendingRestarts)
    {
      if ui == Processing || ui == Review {
        return;
      }
      if ui == Idle {
        StartTap(supported, signedIn, started);
      } else {
        StopTap();
      }
    }

    /** `rec.onresult`: the results from `resultIndex` on are read; a final
        one with text is written to the buffer at its own index and clears
        the interim text, an interim one with text becomes the interim text. */
    method OnResult(results: seq<SpeechResult>, resultIndex: nat)
      requires Valid()
      modifies this
      ensures Valid()
      ensures buffer == BufferAfter(old(buffer), Heard(results), resultIndex, |results|)
      ensures lastInterim == InterimAfter(old(lastInterim), Heard(results), resultIndex, |results|)
      ensures ui == old(ui) && tapActive == old(tapActive) && startGuard == old(startGuard) && draft == old(draft)
      ensures pendingFlushes == old(pendingFlushes) && pendingRestarts == old(pendingRestarts)
    {
      var heard := Heard(results);
      if resultIndex >= |heard| {
        return;
      }
      buffer, lastInterim := Record(heard, resultIndex);
    }

    /** The loop of `rec.onresult` over the normalized results. */
    method Record(hs: seq<SpeechResult>, from: nat) returns (buf: seq<string>, interim: string)
      requires from <= |hs|
      ensures buf == BufferAfter(buffer, hs, from, |hs|)
      ensures interim == InterimAfter(lastInterim, hs, from, |hs|)
    {
      buf, interim := buffer, lastInterim;
      for i := from to |hs|
        invariant buf == BufferAfter(buffer, hs, from, i)
        invariant interim == InterimAfter(lastInterim, hs, from, i)
      {
        var transcript := hs[i].transcript;
        if transcript != "" {
          if hs[i].isFinal {
            buf := Put(buf, i, transcript);
            interim := "";
          } else {
            interim := transcript;
          }
        }
      }
    }

    /** `rec.onerror`: any error but "no-speech" ends the session. */
    method OnError(err: string)
      requires Valid()
      modifies this
      ensures Valid()
      ensures err == "no-speech" ==> ui == old(ui) && tapActive == old(tapActive)
      ensures err != "no-speech" ==> ui == Idle && !tapActive
      ensures buffer == old(buffer) && lastInterim == old(lastInterim) && draft == old(draft)
      ensures startGuard == old(startGuard) && pendingFlushes == old(pendingFlushes) && pendingRestarts == old(pendingRestarts)
    {
      if err == "no-speech" {
        return;
      }
      ui := Idle;
      tapActive := false;
    }

    /** `rec.onend`: while the session is active a restart is scheduled,
        unless one is already guarded; at most one restart per end. */
    method OnEnd()
      requires Valid()
      modifies this
      ensures Valid()
      ensures tapActive && !old(startGuard) ==> startGuard && pendingRestarts == old(pendingRestarts) + 1
      ensures !(tapActive && !old(startGuard)) ==> startGuard == old(startGuard) && pendingRestarts == old(pendingRestarts)
      ensures ui == old(ui) && tapActive == old(tapActive) && buffer == old(buffer)
      ensures lastInterim == old(lastInterim) && draft == old(draft) && pendingFlushes == old(pendingFlushes)
    {
      if !tapActive {
        return;
      }
      if startGuard {
        return;
      }
      startGuard := true;
      pendingRestarts := pendingRestarts + 1;
    }

    /** The 180 ms restart timer: the recogniser is restarted if the session
        is still active (a failure is ignored), and the guard comes down. */
    method RestartElapsed()
      requires Valid()
      modifies this
      ensures Valid()
      ensures old(pendingRestarts) > 0 ==> pendingRestarts == old(pendingRestarts) - 1 && !startGuard
      ensures old(pendingRestarts) == 0 ==> pendingRestarts == 0 && startGuard == old(startGuard)
      ensures ui == old(ui) && tapActive == old(tapActive) && buffer == old(buffer)
      ensures lastInterim == old(lastInterim) && draft == old(draft) && pendingFlushes == old(pendingFlushes)
    {
      if pendingRestarts == 0 {
        return;
      }
      pendingRestarts := pendingRestarts - 1;
      startGuard := false;
    }

    /** The silence timer: after three seconds without a result (`quiet`)
        an active session is stopped. */
    method SilenceElapsed(quiet: bool)
      requires Valid()
      modifies this
      ensures Valid()
      ensures tapActive == (old(tapActive) && !quiet)
      ensures old(tapActive) && quiet ==> ui == Processing && pendingFlushes == old(pendingFlushes) + 1
      ensures !(old(tapActive) && quiet) ==> ui == old(ui) && pendingFlushes == old(pendingFlushes)
      ensures buffer == old(buffer) && lastInterim == old(lastInterim) && draft == old(draft)
      ensures startGuard == old(startGuard) && pendingRestarts == old(pendingRestarts)
    {
      if tapActive && quiet {
        StopTap();
      }
    }

    /** The draft text box. */
    method EditDraft(text: string)
      requires Valid()
      modifies this
      ensures Valid()
      ensures draft == text && ui == old(ui) && tapActive == old(tapActive) && buffer == old(buffer) && lastInterim == old(lastInterim)
      ensures startGuard == old(startGuard) && pendingFlushes == old(pendingFlushes) && pendingRestarts == old(pendingRestarts)
    {
      draft := text;
    }

    /** `cancelVoiceDraft` */
    method CancelDraft()
      requires Valid()
      modifies this
      ensures Valid()
      ensures draft == "" && ui == Idle && tapActive == old(tapActive) && buffer == old(buffer) && lastInterim == old(lastInterim)
      ensures startGuard == old(startGuard) && pendingFlushes == old(pendingFlushes) && pendingRestarts == old(pendingRestarts)
    {
      draft := "";
      ui := Idle;
    }

    /** `confirmVoiceDraft`: a blank draft only returns to idle; otherwise the
        trimmed draft is executed on the list, the draft is cleared and the
        undo actions are returned. */
    method ConfirmDraft(v: ItemParser.Vocab, store: ListStore.Store, view: seq<ListStore.Item>, lang: Commands.Lang)
      returns (actions: seq<Executor.UndoAction>)
      requires Valid() && store.Valid()
      modifies this, store
      ensures Valid() && store.Valid() && ui == Idle
      ensures Trim(old(draft)) == "" ==>
        actions == [] && draft == old(draft) && store.docs == old(store.docs) && store.nextId == old(store.nextId)
      ensures Trim(old(draft)) != "" ==>
        draft == "" &&
        Executor.Ledger(store.docs, store.nextId, actions)
          == Executor.Execute(v, old(store.docs), old(store.nextId), view, Trim(old(draft)), lang)
      ensures tapActive == old(tapActive) && buffer == old(buffer) && lastInterim == old(lastInterim) && startGuard == old(startGuard)
      ensures pendingFlushes == old(pendingFlushes) && pendingRestarts == old(pendingRestarts)
    {
      var text := Trim(draft);
      actions := [];
      if text != "" {
        actions := Executor.ExecuteVoiceTextWithUndo(v, store, view, text, lang);
      }
      Close(text != "");
    }

    /** Back to idle after a confirm, the draft cleared if it was used. */
    method Close(used: bool)
      requires Valid()
      modifies this
      ensures Valid() && ui == Idle && draft == (if used then "" else old(draft))
      ensures tapActive == old(tapActive) && buffer == old(buffer) && lastInterim == old(lastInterim) && startGuard == old(startGuard)
      ensures pendingFlushes == old(pendingFlushes) && pendingRestarts == old(pendingRestarts)
    {
      ui := Idle;
      if used {
        draft := "";
      }
    }
  }
}
