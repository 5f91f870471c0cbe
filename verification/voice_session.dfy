/** The buffered session of voice/voiceSession.ts: transcripts are collected
    one at a time into a module-level buffer and parsed together, one
    command per transcript, when the session finishes. */
module VoiceSession {
  import opened Text
  import opened VoiceParser

  /** `.filter(c => c.type !== "ignore")`: the commands other than `Ignore`,
      in order. */
  function DropIgnored(cs: seq<VoiceCommand>): (r: seq<VoiceCommand>)
    ensures |r| <= |cs|
    ensures forall k :: 0 <= k < |r| ==> !r[k].Ignore?
    ensures (forall k :: 0 <= k < |cs| ==> !cs[k].Ignore?) ==> r == cs
  {
    if cs == [] then []
    else if cs[0].Ignore? then DropIgnored(cs[1..])
    else [cs[0]] + DropIgnored(cs[1..])
  }

  /** `buffer.map(parseVoiceSentence)` */
  function ParseEach(entries: seq<string>): seq<VoiceCommand> {
    seq(|entries|, k requires 0 <= k < |entries| => ParseVoiceSentence(entries[k]))
  }

  /** What finishing a session with this buffer returns. */
  function Finished(buffer: seq<string>): seq<VoiceCommand> {
    DropIgnored(ParseEach(buffer))
  }

  /** The parser never yields `Ignore`, so the filter drops nothing: one
      command per buffered transcript, in order. */
  lemma FinishedPerEntry(buffer: seq<string>)
    ensures |Finished(buffer)| == |buffer|
    ensures forall k :: 0 <= k < |buffer| ==> Finished(buffer)[k] == ParseVoiceSentence(buffer[k])
  {
    var cs := ParseEach(buffer);
    assert forall k :: 0 <= k < |cs| ==> !cs[k].Ignore?;
  }

  /** The module-level `buffer`. */
  class Session {
    var buffer: seq<string>

    /** Every buffered transcript is non-empty and has no whitespace at
        either end. */
    ghost predicate Valid()
      reads this
    {
      forall k :: 0 <= k < |buffer| ==> buffer[k] != "" && Trimmed(buffer[k])
    }

    constructor ()
      ensures buffer == [] && Valid()
    {
      buffer := [];
    }

    /** `startVoiceSession` */
    method Start()
      modifies this
      ensures buffer == [] && Valid()
    {
      buffer := [];
    }

    /** `collectTranscript`: empty or whitespace-only text is ignored;
        anything else is appended, trimmed, after the earlier transcripts. */
    method Collect(text: string)
      requires Valid()
      modifies this
      ensures Valid()
      ensures Trim(text) == "" ==> buffer == old(buffer)
      ensures Trim(text) != "" ==> buffer == old(buffer) + [Trim(text)]
    {
      if text == "" {
        return;
      }
      var t := Trim(text);
      if t == "" {
        return;
      }
      buffer := buffer + [t];
    }

    /** `finishVoiceSession`: every buffered transcript is parsed, in order,
        and the buffer is emptied, so finishing again at once returns nothing. */
    method Finish() returns (commands: seq<VoiceCommand>)
      requires Valid()
      modifies this
      ensures commands == Finished(old(buffer))
      ensures |commands| == |old(buffer)|
      ensures forall k :: 0 <= k < |commands| ==> commands[k] == ParseVoiceSentence(old(buffer)[k])
      ensures buffer == [] && Valid()
    {
      commands := DropIgnored(ParseEach(buffer));
      FinishedPerEntry(buffer);
      buffer := [];
    }
  }
}
