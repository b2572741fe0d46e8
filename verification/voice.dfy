/**
 * The voice listener: audio-level tracking, the handling of streamed
 * recognition results, voice comments, and the error policy of the
 * recognition loop. Audio devices and the speech-to-text service are outside
 * the model; their outputs arrive as parameters.
 */
module Voice {
  import opened Wrappers
  import opened Text
  import opened Models

  /** Consecutive recognition failures after which the listener stops itself. */
  const MaxErrors: nat := 5

  /** The author name given to the streamer's own utterances. */
  const StreamerName := "配信者"

  type Byte = b: nat | b < 256

  datatype Listener = Listener(
    running: bool,
    isListening: bool,
    streamOpen: bool,
    interimText: string,
    audioLevel: nat,
    errorCount: nat,
    micDevice: Option<int>,
    audioQueue: seq<seq<Byte>>,
    outbox: seq<Comment>)

  /** The listener as constructed: idle, nothing heard, no errors. */
  function Initial(): (l: Listener)
    ensures !l.running && !l.isListening && l.errorCount == 0 && l.outbox == []
  {
    Listener(false, false, false, "", 0, 0, None, [], [])
  }

  /** The loop never keeps running with the error budget exhausted. */
  predicate Healthy(l: Listener) {
    l.running ==> l.errorCount < MaxErrors
  }

  // ---- audio callback ----

  /** The largest byte of a non-empty chunk. */
  function MaxByte(chunk: seq<Byte>): (m: Byte)
    requires |chunk| > 0
    ensures m in chunk
    ensures forall i :: 0 <= i < |chunk| ==> chunk[i] <= m
  {
    if |chunk| == 1 then chunk[0]
    else
      var rest := MaxByte(chunk[1..]);
      assert forall i :: 1 <= i < |chunk| ==> chunk[i] == chunk[1..][i - 1];
      if chunk[0] >= rest then chunk[0] else rest
  }

  /**
   * `_audio_callback`: while running, the level becomes the largest byte of the
   * chunk (0 for an empty chunk) and the chunk is queued; otherwise nothing changes.
   */
  function AudioCallback(l: Listener, chunk: seq<Byte>): (r: Listener)
    ensures !l.running ==> r == l
    ensures l.running ==> r == l.(audioLevel := r.audioLevel, audioQueue := l.audioQueue + [chunk])
    ensures l.running && chunk == [] ==> r.audioLevel == 0
    ensures l.running && chunk != [] ==>
              r.audioLevel in chunk && forall i :: 0 <= i < |chunk| ==> chunk[i] <= r.audioLevel
  {
    if !l.running then l
    else
      l.(audioLevel := if chunk == [] then 0 else MaxByte(chunk),
         audioQueue := l.audioQueue + [chunk])
  }

  // ---- recognition results ----

  datatype Alternative = Alternative(transcript: string)

  datatype RecognitionResult = RecognitionResult(alternatives: seq<Alternative>, isFinal: bool)

  datatype Response = Response(results: seq<RecognitionResult>)

  /** `not text.strip()`: the text is empty or whitespace only. */
  predicate Blank(text: string) {
    AllSpace(text)
  }

  /** The record a finalised utterance becomes; `now` stands for the wall-clock time. */
  function VoiceComment(text: string, now: string): (c: Comment)
    ensures c.author == StreamerName && c.text == text
    ensures c.source == Voice && c.priority == High && c.isVoiceInput
    ensures WellTagged(c)
  {
    Comment("voice_" + now, StreamerName, text, now, Voice, High, true)
  }

  /**
   * `_create_voice_comment`: a blank transcript changes nothing; any other one
   * queues one voice comment and resets the error count.
   */
  function CreateVoiceComment(l: Listener, text: string, now: string): (r: Listener)
    ensures Blank(text) ==> r == l
    ensures !Blank(text) ==> r == l.(outbox := l.outbox + [VoiceComment(text, now)], errorCount := 0)
  {
    if Blank(text) then l else Enqueue(l, VoiceComment(text, now))
  }

  /** Putting a comment on the queue and clearing the error count, as a success does. */
  function Enqueue(l: Listener, c: Comment): Listener {
    l.(outbox := l.outbox + [c], errorCount := 0)
  }

  // Reference definitions the handling is specified against.

  /** The results that carry at least one alternative, in stream order. */
  function Usable(results: seq<RecognitionResult>): (r: seq<RecognitionResult>)
    ensures forall i :: 0 <= i < |r| ==> r[i].alternatives != []
  {
    if results == [] then []
    else (if results[0].alternatives != [] then [results[0]] else []) + Usable(results[1..])
  }

  /** The transcript a usable result contributes. */
  function TranscriptOf(res: RecognitionResult): string
    requires res.alternatives != []
  {
    res.alternatives[0].transcript
  }

  /** The non-blank final transcripts among usable results, in order. */
  function Utterances(us: seq<RecognitionResult>): seq<string>
    requires forall i :: 0 <= i < |us| ==> us[i].alternatives != []
  {
    if us == [] then []
    else
      (if us[0].isFinal && !Blank(TranscriptOf(us[0])) then [TranscriptOf(us[0])] else [])
      + Utterances(us[1..])
  }

  function Texts(cs: seq<Comment>): (r: seq<string>)
    ensures |r| == |cs| && forall i :: 0 <= i < |cs| ==> r[i] == cs[i].text
  {
    if cs == [] then [] else [cs[0].text] + Texts(cs[1..])
  }

  lemma TextsConcat(a: seq<Comment>, b: seq<Comment>)
    ensures Texts(a + b) == Texts(a) + Texts(b)
  {
  }

  lemma {:induction false} UsableConcat(a: seq<RecognitionResult>, b: seq<RecognitionResult>)
    ensures Usable(a + b) == Usable(a) + Usable(b)
  {
    if a == [] {
      assert a + b == b;
    } else {
      assert (a + b)[0] == a[0];
      assert (a + b)[1..] == a[1..] + b;
      UsableConcat(a[1..], b);
    }
  }

  lemma {:induction false} UtterancesConcat(a: seq<RecognitionResult>, b: seq<RecognitionResult>)
    requires forall i :: 0 <= i < |a| ==> a[i].alternatives != []
    requires forall i :: 0 <= i < |b| ==> b[i].alternatives != []
    ensures Utterances(a + b) == Utterances(a) + Utterances(b)
  {
    if a == [] {
      assert a + b == b;
    } else {
      assert (a + b)[0] == a[0];
      assert (a + b)[1..] == a[1..] + b;
      UtterancesConcat(a[1..], b);
    }
  }

  /** A voice comment as `_create_voice_comment` builds it. */
  predicate IsVoiceComment(c: Comment) {
    c.author == StreamerName && c.source == Voice && c.priority == High && c.isVoiceInput
  }

  /** Only the outbox, the interim text and the error count may change. */
  predicate FrameKept(l: Listener, r: Listener) {
    r == l.(outbox := r.outbox, interimText := r.interimText, errorCount := r.errorCount)
  }

  /** The outbox grows by one voice comment per utterance, in order. */
  predicate OutboxGrew(l: Listener, us: seq<RecognitionResult>, r: Listener)
    requires forall i :: 0 <= i < |us| ==> us[i].alternatives != []
  {
    && |l.outbox| <= |r.outbox| && r.outbox[..|l.outbox|] == l.outbox
    && Texts(r.outbox[|l.outbox|..]) == Utterances(us)
    && (forall i :: |l.outbox| <= i < |r.outbox| ==> IsVoiceComment(r.outbox[i]))
  }

  /** The interim text is what the last usable result left, "" after a final one. */
  predicate InterimFollows(l: Listener, us: seq<RecognitionResult>, r: Listener)
    requires forall i :: 0 <= i < |us| ==> us[i].alternatives != []
  {
    && (us == [] ==> r.interimText == l.interimText)
    && (us != [] ==> r.interimText == if us[|us| - 1].isFinal then "" else TranscriptOf(us[|us| - 1]))
  }

  /** The error count is cleared exactly when something was queued. */
  predicate ErrorsFollow(l: Listener, us: seq<RecognitionResult>, r: Listener)
    requires forall i :: 0 <= i < |us| ==> us[i].alternatives != []
  {
    r.errorCount == if Utterances(us) == [] then l.errorCount else 0
  }

  /**
   * What processing a stretch of results does to the listener: queues one
   * voice comment per non-blank final transcript, in order; leaves the interim
   * text as the last usable result left it ("" after a final one); resets the
   * error count exactly when it queued something; touches nothing else.
   */
  predicate ProcessedAs(l: Listener, results: seq<RecognitionResult>, r: Listener) {
    var us := Usable(results);
    FrameKept(l, r) && OutboxGrew(l, us, r) && InterimFollows(l, us, r) && ErrorsFollow(l, us, r)
  }

  /**
   * The handling of one result, on its first alternative only: a final result
   * creates the voice comment and clears the interim text, an interim one
   * only sets it, and a result without alternatives changes nothing.
   */
  function HandleResult(l: Listener, res: RecognitionResult, clock: nat -> string): (r: Listener)
    ensures ProcessedAs(l, [res], r)
  {
    assert [res][1..] == [];
    if res.alternatives == [] then l
    else
      var t := res.alternatives[0].transcript;
      if res.isFinal then
        var r := CreateVoiceComment(l, t, clock(|l.outbox|)).(interimText := "");
        assert r.outbox[|l.outbox|..] == if Blank(t) then [] else [VoiceComment(t, clock(|l.outbox|))];
        r
      else
        var r := l.(interimText := t);
        assert r.outbox[|l.outbox|..] == [];
        r
  }

  lemma OutboxSeq(l: Listener, ua: seq<RecognitionResult>, m: Listener, ub: seq<RecognitionResult>, r: Listener)
    requires forall i :: 0 <= i < |ua| ==> ua[i].alternatives != []
    requires forall i :: 0 <= i < |ub| ==> ub[i].alternatives != []
    requires OutboxGrew(l, ua, m) && OutboxGrew(m, ub, r)
    ensures OutboxGrew(l, ua + ub, r)
  {
    UtterancesConcat(ua, ub);
    ExtendChain(l.outbox, m.outbox, r.outbox);
    TextsConcat(m.outbox[|l.outbox|..], r.outbox[|m.outbox|..]);
  }

  /** Two extensions in a row are one extension, by what each added, and voice comments stay voice comments. */
  lemma ExtendChain(a: seq<Comment>, b: seq<Comment>, c: seq<Comment>)
    requires |a| <= |b| && b[..|a|] == a && |b| <= |c| && c[..|b|] == b
    requires forall i :: |a| <= i < |b| ==> IsVoiceComment(b[i])
    requires forall i :: |b| <= i < |c| ==> IsVoiceComment(c[i])
    ensures c[..|a|] == a && c[|a|..] == b[|a|..] + c[|b|..]
    ensures forall i :: |a| <= i < |c| ==> IsVoiceComment(c[i])
  {
    assert forall i :: |a| <= i < |b| ==> c[i] == b[i];
  }

  lemma InterimSeq(l: Listener, ua: seq<RecognitionResult>, m: Listener, ub: seq<RecognitionResult>, r: Listener)
    requires forall i :: 0 <= i < |ua| ==> ua[i].alternatives != []
    requires forall i :: 0 <= i < |ub| ==> ub[i].alternatives != []
    requires InterimFollows(l, ua, m) && InterimFollows(m, ub, r)
    ensures InterimFollows(l, ua + ub, r)
  {
    var u := ua + ub;
    if ub != [] {
      assert u[|u| - 1] == ub[|ub| - 1];
    } else {
      assert u == ua;
    }
  }

  lemma ErrorsSeq(l: Listener, ua: seq<RecognitionResult>, m: Listener, ub: seq<RecognitionResult>, r: Listener)
    requires forall i :: 0 <= i < |ua| ==> ua[i].alternatives != []
    requires forall i :: 0 <= i < |ub| ==> ub[i].alternatives != []
    requires ErrorsFollow(l, ua, m) && ErrorsFollow(m, ub, r)
    ensures ErrorsFollow(l, ua + ub, r)
  {
    UtterancesConcat(ua, ub);
  }

  /** Sequencing: processing `a` and then `b` is processing `a + b`. */
  lemma ProcessedAsSeq(l: Listener, a: seq<RecognitionResult>, m: Listener, b: seq<RecognitionResult>, r: Listener)
    requires ProcessedAs(l, a, m) && ProcessedAs(m, b, r)
    ensures ProcessedAs(l, a + b, r)
  {
    UsableConcat(a, b);
    var ua, ub := Usable(a), Usable(b);
    OutboxSeq(l, ua, m, ub, r);
    InterimSeq(l, ua, m, ub, r);
    ErrorsSeq(l, ua, m, ub, r);
  }

  /** The inner loop of `_process_responses` over one response's results. */
  function HandleResults(l: Listener, results: seq<RecognitionResult>, clock: nat -> string): (r: Listener)
    ensures ProcessedAs(l, results, r)
    decreases |results|
  {
    if results == [] then l
    else
      var m := HandleResult(l, results[0], clock);
      var r := HandleResults(m, results[1..], clock);
      ProcessedAsSeq(l, [results[0]], m, results[1..], r);
      assert [results[0]] + results[1..] == results;
      r
  }

  /** All results of a response stream, in order. */
  function Flatten(responses: seq<Response>): seq<RecognitionResult> {
    if responses == [] then [] else responses[0].results + Flatten(responses[1..])
  }

  /**
   * `_process_responses`: responses without results are skipped, and the
   * stream as a whole is processed as the concatenation of its results.
   */
  function ProcessResponses(l: Listener, responses: seq<Response>, clock: nat -> string): (r: Listener)
    ensures ProcessedAs(l, Flatten(responses), r)
    decreases |responses|
  {
    if responses == [] then l
    else
      var m := HandleResults(l, responses[0].results, clock);
      var r := ProcessResponses(m, responses[1..], clock);
      ProcessedAsSeq(l, responses[0].results, m, Flatten(responses[1..]), r);
      r
  }

  // ---- the recognition loop ----

  /** How one streaming session ended. */
  datatype SessionEnd = Ended | OutOfRange | Failed

  /** `stop`: clears the running and listening flags and closes the stream. */
  function Stop(l: Listener): (r: Listener)
    ensures !r.running && !r.isListening && !r.streamOpen
    ensures r == l.(running := false, isListening := false, streamOpen := false)
  {
    l.(running := false, isListening := false, streamOpen := false)
  }

  /**
   * The error policy of `_recognize_stream`: a normal end or a streaming time
   * limit restarts without counting; any other failure counts one error and
   * stops the listener when the count reaches the maximum.
   */
  function EndSession(l: Listener, end: SessionEnd): (r: Listener)
    ensures end != Failed ==> r == l
    ensures end == Failed ==> r.errorCount == l.errorCount + 1
    ensures end == Failed ==> (!r.running <==> (!l.running || l.errorCount + 1 >= MaxErrors))
    ensures end == Failed && l.errorCount + 1 < MaxErrors ==> r == l.(errorCount := l.errorCount + 1)
  {
    match end
    case Ended => l
    case OutOfRange => l
    case Failed =>
      var counted := l.(errorCount := l.errorCount + 1);
      if counted.errorCount >= MaxErrors then Stop(counted) else counted
  }

  /** One pass of the `while self._running` loop: a session, then its end. */
  function RecognizeIteration(l: Listener, responses: seq<Response>, end: SessionEnd, clock: nat -> string): (r: Listener)
    ensures !l.running ==> r == l
    ensures Healthy(l) ==> Healthy(r)
  {
    if !l.running then l
    else EndSession(ProcessResponses(l, responses, clock), end)
  }

  /** `get_status`: the observable state of the listener. */
  datatype Status = Status(isListening: bool, audioLevel: nat, interimText: string, errorCount: nat, micDevice: Option<int>)

  function GetStatus(l: Listener): Status {
    Status(l.isListening, l.audioLevel, l.interimText, l.errorCount, l.micDevice)
  }

  /** A new listener reports idle: not listening, silent, no interim text, no errors, the default microphone. */
  lemma StatusOfInitial()
    ensures GetStatus(Initial()) == Status(false, 0, "", 0, None)
  {
  }

  /** After `stop` the status reports not listening and keeps the counters. */
  lemma StatusAfterStop(l: Listener)
    ensures !GetStatus(Stop(l)).isListening
    ensures GetStatus(Stop(l)).errorCount == l.errorCount
    ensures GetStatus(Stop(l)).interimText == l.interimText
  {
  }

  /** `stop` is idempotent. */
  lemma StopIdempotent(l: Listener)
    ensures Stop(Stop(l)) == Stop(l)
  {
  }

  /** `k` consecutive failing sessions that recognise nothing. */
  function FailTimes(l: Listener, k: nat, clock: nat -> string): Listener
    decreases k
  {
    if k == 0 then l else FailTimes(RecognizeIteration(l, [], Failed, clock), k - 1, clock)
  }

  /**
   * From a running listener, the listener keeps running through the first
   * failures and stops exactly at the one that brings the count to the maximum.
   */
  lemma {:induction false} FailuresStopListener(l: Listener, k: nat, clock: nat -> string)
    requires l.running && l.errorCount < MaxErrors
    ensures k < MaxErrors - l.errorCount ==> FailTimes(l, k, clock).running
    ensures k >= MaxErrors - l.errorCount ==> !FailTimes(l, k, clock).running && !FailTimes(l, k, clock).isListening
    ensures FailTimes(l, k, clock).errorCount == l.errorCount + Min(k, MaxErrors - l.errorCount)
    decreases k
  {
    if k > 0 {
      var m := RecognizeIteration(l, [], Failed, clock);
      assert Flatten([]) == [] && Usable([]) == [] && Utterances([]) == [];
      assert m.errorCount == l.errorCount + 1;
      if l.errorCount + 1 < MaxErrors {
        FailuresStopListener(m, k - 1, clock);
      } else {
        assert !m.isListening;
        StoppedStaysStopped(m, k - 1, clock);
      }
    }
  }

  /** Five consecutive failures from a clean start: the status reports not listening, with five errors. */
  lemma FiveFailuresReported(l: Listener, clock: nat -> string)
    requires l.running && l.errorCount == 0
    ensures !GetStatus(FailTimes(l, MaxErrors, clock)).isListening
    ensures GetStatus(FailTimes(l, MaxErrors, clock)).errorCount == 5
  {
    FailuresStopListener(l, MaxErrors, clock);
  }

  lemma {:induction false} StoppedStaysStopped(l: Listener, k: nat, clock: nat -> string)
    requires !l.running
    ensures FailTimes(l, k, clock) == l
    decreases k
  {
    if k > 0 {
      StoppedStaysStopped(l, k - 1, clock);
    }
  }

  /** A session that delivers a non-blank final transcript clears the error count before its end. */
  lemma UtteranceResetsErrors(l: Listener, text: string, clock: nat -> string)
    requires l.running && !Blank(text)
    ensures var r := RecognizeIteration(l, [Response([RecognitionResult([Alternative(text)], true)])], Ended, clock);
            r.errorCount == 0 && Texts(r.outbox) == Texts(l.outbox) + [text] && r.interimText == ""
  {
    var res := RecognitionResult([Alternative(text)], true);
    var responses := [Response([res])];
    assert Flatten(responses) == [res];
    assert Usable([res]) == [res];
    assert Utterances([res]) == [text];
    var r := ProcessResponses(l, responses, clock);
    assert r.outbox == r.outbox[..|l.outbox|] + r.outbox[|l.outbox|..];
    TextsConcat(l.outbox, r.outbox[|l.outbox|..]);
  }

  // ---- the comment record as the dataclass declares it ----

  /** The fields the `Comment` dataclass declares. */
  const DeclaredFields: set<string> := {"id", "author", "text", "timestamp"}

  /** The keyword arguments `_create_voice_comment` passes. */
  const VoiceKeywords: set<string> := {"id", "author", "text", "timestamp", "source", "priority", "is_voice_input"}

  /**
   * Calling the dataclass constructor with keyword arguments only: the four
   * declared fields have no defaults, so a missing one raises a TypeError just
   * as an undeclared keyword does. What it builds is an ordinary comment.
   */
  function ConstructComment(keywords: set<string>, text: string, now: string): (r: Result<Comment, string>)
    ensures r.Success? <==> keywords == DeclaredFields
    ensures r.Success? ==> r.value == ChatComment("voice_" + now, StreamerName, text, now)
  {
    if keywords == DeclaredFields then Success(ChatComment("voice_" + now, StreamerName, text, now))
    else if keywords <= DeclaredFields then Failure("TypeError: missing required argument")
    else Failure("TypeError: unexpected keyword argument")
  }

  /** Passing only some of the declared fields fails too, as a missing `author` shows. */
  lemma MissingFieldRaises(text: string, now: string)
    ensures ConstructComment({"id", "text", "timestamp"}, text, now).Failure?
  {
    assert "author" in DeclaredFields && "author" !in {"id", "text", "timestamp"};
  }

  /**
   * `_create_voice_comment` as written: a non-blank transcript reaches the
   * constructor with the extra keywords, so no comment is queued and the error
   * propagates to the recognition loop.
   */
  function CreateVoiceCommentAsWritten(l: Listener, text: string, now: string): (r: Result<Listener, string>)
    ensures Blank(text) ==> r == Success(l)
    ensures !Blank(text) ==> r.Failure?
  {
    assert "source" in VoiceKeywords && "source" !in DeclaredFields;
    if Blank(text) then Success(l)
    else match ConstructComment(VoiceKeywords, text, now)
      case Success(c) => Success(Enqueue(l, c))
      case Failure(e) => Failure(e)
  }

  /** A result whose first alternative is a non-blank final transcript. */
  predicate IsUtterance(res: RecognitionResult) {
    res.alternatives != [] && res.isFinal && !Blank(res.alternatives[0].transcript)
  }

  predicate HasUtterance(results: seq<RecognitionResult>) {
    exists i :: 0 <= i < |results| && IsUtterance(results[i])
  }

  lemma HasUtteranceCons(results: seq<RecognitionResult>)
    requires results != []
    ensures HasUtterance(results) <==> IsUtterance(results[0]) || HasUtterance(results[1..])
  {
    if HasUtterance(results) && !IsUtterance(results[0]) {
      var i :| 0 <= i < |results| && IsUtterance(results[i]);
      assert results[1..][i - 1] == results[i];
    }
    if HasUtterance(results[1..]) {
      var i :| 0 <= i < |results[1..]| && IsUtterance(results[1..][i]);
      assert results[i + 1] == results[1..][i];
    }
  }

  /** The position of the first utterance, or `|results|` when there is none. */
  function FirstUtterance(results: seq<RecognitionResult>): (k: nat)
    ensures k <= |results|
    ensures forall i :: 0 <= i < k ==> !IsUtterance(results[i])
    ensures k < |results| <==> HasUtterance(results)
    ensures k < |results| ==> IsUtterance(results[k])
  {
    if results == [] then 0
    else if IsUtterance(results[0]) then 0
    else 1 + FirstUtterance(results[1..])
  }

  lemma {:induction false} FirstUtteranceConcat(a: seq<RecognitionResult>, b: seq<RecognitionResult>)
    ensures FirstUtterance(a + b) == if HasUtterance(a) then FirstUtterance(a) else |a| + FirstUtterance(b)
  {
    if a == [] {
      assert a + b == b;
    } else {
      assert (a + b)[0] == a[0];
      assert (a + b)[1..] == a[1..] + b;
      if !IsUtterance(a[0]) {
        FirstUtteranceConcat(a[1..], b);
        assert HasUtterance(a) ==> HasUtterance(a[1..]) by {
          if HasUtterance(a) {
            var i :| 0 <= i < |a| && IsUtterance(a[i]);
            assert a[1..][i - 1] == a[i];
          }
        }
      }
    }
  }

  /** The handling of one result as written: an utterance raises, anything else is handled as intended. */
  function HandleResultAsWritten(l: Listener, res: RecognitionResult, clock: nat -> string): (r: Result<Listener, string>)
    ensures r.Failure? <==> IsUtterance(res)
    ensures r.Success? ==> r.value == HandleResult(l, res, clock)
  {
    if res.alternatives == [] then Success(l)
    else
      var t := res.alternatives[0].transcript;
      if res.isFinal then
        match CreateVoiceCommentAsWritten(l, t, clock(|l.outbox|))
        case Success(m) => Success(m.(interimText := ""))
        case Failure(e) => Failure(e)
      else Success(l.(interimText := t))
  }

  /** How a pass over results ended: the listener as the pass left it, and whether it raised. */
  datatype Pass = Pass(listener: Listener, raised: bool)

  /**
   * The inner loop of `_process_responses` as written: the first utterance
   * raises out of the loop, so the listener is left as the results before it
   * left it and the results after it are never looked at.
   */
  function HandleResultsAsWritten(l: Listener, results: seq<RecognitionResult>, clock: nat -> string): (r: Pass)
    ensures r.raised <==> HasUtterance(results)
    ensures r.listener == HandleResults(l, results[..FirstUtterance(results)], clock)
    decreases |results|
  {
    if results == [] then Pass(l, false)
    else match HandleResultAsWritten(l, results[0], clock)
      case Failure(_) =>
        assert results[..0] == [];
        Pass(l, true)
      case Success(m) =>
        QuietHeadResult(l, results, m, clock);
        HandleResultsAsWritten(m, results[1..], clock)
  }

  /** Past a first result that is no utterance, the quiet prefix continues in the rest. */
  lemma QuietHeadResult(l: Listener, results: seq<RecognitionResult>, m: Listener, clock: nat -> string)
    requires results != [] && !IsUtterance(results[0]) && m == HandleResult(l, results[0], clock)
    ensures HasUtterance(results) <==> HasUtterance(results[1..])
    ensures HandleResults(l, results[..FirstUtterance(results)], clock)
            == HandleResults(m, results[1..][..FirstUtterance(results[1..])], clock)
  {
    var k := FirstUtterance(results);
    assert results[..k][0] == results[0] && results[..k][1..] == results[1..][..k - 1];
    HasUtteranceCons(results);
  }

  /** Results with no utterance among them leave the outbox and the error count alone. */
  lemma {:induction false} NoUtteranceQueuesNothing(us: seq<RecognitionResult>)
    requires forall i :: 0 <= i < |us| ==> us[i].alternatives != [] && !IsUtterance(us[i])
    ensures Utterances(us) == []
  {
    if us != [] {
      NoUtteranceQueuesNothing(us[1..]);
    }
  }

  lemma {:induction false} UsableKeepsNonUtterance(results: seq<RecognitionResult>)
    requires forall i :: 0 <= i < |results| ==> !IsUtterance(results[i])
    ensures forall i :: 0 <= i < |Usable(results)| ==> !IsUtterance(Usable(results)[i])
  {
    if results != [] {
      UsableKeepsNonUtterance(results[1..]);
    }
  }

  /** A pass before the first utterance changes neither the outbox nor the error count. */
  lemma QuietPrefix(l: Listener, results: seq<RecognitionResult>, r: Listener)
    requires ProcessedAs(l, results[..FirstUtterance(results)], r)
    ensures r.outbox == l.outbox && r.errorCount == l.errorCount
  {
    var p := results[..FirstUtterance(results)];
    UsableKeepsNonUtterance(p);
    NoUtteranceQueuesNothing(Usable(p));
    assert r.outbox == r.outbox[..|l.outbox|] + r.outbox[|l.outbox|..];
  }

  /**
   * `_process_responses` as written: the stream is processed up to its first
   * utterance, which raises; interim text set before it stays, and nothing
   * after it is looked at.
   */
  function ProcessResponsesAsWritten(l: Listener, responses: seq<Response>, clock: nat -> string): (r: Pass)
    ensures r.raised <==> HasUtterance(Flatten(responses))
    ensures ProcessedAs(l, Flatten(responses)[..FirstUtterance(Flatten(responses))], r.listener)
    decreases |responses|
  {
    if responses == [] then Pass(l, false)
    else
      var a, b := responses[0].results, Flatten(responses[1..]);
      var p := HandleResultsAsWritten(l, a, clock);
      if p.raised then
        RaisedInHead(a, b);
        p
      else
        var r := ProcessResponsesAsWritten(p.listener, responses[1..], clock);
        QuietHead(a, b);
        ProcessedAsSeq(l, a, p.listener, b[..FirstUtterance(b)], r.listener);
        r
  }

  /** An utterance in the first batch is the first utterance of the whole stream. */
  lemma RaisedInHead(a: seq<RecognitionResult>, b: seq<RecognitionResult>)
    requires HasUtterance(a)
    ensures HasUtterance(a + b)
    ensures (a + b)[..FirstUtterance(a + b)] == a[..FirstUtterance(a)]
  {
    FirstUtteranceConcat(a, b);
    var i := FirstUtterance(a);
    assert (a + b)[i] == a[i];
  }

  /** Without an utterance in the first batch, the stream's quiet prefix runs through it into the next. */
  lemma QuietHead(a: seq<RecognitionResult>, b: seq<RecognitionResult>)
    requires !HasUtterance(a)
    ensures a[..FirstUtterance(a)] == a
    ensures HasUtterance(a + b) <==> HasUtterance(b)
    ensures (a + b)[..FirstUtterance(a + b)] == a + b[..FirstUtterance(b)]
  {
    FirstUtteranceConcat(a, b);
    if HasUtterance(b) {
      var i := FirstUtterance(b);
      assert (a + b)[|a| + i] == b[i];
    }
  }

  /**
   * One pass of the recognition loop as written: a session that reaches an
   * utterance ends on the raised error whatever else the stream held.
   */
  function RecognizeIterationAsWritten(l: Listener, responses: seq<Response>, end: SessionEnd, clock: nat -> string): (r: Listener)
    ensures !l.running ==> r == l
    ensures l.running && HasUtterance(Flatten(responses)) ==>
              && r.outbox == l.outbox
              && r.errorCount == l.errorCount + 1
              && (!r.running <==> l.errorCount + 1 >= MaxErrors)
    ensures l.running && !r.running ==> !r.isListening
  {
    if !l.running then l
    else
      var p := ProcessResponsesAsWritten(l, responses, clock);
      QuietPrefix(l, Flatten(responses), p.listener);
      EndSession(p.listener, if p.raised then Failed else end)
  }

  /** Consecutive sessions run as written, each ending normally unless it raised. */
  function SessionsAsWritten(l: Listener, sessions: seq<seq<Response>>, clock: nat -> string): Listener
    decreases |sessions|
  {
    if sessions == [] then l
    else SessionsAsWritten(RecognizeIterationAsWritten(l, sessions[0], Ended, clock), sessions[1..], clock)
  }

  /**
   * As written, sessions in which the streamer speaks are failures: the
   * listener keeps running only until the error count reaches five, having
   * queued nothing.
   */
  lemma {:induction false} UtterancesStopListener(l: Listener, sessions: seq<seq<Response>>, clock: nat -> string)
    requires l.running && l.errorCount < MaxErrors
    requires forall j :: 0 <= j < |sessions| ==> HasUtterance(Flatten(sessions[j]))
    ensures SessionsAsWritten(l, sessions, clock).outbox == l.outbox
    ensures |sessions| < MaxErrors - l.errorCount ==> SessionsAsWritten(l, sessions, clock).running
    ensures |sessions| >= MaxErrors - l.errorCount ==>
              !SessionsAsWritten(l, sessions, clock).running && !SessionsAsWritten(l, sessions, clock).isListening
    decreases |sessions|
  {
    if sessions != [] {
      var m := RecognizeIterationAsWritten(l, sessions[0], Ended, clock);
      if m.running {
        UtterancesStopListener(m, sessions[1..], clock);
      } else {
        StoppedSessionsChangeNothing(m, sessions[1..], clock);
      }
    }
  }

  lemma {:induction false} StoppedSessionsChangeNothing(l: Listener, sessions: seq<seq<Response>>, clock: nat -> string)
    requires !l.running
    ensures SessionsAsWritten(l, sessions, clock) == l
    decreases |sessions|
  {
    if sessions != [] {
      StoppedSessionsChangeNothing(l, sessions[1..], clock);
    }
  }

  /**
   * Five sessions in which the streamer speaks, from a clean start: as written
   * the status reports not listening and nothing was queued, where the
   * corrected loop queues the utterance of each session and keeps listening.
   */
  lemma FiveUtterancesStopListener(l: Listener, sessions: seq<seq<Response>>, clock: nat -> string)
    requires l.running && l.errorCount == 0 && |sessions| == MaxErrors
    requires forall j :: 0 <= j < |sessions| ==> HasUtterance(Flatten(sessions[j]))
    ensures !GetStatus(SessionsAsWritten(l, sessions, clock)).isListening
    ensures SessionsAsWritten(l, sessions, clock).outbox == l.outbox
  {
    UtterancesStopListener(l, sessions, clock);
  }

  /**
   * As written, a session in which the streamer says one thing queues nothing
   * and counts as a recognition failure, where the intended handling queues
   * the utterance and clears the error count.
   */
  lemma UtteranceRejectedAsWritten(l: Listener, text: string, clock: nat -> string)
    requires l.running && l.errorCount + 1 < MaxErrors && !Blank(text)
    ensures var session := [Response([RecognitionResult([Alternative(text)], true)])];
            var w := RecognizeIterationAsWritten(l, session, Ended, clock);
            w.outbox == l.outbox && w.errorCount == l.errorCount + 1 && w.running
    ensures var session := [Response([RecognitionResult([Alternative(text)], true)])];
            var c := RecognizeIteration(l, session, Ended, clock);
            Texts(c.outbox) == Texts(l.outbox) + [text] && c.errorCount == 0 && c.running
  {
    var res := RecognitionResult([Alternative(text)], true);
    var session := [Response([res])];
    assert Flatten(session) == [res];
    assert IsUtterance(Flatten(session)[0]);
    UtteranceResetsErrors(l, text, clock);
  }
}
