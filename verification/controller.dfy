/**
 * The controller's consumer loop: one iteration takes the next inbound
 * comment (or, with none waiting, asks for a continuation), scores it, and
 * for an accepted comment records the exchange in long-term memory and the
 * dialogue history before queueing the answer for speech. The prompt is the
 * prompt builder's template filled with the system prompt, the memory context,
 * the last ten history turns and the request. Retrieving the memory context
 * and generating the answer are parameters: retrieval sees the request, the
 * theme and the stored documents, and generation yields nothing when it (or
 * building the prompt) raised. The score threshold is a parameter too.
 * Whether each `memory.add` re-indexes without raising is read per iteration,
 * like the clock.
 */
module Controller {
  import opened Wrappers
  import opened Models
  import opened Json
  import Scorer
  import History
  import Speech
  import DocumentStore
  import Prompt
  import Text

  /** The request sent in place of a comment when nobody is talking. */
  const ContinuationRequest := "自然に会話を継続してください。"

  datatype Controller = Controller(
    inbound: seq<Comment>,
    processing: bool,
    isRunning: bool,
    videoId: Option<string>,
    theme: Option<string>,
    history: History.HistoryManager,
    memory: DocumentStore.VTuberMemory,
    speaker: Speech.Speaker)
  {
    predicate Valid() {
      history.Valid()
    }
  }

  /**
   * What the controller is configured with: the score threshold, the loaded
   * system prompt, the memory retrieval that fills the prompt's memory section,
   * and the language model, which yields nothing when the call raised.
   */
  datatype Deps = Deps(
    threshold: nat,
    systemPrompt: string,
    recall: (string, Option<string>, seq<DocumentStore.Document>) -> string,
    generate: string -> Option<string>)

  /** The line a comment is recorded as: `f"{author}: {text}"`. */
  function UserLine(c: Comment): string {
    c.author + ": " + c.text
  }

  /** The metadata `{"role": role}` attached to memory entries. */
  function RoleMeta(role: string): Value {
    Obj(map["role" := Str(role)])
  }

  /** The document `memory.add(text, {"role": role})` appends. */
  function MemoryEntry(text: string, role: string): DocumentStore.Document {
    DocumentStore.Document(Str(text), RoleMeta(role))
  }

  /** A role tag is truthy, so `meta or {}` keeps it. */
  lemma RoleMetaKept(role: string)
    ensures DocumentStore.MetaOrEmpty(RoleMeta(role)) == RoleMeta(role)
  {
    assert "role" in RoleMeta(role).fields;
  }

  /** `history.append(role, text)`, dropping the backup flag the controller ignores. */
  function AppendTurn(h: History.HistoryManager, role: string, text: string, now: string): (r: History.HistoryManager)
    requires h.Valid()
    ensures r.Valid() && r.maxTurns == h.maxTurns
    ensures r.turns == History.KeepLast(h.turns + [History.Turn(role, text, now)], h.maxTurns)
    ensures r.backupCounter == (h.backupCounter + 1) % History.BackupInterval
    ensures h.maxTurns > 0 ==> |r.turns| > 0 && r.turns[|r.turns| - 1] == History.Turn(role, text, now)
    ensures h.maxTurns >= 2 && |h.turns| > 0 ==> |r.turns| >= 2 && r.turns[|r.turns| - 2] == h.turns[|h.turns| - 1]
  {
    var r := History.Append(h, role, text, now).history;
    assert h.maxTurns >= 2 && 0 < |h.turns| == h.maxTurns ==> r.turns[|r.turns| - 2] == h.turns[1..][|h.turns| - 2];
    r
  }

  /** Two appends in a row end with the two new turns, in order, once the capacity allows two. */
  lemma TwoAppendsEndWith(h: History.HistoryManager, h1: History.HistoryManager, h2: History.HistoryManager,
                          role1: string, text1: string, role2: string, text2: string, now: string)
    requires h.Valid() && h1 == AppendTurn(h, role1, text1, now)
    requires h2 == AppendTurn(h1, role2, text2, now)
    ensures h.maxTurns >= 2 ==>
              |h2.turns| >= 2 && h2.turns[|h2.turns| - 2..] == [History.Turn(role1, text1, now), History.Turn(role2, text2, now)]
  {
    if h.maxTurns >= 2 {
      EndsWithTwo(h1.turns, h2.turns, History.Turn(role1, text1, now), History.Turn(role2, text2, now));
    }
  }

  /**
   * Two appends in a row keep what one deque append of both turns would, and
   * advance the backup counter by two.
   */
  lemma TwoAppendsKeep<T>(s: seq<T>, s1: seq<T>, s2: seq<T>, x: T, y: T, k: nat, c: nat, c1: nat, c2: nat)
    requires s1 == History.KeepLast(s + [x], k) && s2 == History.KeepLast(s1 + [y], k)
    requires c1 == (c + 1) % History.BackupInterval && c2 == (c1 + 1) % History.BackupInterval
    ensures s2 == History.KeepLast(s + [x, y], k)
    ensures c2 == History.CounterAfter(c, 2)
  {
    History.KeepLastSnoc(s + [x], y, k);
    assert s + [x] + [y] == s + [x, y];
    History.ModShift(c + 1, 1);
  }

  /** A sequence whose last two elements are `a` and `b` ends with `[a, b]`. */
  lemma EndsWithTwo<T>(s1: seq<T>, s2: seq<T>, a: T, b: T)
    requires |s1| > 0 && s1[|s1| - 1] == a
    requires |s2| >= 2 && s2[|s2| - 2] == s1[|s1| - 1] && s2[|s2| - 1] == b
    ensures s2[|s2| - 2..] == [a, b]
  {
  }

  /** A continuation's answer recorded in memory, in the history and in the speech queue. */
  function RecordAnswer(ctl: Controller, answer: string, now: string): (r: Controller)
    requires ctl.Valid()
    ensures r.Valid()
    ensures r == ctl.(memory := r.memory, history := r.history, speaker := r.speaker)
    ensures r.speaker.queue == ctl.speaker.queue + [answer]
    ensures r.memory.documents == ctl.memory.documents + [MemoryEntry(answer, "assistant")]
    ensures r.history.maxTurns == ctl.history.maxTurns
    ensures r.history.turns == History.KeepLast(ctl.history.turns + [History.Turn("assistant", answer, now)], ctl.history.maxTurns)
    ensures r.history.backupCounter == (ctl.history.backupCounter + 1) % History.BackupInterval
    ensures ctl.history.maxTurns > 0 ==>
              |r.history.turns| > 0 && r.history.turns[|r.history.turns| - 1] == History.Turn("assistant", answer, now)
  {
    RoleMetaKept("assistant");
    ctl.(memory := DocumentStore.Add(ctl.memory, answer, RoleMeta("assistant")),
         history := AppendTurn(ctl.history, "assistant", answer, now),
         speaker := Speech.AddSpeech(ctl.speaker, answer))
  }

  /**
   * `history.append("user", line)` then `history.append("assistant", answer)`:
   * the deque keeps what appending both turns at once would keep, the counter
   * advances by two, and the history ends with the exchange.
   */
  function AppendExchange(h: History.HistoryManager, line: string, answer: string, now: string): (r: History.HistoryManager)
    requires h.Valid()
    ensures r.Valid() && r.maxTurns == h.maxTurns
    ensures r.turns == History.KeepLast(h.turns + [History.Turn("user", line, now), History.Turn("assistant", answer, now)], h.maxTurns)
    ensures r.backupCounter == History.CounterAfter(h.backupCounter, 2)
    ensures h.maxTurns >= 2 ==>
              |r.turns| >= 2 && r.turns[|r.turns| - 2..] == [History.Turn("user", line, now), History.Turn("assistant", answer, now)]
  {
    var u := History.Turn("user", line, now);
    var a := History.Turn("assistant", answer, now);
    var h1 := AppendTurn(h, "user", line, now);
    var h2 := AppendTurn(h1, "assistant", answer, now);
    TwoAppendsKeep(h.turns, h1.turns, h2.turns, u, a, h.maxTurns, h.backupCounter, h1.backupCounter, h2.backupCounter);
    if h.maxTurns >= 2 then History.KeepLastEndsWithTwo(h.turns, u, a, h.maxTurns); h2 else h2
  }

  /** An accepted comment's exchange recorded: the user line, then the answer, in memory and history; the answer queued for speech. */
  function RecordExchange(ctl: Controller, line: string, answer: string, now: string): (r: Controller)
    requires ctl.Valid()
    ensures r.Valid()
    ensures r == ctl.(memory := r.memory, history := r.history, speaker := r.speaker)
    ensures r.speaker.queue == ctl.speaker.queue + [answer]
    ensures r.memory.documents == ctl.memory.documents + [MemoryEntry(line, "user"), MemoryEntry(answer, "assistant")]
    ensures r.history.maxTurns == ctl.history.maxTurns
    ensures r.history.turns == History.KeepLast(ctl.history.turns + [History.Turn("user", line, now), History.Turn("assistant", answer, now)],
                                                ctl.history.maxTurns)
    ensures r.history.backupCounter == History.CounterAfter(ctl.history.backupCounter, 2)
    ensures ctl.history.maxTurns >= 2 ==>
              |r.history.turns| >= 2 &&
              r.history.turns[|r.history.turns| - 2..] == [History.Turn("user", line, now), History.Turn("assistant", answer, now)]
  {
    var m := AddBoth(ctl.memory, line, answer, Tick(now, true, true));
    ctl.(memory := m, history := AppendExchange(ctl.history, line, answer, now), speaker := Speech.AddSpeech(ctl.speaker, answer))
  }

  /**
   * What one iteration reads from outside: the clock, and whether the first
   * and the second `memory.add` of the iteration re-index without raising.
   */
  datatype Tick = Tick(now: string, firstAdd: bool, secondAdd: bool)

  /**
   * `prompt_builder.build` for a request: the builder reads the controller's
   * history, and the memory section holds what retrieval makes of the request,
   * the theme and the stored documents.
   */
  function PromptFor(ctl: Controller, request: string, deps: Deps): string {
    Prompt.Build(Prompt.PromptBuilder(ctl.history, deps.systemPrompt), request,
                 deps.recall(request, ctl.theme, ctl.memory.documents))
  }

  /** `generate_response(prompt)` for a request, if the call did not raise. */
  function Reply(ctl: Controller, request: string, deps: Deps): Option<string> {
    deps.generate(PromptFor(ctl, request, deps))
  }

  /**
   * The language model sees the system prompt, the memory context, the last
   * ten turns of the controller's history and the request, in that order.
   */
  lemma PromptShowsHistory(ctl: Controller, request: string, deps: Deps)
    ensures var memory := deps.recall(request, ctl.theme, ctl.memory.documents);
            var recent := History.LastNTurns(ctl.history, Prompt.RecentTurns);
            Prompt.Extract(PromptFor(ctl, request, deps), |deps.systemPrompt|, |memory|, |recent|)
            == Some(Prompt.Sections(deps.systemPrompt, memory, recent, request))
  {
  }

  /**
   * Once an exchange is recorded, the prompt for the next request shows it:
   * the recent section ends with "user: <line>" and "assistant: <answer>",
   * one per line.
   */
  lemma NextPromptShowsExchange(ctl: Controller, line: string, answer: string, now: string)
    requires ctl.Valid() && ctl.history.maxTurns >= 2
    ensures Text.EndsWith(History.LastNTurns(RecordExchange(ctl, line, answer, now).history, Prompt.RecentTurns),
                          History.FormatTurn(History.Turn("user", line, now)) + "\n" +
                          History.FormatTurn(History.Turn("assistant", answer, now)))
  {
    var h := RecordExchange(ctl, line, answer, now).history;
    var u := History.Turn("user", line, now);
    var a := History.Turn("assistant", answer, now);
    assert h.turns[|h.turns| - 2..] == [u, a];
    History.RecentEndsWithTwo(h, u, a, Prompt.RecentTurns);
  }

  /** The answer the collaborators give for a comment, if any. */
  function Answer(ctl: Controller, c: Comment, deps: Deps): Option<string> {
    Reply(ctl, UserLine(c), deps)
  }

  /** `score < Config.THRESHOLD` fails: the comment clears the score threshold. */
  predicate Accepted(c: Comment, deps: Deps) {
    Scorer.ScoreTenths(c.text) >= deps.threshold
  }

  /**
   * `_handle_comment` as written: a comment scoring under the threshold is
   * dropped with no effect, and so is one whose answer cannot be produced.
   * Otherwise memory gets the user line and then the answer, and only after
   * both adds does the history get the two turns and speech the answer. An add
   * that raises has already appended its document; the error leaves the
   * handler, so the history and speech get nothing.
   */
  function HandleComment(ctl: Controller, c: Comment, deps: Deps, t: Tick): (r: Controller)
    requires ctl.Valid()
    ensures r.Valid()
    ensures !Accepted(c, deps) || Answer(ctl, c, deps).None? ==> r == ctl
    ensures Accepted(c, deps) && Answer(ctl, c, deps).Some? && t.firstAdd && t.secondAdd ==>
              r == RecordExchange(ctl, UserLine(c), Answer(ctl, c, deps).value, t.now)
    ensures Accepted(c, deps) && Answer(ctl, c, deps).Some? && !t.firstAdd ==>
              r == ctl.(memory := r.memory) && r.memory.documents == ctl.memory.documents + [MemoryEntry(UserLine(c), "user")]
    ensures Accepted(c, deps) && Answer(ctl, c, deps).Some? && t.firstAdd && !t.secondAdd ==>
              r == ctl.(memory := r.memory) &&
              r.memory.documents == ctl.memory.documents + [MemoryEntry(UserLine(c), "user"), MemoryEntry(Answer(ctl, c, deps).value, "assistant")]
  {
    if !Accepted(c, deps) then ctl
    else match Answer(ctl, c, deps)
      case None => ctl
      case Some(answer) => HandleAnswered(ctl, UserLine(c), answer, t)
  }

  /**
   * The tail of `_handle_comment` once the answer exists: the two memory adds,
   * then the two history turns and the speech. An add that raises ends the
   * handler with its document already appended.
   */
  function HandleAnswered(ctl: Controller, line: string, answer: string, t: Tick): (r: Controller)
    requires ctl.Valid()
    ensures r.Valid()
    ensures t.firstAdd && t.secondAdd ==> r == RecordExchange(ctl, line, answer, t.now)
    ensures !t.firstAdd ==> r == ctl.(memory := r.memory) && r.memory.documents == ctl.memory.documents + [MemoryEntry(line, "user")]
    ensures t.firstAdd && !t.secondAdd ==>
              r == ctl.(memory := r.memory) &&
              r.memory.documents == ctl.memory.documents + [MemoryEntry(line, "user"), MemoryEntry(answer, "assistant")]
  {
    RoleMetaKept("user");
    RoleMetaKept("assistant");
    var a1 := DocumentStore.TryAdd(ctl.memory, line, RoleMeta("user"), t.firstAdd);
    if a1.raised then ctl.(memory := a1.memory)
    else
      var a2 := DocumentStore.TryAdd(a1.memory, answer, RoleMeta("assistant"), t.secondAdd);
      if a2.raised then ctl.(memory := a2.memory)
      else RecordExchange(ctl, line, answer, t.now)
  }

  /**
   * An exchange recorded with the memory adds contained: the history gets the
   * user turn and the answer first, each memory add is attempted on its own
   * and its failure swallowed, and the answer is queued for speech whatever
   * the memory did.
   */
  function RecordContained(ctl: Controller, line: string, answer: string, t: Tick): (r: Controller)
    requires ctl.Valid()
    ensures r.Valid()
    ensures r == ctl.(memory := r.memory, history := r.history, speaker := r.speaker)
    ensures r.speaker.queue == ctl.speaker.queue + [answer]
    ensures r.memory.documents == ctl.memory.documents + [MemoryEntry(line, "user"), MemoryEntry(answer, "assistant")]
    ensures r.history.maxTurns == ctl.history.maxTurns
    ensures r.history.turns == History.KeepLast(ctl.history.turns + [History.Turn("user", line, t.now), History.Turn("assistant", answer, t.now)],
                                                ctl.history.maxTurns)
    ensures r.history.backupCounter == History.CounterAfter(ctl.history.backupCounter, 2)
    ensures ctl.history.maxTurns >= 2 ==>
              |r.history.turns| >= 2 &&
              r.history.turns[|r.history.turns| - 2..] == [History.Turn("user", line, t.now), History.Turn("assistant", answer, t.now)]
    ensures t.firstAdd && t.secondAdd ==> r == RecordExchange(ctl, line, answer, t.now)
  {
    ctl.(history := AppendExchange(ctl.history, line, answer, t.now), memory := AddBoth(ctl.memory, line, answer, t),
         speaker := Speech.AddSpeech(ctl.speaker, answer))
  }

  /** The two memory adds of an exchange, each attempted whatever the other did. */
  function AddBoth(m: DocumentStore.VTuberMemory, line: string, answer: string, t: Tick): (r: DocumentStore.VTuberMemory)
    ensures r.documents == m.documents + [MemoryEntry(line, "user"), MemoryEntry(answer, "assistant")]
    ensures t.firstAdd && t.secondAdd ==>
              r == DocumentStore.Add(DocumentStore.Add(m, line, RoleMeta("user")), answer, RoleMeta("assistant"))
  {
    RoleMetaKept("user");
    RoleMetaKept("assistant");
    var m1 := DocumentStore.TryAdd(m, line, RoleMeta("user"), t.firstAdd).memory;
    DocumentStore.TryAdd(m1, answer, RoleMeta("assistant"), t.secondAdd).memory
  }

  /** `_handle_comment` with the memory adds contained, as RecordContained records the exchange. */
  function HandleCommentContained(ctl: Controller, c: Comment, deps: Deps, t: Tick): (r: Controller)
    requires ctl.Valid()
    ensures r.Valid()
    ensures !Accepted(c, deps) || Answer(ctl, c, deps).None? ==> r == ctl
    ensures Accepted(c, deps) && Answer(ctl, c, deps).Some? ==>
              r == RecordContained(ctl, UserLine(c), Answer(ctl, c, deps).value, t)
  {
    if !Accepted(c, deps) then ctl
    else match Answer(ctl, c, deps)
      case None => ctl
      case Some(answer) => RecordContained(ctl, UserLine(c), answer, t)
  }

  /** When every memory add succeeds, the contained handler is the handler as written. */
  lemma ContainedAgreesWhenIndexed(ctl: Controller, c: Comment, deps: Deps, t: Tick)
    requires ctl.Valid() && t.firstAdd && t.secondAdd
    ensures HandleCommentContained(ctl, c, deps, t) == HandleComment(ctl, c, deps, t)
  {
  }

  /**
   * As written, a first `memory.add` that raises keeps the user line in memory
   * but loses the exchange: no history turn and no speech. The contained
   * handler keeps both turns in the history and queues the answer.
   */
  lemma MemoryFailureLosesExchange(ctl: Controller, c: Comment, deps: Deps, t: Tick)
    requires ctl.Valid() && ctl.history.maxTurns >= 2
    requires Accepted(c, deps) && Answer(ctl, c, deps).Some? && !t.firstAdd
    ensures var r := HandleComment(ctl, c, deps, t);
            && r.history == ctl.history && r.speaker == ctl.speaker
            && r.memory.documents[|r.memory.documents| - 1] == MemoryEntry(UserLine(c), "user")
    ensures var r := HandleCommentContained(ctl, c, deps, t);
            var answer := Answer(ctl, c, deps).value;
            && r.history.turns[|r.history.turns| - 2..] == [History.Turn("user", UserLine(c), t.now), History.Turn("assistant", answer, t.now)]
            && r.speaker.queue == ctl.speaker.queue + [answer]
  {
  }

  /**
   * `_generate_continuation_response` as written: the answer is added to
   * memory, then to the history, then queued for speech. Any failure is
   * swallowed. A failure before the answer exists changes nothing; a failing
   * `memory.add` leaves the answer in memory only.
   */
  function Continue(ctl: Controller, deps: Deps, t: Tick): (r: Controller)
    requires ctl.Valid()
    ensures r.Valid()
    ensures Reply(ctl, ContinuationRequest, deps).None? ==> r == ctl
    ensures Reply(ctl, ContinuationRequest, deps).Some? && t.firstAdd ==>
              r == RecordAnswer(ctl, Reply(ctl, ContinuationRequest, deps).value, t.now)
    ensures Reply(ctl, ContinuationRequest, deps).Some? && !t.firstAdd ==>
              r == ctl.(memory := r.memory) &&
              r.memory.documents == ctl.memory.documents + [MemoryEntry(Reply(ctl, ContinuationRequest, deps).value, "assistant")]
  {
    match Reply(ctl, ContinuationRequest, deps)
    case None => ctl
    case Some(answer) =>
      RoleMetaKept("assistant");
      var a := DocumentStore.TryAdd(ctl.memory, answer, RoleMeta("assistant"), t.firstAdd);
      if a.raised then ctl.(memory := a.memory)
      else RecordAnswer(ctl, answer, t.now)
  }

  /**
   * The continuation with its memory add contained: the history gets the
   * answer, the add is attempted and its failure swallowed, and the answer is
   * queued for speech.
   */
  function ContinueContained(ctl: Controller, deps: Deps, t: Tick): (r: Controller)
    requires ctl.Valid()
    ensures r.Valid()
    ensures Reply(ctl, ContinuationRequest, deps).None? ==> r == ctl
    ensures Reply(ctl, ContinuationRequest, deps).Some? ==>
              var answer := Reply(ctl, ContinuationRequest, deps).value;
              && r == ctl.(memory := r.memory, history := r.history, speaker := r.speaker)
              && r.speaker.queue == ctl.speaker.queue + [answer]
              && r.memory.documents == ctl.memory.documents + [MemoryEntry(answer, "assistant")]
              && (ctl.history.maxTurns > 0 ==>
                    |r.history.turns| > 0 && r.history.turns[|r.history.turns| - 1] == History.Turn("assistant", answer, t.now))
    ensures t.firstAdd ==> r == Continue(ctl, deps, t)
  {
    match Reply(ctl, ContinuationRequest, deps)
    case None => ctl
    case Some(answer) =>
      RoleMetaKept("assistant");
      var m := DocumentStore.TryAdd(ctl.memory, answer, RoleMeta("assistant"), t.firstAdd).memory;
      ctl.(history := AppendTurn(ctl.history, "assistant", answer, t.now), memory := m,
           speaker := Speech.AddSpeech(ctl.speaker, answer))
  }

  /**
   * As written, a continuation whose `memory.add` raises leaves the answer in
   * memory and nowhere else: the history and the speech queue are unchanged,
   * where the contained continuation records and queues it.
   */
  lemma ContinuationFailureLosesAnswer(ctl: Controller, deps: Deps, t: Tick)
    requires ctl.Valid() && ctl.history.maxTurns > 0
    requires Reply(ctl, ContinuationRequest, deps).Some? && !t.firstAdd
    ensures var r := Continue(ctl, deps, t);
            && r.history == ctl.history && r.speaker == ctl.speaker
            && r.memory.documents[|r.memory.documents| - 1] == MemoryEntry(Reply(ctl, ContinuationRequest, deps).value, "assistant")
    ensures var r := ContinueContained(ctl, deps, t);
            && r.history.turns[|r.history.turns| - 1] == History.Turn("assistant", Reply(ctl, ContinuationRequest, deps).value, t.now)
            && r.speaker.queue == ctl.speaker.queue + [Reply(ctl, ContinuationRequest, deps).value]
  {
  }

  /**
   * One iteration of `_consume_comments` as written. While paused it only
   * sleeps. With nothing waiting it asks for a continuation. Otherwise the head
   * comment is dequeued before it is handled, so it is consumed whatever the
   * handler does; an error escaping `_handle_comment` is logged by the loop,
   * which keeps the state the handler reached.
   */
  function StepAsWritten(ctl: Controller, deps: Deps, t: Tick): (r: Controller)
    requires ctl.Valid()
    ensures r.Valid()
    ensures !ctl.isRunning || !ctl.processing ==> r == ctl
    ensures ctl.isRunning && ctl.processing && ctl.inbound == [] ==> r == Continue(ctl, deps, t) && r.inbound == []
    ensures ctl.isRunning && ctl.processing && ctl.inbound != [] ==>
              r == HandleComment(ctl.(inbound := ctl.inbound[1..]), ctl.inbound[0], deps, t) && r.inbound == ctl.inbound[1..]
  {
    if !ctl.isRunning || !ctl.processing then ctl
    else if ctl.inbound == [] then Continue(ctl, deps, t)
    else HandleComment(ctl.(inbound := ctl.inbound[1..]), ctl.inbound[0], deps, t)
  }

  /** Iterations of the loop as written, one tick each. */
  function RunAsWritten(ctl: Controller, deps: Deps, ticks: seq<Tick>): (r: Controller)
    requires ctl.Valid()
    ensures r.Valid()
    decreases |ticks|
  {
    if ticks == [] then ctl else RunAsWritten(StepAsWritten(ctl, deps, ticks[0]), deps, ticks[1..])
  }

  /** The loop as written is FIFO too: `k` running iterations consume exactly the first `k` comments. */
  lemma {:induction false} RunAsWrittenConsumesPrefix(ctl: Controller, deps: Deps, ticks: seq<Tick>)
    requires ctl.Valid() && ctl.isRunning && ctl.processing && |ticks| <= |ctl.inbound|
    ensures RunAsWritten(ctl, deps, ticks).inbound == ctl.inbound[|ticks|..]
    ensures RunAsWritten(ctl, deps, ticks).isRunning && RunAsWritten(ctl, deps, ticks).processing
    decreases |ticks|
  {
    if ticks != [] {
      var m := StepAsWritten(ctl, deps, ticks[0]);
      RunAsWrittenConsumesPrefix(m, deps, ticks[1..]);
      assert ctl.inbound[1..][|ticks| - 1..] == ctl.inbound[|ticks|..];
    }
  }

  /** While paused, the loop as written changes nothing either. */
  lemma {:induction false} PausedRunAsWrittenChangesNothing(ctl: Controller, deps: Deps, ticks: seq<Tick>)
    requires ctl.Valid() && !ctl.processing
    ensures RunAsWritten(ctl, deps, ticks) == ctl
    decreases |ticks|
  {
    if ticks != [] {
      PausedRunAsWrittenChangesNothing(ctl, deps, ticks[1..]);
    }
  }

  /**
   * As written, an iteration whose first `memory.add` raises on an accepted,
   * answered comment consumes the comment and keeps only the user line in
   * memory: the exchange never reaches the history or speech. The corrected
   * iteration queues the answer.
   */
  lemma LoopLosesExchange(ctl: Controller, deps: Deps, t: Tick)
    requires ctl.Valid() && ctl.isRunning && ctl.processing && ctl.inbound != []
    requires var rest := ctl.(inbound := ctl.inbound[1..]);
             Accepted(ctl.inbound[0], deps) && Answer(rest, ctl.inbound[0], deps).Some? && !t.firstAdd
    ensures var r := StepAsWritten(ctl, deps, t);
            && r.inbound == ctl.inbound[1..] && r.history == ctl.history && r.speaker == ctl.speaker
            && r.memory.documents == ctl.memory.documents + [MemoryEntry(UserLine(ctl.inbound[0]), "user")]
    ensures var answer := Answer(ctl.(inbound := ctl.inbound[1..]), ctl.inbound[0], deps).value;
            Step(ctl, deps, t).speaker.queue == ctl.speaker.queue + [answer]
  {
  }

  /** With every memory add succeeding, the corrected loop is the loop as written, iteration by iteration. */
  lemma {:induction false} RunAgreesWhenIndexed(ctl: Controller, deps: Deps, ticks: seq<Tick>)
    requires ctl.Valid()
    requires forall i :: 0 <= i < |ticks| ==> ticks[i].firstAdd && ticks[i].secondAdd
    ensures Run(ctl, deps, ticks) == RunAsWritten(ctl, deps, ticks)
    decreases |ticks|
  {
    if ticks != [] {
      var t := ticks[0];
      if ctl.isRunning && ctl.processing && ctl.inbound != [] {
        ContainedAgreesWhenIndexed(ctl.(inbound := ctl.inbound[1..]), ctl.inbound[0], deps, t);
      }
      assert Step(ctl, deps, t) == StepAsWritten(ctl, deps, t);
      RunAgreesWhenIndexed(Step(ctl, deps, t), deps, ticks[1..]);
    }
  }

  /**
   * One iteration of `_consume_comments`, with the memory adds contained (see
   * HandleCommentContained and ContinueContained); the head comment is
   * dequeued before it is handled, so it is consumed whatever the handler does.
   */
  function Step(ctl: Controller, deps: Deps, t: Tick): (r: Controller)
    requires ctl.Valid()
    ensures r.Valid()
    ensures !ctl.isRunning || !ctl.processing ==> r == ctl
    ensures ctl.isRunning && ctl.processing && ctl.inbound == [] ==> r == ContinueContained(ctl, deps, t) && r.inbound == []
    ensures ctl.isRunning && ctl.processing && ctl.inbound != [] ==>
              r == HandleCommentContained(ctl.(inbound := ctl.inbound[1..]), ctl.inbound[0], deps, t) && r.inbound == ctl.inbound[1..]
  {
    if !ctl.isRunning || !ctl.processing then ctl
    else if ctl.inbound == [] then ContinueContained(ctl, deps, t)
    else HandleCommentContained(ctl.(inbound := ctl.inbound[1..]), ctl.inbound[0], deps, t)
  }

  /** A comment arriving from a producer joins the back of the inbound queue. */
  function Enqueue(ctl: Controller, c: Comment): (r: Controller)
    ensures r.inbound == ctl.inbound + [c]
    ensures r == ctl.(inbound := r.inbound)
  {
    ctl.(inbound := ctl.inbound + [c])
  }

  /** Iterations in turn, one tick each. */
  function Run(ctl: Controller, deps: Deps, ticks: seq<Tick>): (r: Controller)
    requires ctl.Valid()
    ensures r.Valid()
    decreases |ticks|
  {
    if ticks == [] then ctl else Run(Step(ctl, deps, ticks[0]), deps, ticks[1..])
  }

  /**
   * FIFO: while running and not paused, `k` iterations consume exactly the
   * first `k` waiting comments, accepted or not; nothing is reordered.
   */
  lemma {:induction false} RunConsumesPrefix(ctl: Controller, deps: Deps, ticks: seq<Tick>)
    requires ctl.Valid() && ctl.isRunning && ctl.processing && |ticks| <= |ctl.inbound|
    ensures Run(ctl, deps, ticks).inbound == ctl.inbound[|ticks|..]
    ensures Run(ctl, deps, ticks).isRunning && Run(ctl, deps, ticks).processing
    decreases |ticks|
  {
    if ticks != [] {
      var m := Step(ctl, deps, ticks[0]);
      RunConsumesPrefix(m, deps, ticks[1..]);
      assert ctl.inbound[1..][|ticks| - 1..] == ctl.inbound[|ticks|..];
    }
  }

  /** While paused, no number of iterations changes anything, the queue included. */
  lemma {:induction false} PausedRunChangesNothing(ctl: Controller, deps: Deps, ticks: seq<Tick>)
    requires ctl.Valid() && !ctl.processing
    ensures Run(ctl, deps, ticks) == ctl
    decreases |ticks|
  {
    if ticks != [] {
      PausedRunChangesNothing(ctl, deps, ticks[1..]);
    }
  }

  /** With the adds contained, an answered comment is spoken exactly when it clears the score threshold. */
  lemma SpokenIffAccepted(ctl: Controller, c: Comment, deps: Deps, t: Tick)
    requires ctl.Valid() && Answer(ctl, c, deps).Some?
    ensures Accepted(c, deps) <==> HandleCommentContained(ctl, c, deps, t).speaker.queue != ctl.speaker.queue
  {
  }

  /**
   * As written, an answered comment is spoken exactly when it clears the
   * threshold and both memory adds succeed.
   */
  lemma SpokenIffAcceptedAsWritten(ctl: Controller, c: Comment, deps: Deps, t: Tick)
    requires ctl.Valid() && Answer(ctl, c, deps).Some?
    ensures Accepted(c, deps) && t.firstAdd && t.secondAdd <==> HandleComment(ctl, c, deps, t).speaker.queue != ctl.speaker.queue
  {
  }

  /** A comment under the threshold is consumed and leaves memory, history and speech alone. */
  lemma LowScoreOnlyDequeues(ctl: Controller, deps: Deps, t: Tick)
    requires ctl.Valid() && ctl.isRunning && ctl.processing && ctl.inbound != []
    requires !Accepted(ctl.inbound[0], deps)
    ensures Step(ctl, deps, t) == ctl.(inbound := ctl.inbound[1..])
  {
  }

  /** `pause_comment_processing`. */
  function Pause(ctl: Controller): (r: Controller)
    ensures !IsCommentProcessing(r)
    ensures r == ctl.(processing := false)
  {
    ctl.(processing := false)
  }

  /** `resume_comment_processing`. */
  function Resume(ctl: Controller): (r: Controller)
    ensures IsCommentProcessing(r)
    ensures r == ctl.(processing := true)
  {
    ctl.(processing := true)
  }

  /** `is_comment_processing`. */
  function IsCommentProcessing(ctl: Controller): bool {
    ctl.processing
  }

  /** With comments waiting, the loop takes the next one exactly when comment processing is on. */
  lemma ProcessingFlagGatesIntake(ctl: Controller, deps: Deps, t: Tick)
    requires ctl.Valid() && ctl.isRunning && ctl.inbound != []
    ensures IsCommentProcessing(ctl) <==> Step(ctl, deps, t).inbound == ctl.inbound[1..]
  {
    assert |ctl.inbound[1..]| < |ctl.inbound|;
  }

  /** Pausing and resuming are idempotent, only touch the flag, and resuming undoes a pause. */
  lemma PauseResumeLaws(ctl: Controller)
    ensures Pause(Pause(ctl)) == Pause(ctl) && Resume(Resume(ctl)) == Resume(ctl)
    ensures IsCommentProcessing(ctl) ==> Resume(Pause(ctl)) == ctl
    ensures !IsCommentProcessing(ctl) ==> Pause(Resume(ctl)) == ctl
  {
  }

  /**
   * Pausing mid-session holds the backlog: any number of iterations dequeue
   * nothing. After resuming, the backlog drains from the front, one comment
   * per iteration.
   */
  lemma PauseHoldsBacklog(ctl: Controller, deps: Deps, paused: seq<Tick>, resumed: seq<Tick>)
    requires ctl.Valid() && ctl.isRunning && IsCommentProcessing(ctl) && |resumed| <= |ctl.inbound|
    ensures Run(Pause(ctl), deps, paused) == Pause(ctl)
    ensures Run(Resume(Run(Pause(ctl), deps, paused)), deps, resumed).inbound == ctl.inbound[|resumed|..]
  {
    PausedRunChangesNothing(Pause(ctl), deps, paused);
    PauseResumeLaws(ctl);
    RunConsumesPrefix(ctl, deps, resumed);
  }

  /** `set_theme`. */
  function SetTheme(ctl: Controller, theme: string): (r: Controller)
    ensures r.theme == Some(theme)
    ensures r == ctl.(theme := Some(theme))
  {
    ctl.(theme := Some(theme))
  }

  /** The theme does not affect which comments are accepted, only what the collaborators see. */
  lemma ThemeDoesNotAffectAcceptance(ctl: Controller, theme: string, deps: Deps, t: Tick)
    requires ctl.Valid() && ctl.isRunning && ctl.processing && ctl.inbound != []
    requires !Accepted(ctl.inbound[0], deps)
    ensures Step(SetTheme(ctl, theme), deps, t) == SetTheme(Step(ctl, deps, t), theme)
  {
  }

  /** The state a freshly constructed controller starts from. */
  function Initial(history: History.HistoryManager, memory: DocumentStore.VTuberMemory): (r: Controller)
    ensures IsCommentProcessing(r) && !r.isRunning && r.videoId.None? && r.theme.None? && r.inbound == []
  {
    Controller([], true, false, None, None, history, memory, Speech.Initial())
  }

  /** What `start` leaves: the state and whether it re-raised. */
  datatype StartOutcome = StartOutcome(ctl: Controller, raised: bool)

  /**
   * `start(video_id)`: the video id is recorded and the running flag set before
   * the overlay is pointed at the chat; if that fails the flag is cleared again
   * and the error re-raised. On success the speech consumer is started.
   */
  function Start(ctl: Controller, videoId: string, overlayOk: bool): (r: StartOutcome)
    ensures r.ctl.videoId == Some(videoId)
    ensures r.raised <==> !overlayOk
    ensures r.ctl.isRunning <==> overlayOk
    ensures overlayOk ==> r.ctl.speaker.hasTask
    ensures r.ctl.inbound == ctl.inbound && r.ctl.processing == ctl.processing && r.ctl.history == ctl.history
  {
    var started := ctl.(videoId := Some(videoId), isRunning := true);
    if !overlayOk then StartOutcome(started.(isRunning := false), true)
    else StartOutcome(started.(speaker := Speech.Start(ctl.speaker)), false)
  }

  /** `stop`: clears the running flag and stops the speech consumer. */
  function Stop(ctl: Controller): (r: Controller)
    ensures !r.isRunning && !r.speaker.hasTask
    ensures r.inbound == ctl.inbound && r.history == ctl.history && r.videoId == ctl.videoId
  {
    ctl.(isRunning := false, speaker := Speech.Stop(ctl.speaker))
  }

  /** After `stop`, iterations change nothing: the loop has ended. */
  lemma StoppedRunChangesNothing(ctl: Controller, deps: Deps, ticks: seq<Tick>)
    requires ctl.Valid()
    ensures Run(Stop(ctl), deps, ticks) == Stop(ctl)
  {
    StoppedRunChangesNothingFrom(Stop(ctl), deps, ticks);
  }

  lemma {:induction false} StoppedRunChangesNothingFrom(ctl: Controller, deps: Deps, ticks: seq<Tick>)
    requires ctl.Valid() && !ctl.isRunning
    ensures Run(ctl, deps, ticks) == ctl
    decreases |ticks|
  {
    if ticks != [] {
      StoppedRunChangesNothingFrom(ctl, deps, ticks[1..]);
    }
  }
}
