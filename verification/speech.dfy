/**
 * The speech queue: an unbounded FIFO of response texts consumed by one
 * background task that sets the on-screen caption and then synthesises the
 * text. Synthesis, playback and the overlay connection are outside the model;
 * how each item fares arrives as a parameter.
 */
module Speech {

  datatype Speaker = Speaker(
    queue: seq<string>,
    processing: bool,
    hasTask: bool,
    captions: seq<string>,
    spoken: seq<string>,
    finished: nat)

  /** The speaker as constructed: empty queue, processing enabled, no consumer task. */
  function Initial(): (s: Speaker)
    ensures s.queue == [] && s.processing && !s.hasTask && s.finished == 0
  {
    Speaker([], true, false, [], [], 0)
  }

  /** `start`: creates the consumer task unless one exists. */
  function Start(s: Speaker): (r: Speaker)
    ensures r.hasTask
    ensures s.hasTask ==> r == s
    ensures r == s.(hasTask := true)
  {
    if s.hasTask then s else s.(hasTask := true)
  }

  /** `stop`: cancels and clears the consumer task; without one it does nothing. */
  function Stop(s: Speaker): (r: Speaker)
    ensures !r.hasTask
    ensures !s.hasTask ==> r == s
    ensures r == s.(hasTask := false)
  {
    if s.hasTask then s.(hasTask := false) else s
  }

  lemma StartIdempotent(s: Speaker)
    ensures Start(Start(s)) == Start(s)
  {
  }

  lemma StopIdempotent(s: Speaker)
    ensures Stop(Stop(s)) == Stop(s)
  {
  }

  /** `add_speech`: the text goes to the tail; nothing is ever dropped. */
  function AddSpeech(s: Speaker, text: string): (r: Speaker)
    ensures |r.queue| == |s.queue| + 1
    ensures r.queue[..|s.queue|] == s.queue && r.queue[|s.queue|] == text
    ensures r == s.(queue := r.queue)
  {
    s.(queue := s.queue + [text])
  }

  /** How one dequeued item fared. */
  datatype Delivery =
    | Delivered      // caption set and speech synthesised and played
    | OverlayFailed  // setting the caption raised; synthesis is skipped
    | SynthFailed    // caption set; synthesis or playback failed and was logged

  /**
   * One iteration of `_process_queue`. Without a task, or while paused, or with
   * an empty queue, nothing is dequeued. Otherwise exactly the head is removed,
   * its caption is set unless the overlay failed, it is spoken only if both
   * stages succeeded, and the item is marked done whatever happened.
   */
  function Step(s: Speaker, d: Delivery): (r: Speaker)
    ensures !s.hasTask || !s.processing || s.queue == [] ==> r == s
    ensures s.hasTask && s.processing && s.queue != [] ==>
              && r.queue == s.queue[1..]
              && r.finished == s.finished + 1
              && r.captions == s.captions + (if d == OverlayFailed then [] else [s.queue[0]])
              && r.spoken == s.spoken + (if d == Delivered then [s.queue[0]] else [])
              && r.processing && r.hasTask
  {
    if !s.hasTask || !s.processing || s.queue == [] then s
    else
      var text := s.queue[0];
      var captioned := if d == OverlayFailed then s.captions else s.captions + [text];
      var spoken := if d == Delivered then s.spoken + [text] else s.spoken;
      s.(queue := s.queue[1..], captions := captioned, spoken := spoken, finished := s.finished + 1)
  }

  /** `toggle_processing`. */
  function Toggle(s: Speaker): (r: Speaker)
    ensures r.processing == !s.processing
    ensures r == s.(processing := r.processing)
  {
    s.(processing := !s.processing)
  }

  /** `is_processing`: whether the consumer will take the next queued item. */
  function IsProcessing(s: Speaker): (b: bool)
    ensures s.hasTask && s.queue != [] ==> (b <==> Step(s, Delivered).queue == s.queue[1..])
  {
    s.processing
  }

  /** Toggling twice restores the flag; from the initial state the flag reads paused after one toggle. */
  lemma ToggleTwice(s: Speaker)
    ensures Toggle(Toggle(s)) == s
    ensures IsProcessing(Toggle(Initial())) == false
  {
  }

  /** Steps applied in turn, one outcome per step. */
  function Run(s: Speaker, ds: seq<Delivery>): Speaker
    decreases |ds|
  {
    if ds == [] then s else Run(Step(s, ds[0]), ds[1..])
  }

  /**
   * `r` is `s` after some items were taken off the front of the queue, each
   * marked done, with both flags as they were.
   */
  predicate Dequeued(s: Speaker, r: Speaker) {
    && r.processing == s.processing && r.hasTask == s.hasTask
    && |r.queue| <= |s.queue| && r.queue == s.queue[|s.queue| - |r.queue|..]
    && r.finished == s.finished + (|s.queue| - |r.queue|)
  }

  lemma StepDequeues(s: Speaker, d: Delivery)
    ensures Dequeued(s, Step(s, d))
  {
  }

  lemma DequeuedTrans(a: Speaker, b: Speaker, c: Speaker)
    requires Dequeued(a, b) && Dequeued(b, c)
    ensures Dequeued(a, c)
  {
    SuffixOfSuffix(a.queue, b.queue, c.queue);
  }

  /**
   * Whatever the outcomes, a run keeps both flags, leaves a suffix of the
   * queue and marks every item it takes off done.
   */
  lemma {:induction false} RunShape(s: Speaker, ds: seq<Delivery>)
    ensures Dequeued(s, Run(s, ds))
    decreases |ds|
  {
    if ds != [] {
      var m := Step(s, ds[0]);
      StepDequeues(s, ds[0]);
      RunShape(m, ds[1..]);
      DequeuedTrans(s, m, Run(m, ds[1..]));
    }
  }

  /** A run only extends the captions and the spoken log. */
  lemma {:induction false} RunExtendsLogs(s: Speaker, ds: seq<Delivery>)
    ensures var r := Run(s, ds);
            && |s.captions| <= |r.captions| && r.captions[..|s.captions|] == s.captions
            && |s.spoken| <= |r.spoken| && r.spoken[..|s.spoken|] == s.spoken
    decreases |ds|
  {
    if ds != [] {
      var m := Step(s, ds[0]);
      var r := Run(m, ds[1..]);
      assert Run(s, ds) == r;
      RunExtendsLogs(m, ds[1..]);
      PrefixOfPrefix(s.captions, m.captions, r.captions);
      PrefixOfPrefix(s.spoken, m.spoken, r.spoken);
    }
  }

  lemma SuffixOfSuffix<T>(a: seq<T>, b: seq<T>, c: seq<T>)
    requires |b| <= |a| && b == a[|a| - |b|..]
    requires |c| <= |b| && c == b[|b| - |c|..]
    ensures c == a[|a| - |c|..]
  {
  }

  lemma PrefixOfPrefix<T>(a: seq<T>, b: seq<T>, c: seq<T>)
    requires |a| <= |b| && b[..|a|] == a
    requires |b| <= |c| && c[..|b|] == b
    ensures c[..|a|] == a
  {
  }

  /** While paused, no number of steps touches the queue or anything else. */
  lemma {:induction false} PausedRunKeepsQueue(s: Speaker, ds: seq<Delivery>)
    requires !s.processing
    ensures Run(s, ds) == s
    decreases |ds|
  {
    if ds != [] {
      PausedRunKeepsQueue(s, ds[1..]);
    }
  }

  /** With the consumer running, `k` steps remove exactly the first `k` items and mark each done. */
  lemma {:induction false} RunDequeuesPrefix(s: Speaker, ds: seq<Delivery>)
    requires s.hasTask && s.processing && |ds| <= |s.queue|
    ensures Run(s, ds).queue == s.queue[|ds|..]
    ensures Run(s, ds).finished == s.finished + |ds|
    decreases |ds|
  {
    if ds != [] {
      RunDequeuesPrefix(Step(s, ds[0]), ds[1..]);
      assert s.queue[1..][|ds| - 1..] == s.queue[|ds|..];
    }
  }

  /** The texts the first `|ds|` steps dequeue, split into the head and the rest. */
  lemma StepPrefix(s: Speaker, ds: seq<Delivery>)
    requires s.hasTask && s.processing && 0 < |ds| <= |s.queue|
    ensures var q := s.queue[..|ds|];
            q[0] == s.queue[0] && q[1..] == Step(s, ds[0]).queue[..|ds| - 1]
  {
  }

  /**
   * FIFO: the items are handled in queue order whatever their outcomes: the
   * captions gain the dequeued items whose overlay update succeeded.
   */
  lemma {:induction false} RunCaptionsInOrder(s: Speaker, ds: seq<Delivery>)
    requires s.hasTask && s.processing && |ds| <= |s.queue|
    ensures Run(s, ds).captions == s.captions + Captioned(s.queue[..|ds|], ds)
    decreases |ds|
  {
    if ds != [] {
      var m := Step(s, ds[0]);
      StepPrefix(s, ds);
      RunCaptionsInOrder(m, ds[1..]);
    }
  }

  /** Likewise the spoken log gains, in order, the items both of whose stages succeeded. */
  lemma {:induction false} RunSpeaksInOrder(s: Speaker, ds: seq<Delivery>)
    requires s.hasTask && s.processing && |ds| <= |s.queue|
    ensures Run(s, ds).spoken == s.spoken + SpokenOf(s.queue[..|ds|], ds)
    decreases |ds|
  {
    if ds != [] {
      var m := Step(s, ds[0]);
      StepPrefix(s, ds);
      RunSpeaksInOrder(m, ds[1..]);
    }
  }

  /** The texts whose caption was set: every item whose overlay update succeeded. */
  function Captioned(texts: seq<string>, ds: seq<Delivery>): seq<string>
    requires |texts| == |ds|
  {
    if ds == [] then []
    else (if ds[0] == OverlayFailed then [] else [texts[0]]) + Captioned(texts[1..], ds[1..])
  }

  /** The texts that were spoken: every item both of whose stages succeeded. */
  function SpokenOf(texts: seq<string>, ds: seq<Delivery>): seq<string>
    requires |texts| == |ds|
  {
    if ds == [] then []
    else (if ds[0] == Delivered then [texts[0]] else []) + SpokenOf(texts[1..], ds[1..])
  }

  function AllDelivered(n: nat): (ds: seq<Delivery>)
    ensures |ds| == n && forall i :: 0 <= i < n ==> ds[i] == Delivered
  {
    if n == 0 then [] else [Delivered] + AllDelivered(n - 1)
  }

  lemma {:induction false} AllDeliveredSpeaksAll(texts: seq<string>)
    ensures SpokenOf(texts, AllDelivered(|texts|)) == texts
    ensures Captioned(texts, AllDelivered(|texts|)) == texts
    decreases |texts|
  {
    if texts != [] {
      var ds := AllDelivered(|texts|);
      assert ds[1..] == AllDelivered(|texts| - 1);
      AllDeliveredSpeaksAll(texts[1..]);
      assert [texts[0]] + texts[1..] == texts;
    }
  }

  /** With every item delivered, the whole queue is spoken in the order it was added. */
  lemma DrainSpeaksInOrder(s: Speaker)
    requires s.hasTask && s.processing
    ensures Run(s, AllDelivered(|s.queue|)).queue == []
    ensures Run(s, AllDelivered(|s.queue|)).spoken == s.spoken + s.queue
  {
    RunDequeuesPrefix(s, AllDelivered(|s.queue|));
    RunSpeaksInOrder(s, AllDelivered(|s.queue|));
    AllDeliveredSpeaksAll(s.queue);
    assert s.queue[..|s.queue|] == s.queue;
  }
}
