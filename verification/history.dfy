/**
 * The dialogue history: a bounded FIFO of turns (a `deque` with `maxlen`), a
 * backup counter that wraps every ten appends, and the "last n turns" view the
 * prompt builder reads.
 */
module History {
  import opened Wrappers
  import opened Text

  /** A backup is taken once every this many appends. */
  const BackupInterval: nat := 10

  /** The capacity the controller configures. */
  const DefaultMaxTurns: nat := 1000

  datatype Turn = Turn(role: string, text: string, ts: string)

  datatype HistoryManager = HistoryManager(turns: seq<Turn>, maxTurns: nat, backupCounter: nat) {
    /** The deque never holds more than `maxTurns`, and the counter is a residue modulo ten. */
    predicate Valid() {
      |turns| <= maxTurns && backupCounter < BackupInterval
    }
  }

  /** What a deque with `maxlen = k` keeps of `s`: its last `k` elements. */
  function KeepLast<T>(s: seq<T>, k: nat): (r: seq<T>)
    ensures |r| == Min(|s|, k)
    ensures r == s[|s| - |r|..]
  {
    if |s| <= k then s else s[|s| - k..]
  }

  /** Appending to the kept suffix and keeping again keeps what appending to the whole would. */
  lemma KeepLastSnoc<T>(s: seq<T>, x: T, k: nat)
    ensures KeepLast(KeepLast(s, k) + [x], k) == KeepLast(s + [x], k)
  {
    if |s| > k && k > 0 {
      assert (s[|s| - k..] + [x])[1..] == (s + [x])[|s| + 1 - k..];
    }
  }

  /** With room for two, keeping after appending two elements ends with them. */
  lemma KeepLastEndsWithTwo<T>(s: seq<T>, x: T, y: T, k: nat)
    requires k >= 2
    ensures var r := KeepLast(s + [x, y], k);
            |r| >= 2 && r[|r| - 2..] == [x, y]
  {
    var t := s + [x, y];
    var r := KeepLast(t, k);
    assert r[|r| - 2..] == t[|t| - 2..];
  }

  /** A manager created without a persistence directory, or whose history file is absent. */
  function Fresh(maxTurns: nat): (h: HistoryManager)
    ensures h.Valid() && h.turns == [] && h.maxTurns == maxTurns && h.backupCounter == 0
  {
    HistoryManager([], maxTurns, 0)
  }

  /** The history file as the loader finds it. `Parsed(None)` is a JSON object without a "turns" key. */
  datatype StoredHistory = NoFile | Unreadable | Parsed(turns: Option<seq<Turn>>)

  /**
   * Loading keeps the most recent `maxTurns` stored turns and restarts the
   * counter at the kept length modulo ten; a missing or unreadable file leaves
   * the fresh manager in place.
   */
  function Load(maxTurns: nat, file: StoredHistory): (h: HistoryManager)
    ensures h.Valid() && h.maxTurns == maxTurns
    ensures file.Parsed? ==>
              var stored := file.turns.GetOr([]);
              && |h.turns| == Min(|stored|, maxTurns)
              && h.turns == stored[|stored| - |h.turns|..]
              && h.backupCounter == |h.turns| % BackupInterval
    ensures !file.Parsed? ==> h == Fresh(maxTurns)
  {
    match file
    case Parsed(stored) =>
      var kept := KeepLast(stored.GetOr([]), maxTurns);
      HistoryManager(kept, maxTurns, |kept| % BackupInterval)
    case _ => Fresh(maxTurns)
  }

  datatype AppendOutcome = AppendOutcome(history: HistoryManager, backupAttempted: bool)

  /**
   * `append(role, text)` at clock reading `now`: the new turn goes to the back,
   * the oldest turn is evicted when the deque is full, and a backup is attempted
   * exactly when the counter wraps to zero.
   */
  function Append(h: HistoryManager, role: string, text: string, now: string): (r: AppendOutcome)
    requires h.Valid()
    ensures r.history.Valid() && r.history.maxTurns == h.maxTurns
    ensures |h.turns| < h.maxTurns ==> r.history.turns == h.turns + [Turn(role, text, now)]
    ensures 0 < |h.turns| == h.maxTurns ==> r.history.turns == h.turns[1..] + [Turn(role, text, now)]
    ensures h.maxTurns == 0 ==> r.history.turns == []
    ensures r.history.backupCounter == (h.backupCounter + 1) % BackupInterval
    ensures r.backupAttempted <==> r.history.backupCounter == 0
  {
    var turns := KeepLast(h.turns + [Turn(role, text, now)], h.maxTurns);
    var counter := NextCounter(h.backupCounter);
    AppendOutcome(HistoryManager(turns, h.maxTurns, counter), counter == 0)
  }

  /** A message to append: (role, text, clock reading). */
  datatype Entry = Entry(role: string, text: string, now: string)

  lemma ModShift(a: nat, b: nat)
    ensures (a % BackupInterval + b) % BackupInterval == (a + b) % BackupInterval
  {
    var q := a / BackupInterval;
    assert a == q * BackupInterval + a % BackupInterval;
    assert a + b == q * BackupInterval + (a % BackupInterval + b);
  }

  /** The counter after `n` appends starting from `c`. */
  function CounterAfter(c: nat, n: nat): nat {
    (c + n) % BackupInterval
  }

  /** The counter after one append. */
  function NextCounter(c: nat): nat {
    (c + 1) % BackupInterval
  }

  /** Which of `n` successive appends, starting from counter `c`, bring the counter back to zero. */
  function BackupSchedule(c: nat, n: nat): (flags: seq<bool>)
    ensures |flags| == n
    decreases n
  {
    if n == 0 then [] else [NextCounter(c) == 0] + BackupSchedule(NextCounter(c), n - 1)
  }

  /**
   * The schedule in closed form: append number k (counting from 1) attempts a
   * backup exactly when the starting counter plus k is a multiple of ten, so
   * from a zero counter it is every tenth append.
   */
  lemma {:induction false} BackupEveryTenth(c: nat, n: nat)
    ensures forall k :: 0 <= k < n ==> (BackupSchedule(c, n)[k] <==> (c + k + 1) % BackupInterval == 0)
    decreases n
  {
    if n > 0 {
      var c' := NextCounter(c);
      BackupEveryTenth(c', n - 1);
      var flags := BackupSchedule(c, n);
      forall k | 0 < k < n
        ensures flags[k] <==> (c + k + 1) % BackupInterval == 0
      {
        assert flags[k] == BackupSchedule(c', n - 1)[k - 1];
        ModShift(c + 1, k);
      }
    }
  }

  /**
   * Appends the entries one after another and reports, per append, whether a
   * backup was attempted: the flags follow the counter's schedule, whatever
   * the entries are.
   */
  function AppendAll(h: HistoryManager, entries: seq<Entry>): (r: (HistoryManager, seq<bool>))
    requires h.Valid()
    ensures r.0.Valid() && r.0.maxTurns == h.maxTurns
    ensures |r.1| == |entries|
    ensures r.1 == BackupSchedule(h.backupCounter, |entries|)
    decreases |entries|
  {
    if entries == [] then (h, [])
    else
      var step := Append(h, entries[0].role, entries[0].text, entries[0].now);
      var rest := AppendAll(step.history, entries[1..]);
      (rest.0, [step.backupAttempted] + rest.1)
  }

  /** Over any run of appends the counter advances by one per append, modulo ten. */
  lemma {:induction false} CounterAfterAppends(h: HistoryManager, entries: seq<Entry>)
    requires h.Valid()
    ensures AppendAll(h, entries).0.backupCounter == (h.backupCounter + |entries|) % BackupInterval
    decreases |entries|
  {
    if entries != [] {
      var step := Append(h, entries[0].role, entries[0].text, entries[0].now);
      var c' := step.history.backupCounter;
      CounterAfterAppends(step.history, entries[1..]);
      assert AppendAll(h, entries).0 == AppendAll(step.history, entries[1..]).0;
      assert (c' + (|entries| - 1)) % BackupInterval == (h.backupCounter + |entries|) % BackupInterval by {
        ModShift(h.backupCounter + 1, |entries| - 1);
      }
    }
  }

  /** Python's `s[start:]`: a negative start counts from the end; out-of-range starts are clamped. */
  function SliceFrom<T>(s: seq<T>, start: int): (r: seq<T>)
    ensures |r| <= |s| && r == s[|s| - |r|..]
    ensures start >= 0 ==> |r| == Max(0, |s| - start)
    ensures start < 0 ==> |r| == Min(|s|, -start)
  {
    if start < 0 then (if -start >= |s| then s else s[|s| + start..])
    else if start >= |s| then []
    else s[start..]
  }

  /** One turn as the formatter prints it: "role: text". */
  function FormatTurn(t: Turn): string {
    t.role + ": " + t.text
  }

  /** The turns formatted one per line, joined by "\n". */
  function Render(turns: seq<Turn>): string {
    Join(seq(|turns|, i requires 0 <= i < |turns| => FormatTurn(turns[i])), "\n")
  }

  /**
   * `get_last_n_turns(n)`, i.e. `list(turns)[-n:]` formatted. For n >= 1 it is
   * the last min(n, len) turns; for n = 0 the slice `[-0:]` is the whole
   * history; a negative n drops the first |n| turns.
   */
  function LastNTurns(h: HistoryManager, n: int): (r: string)
    ensures n >= 1 ==> r == Render(h.turns[|h.turns| - Min(n, |h.turns|)..])
    ensures n == 0 ==> r == Render(h.turns)
    ensures n < 0 ==> r == Render(h.turns[Min(-n, |h.turns|)..])
    ensures h.turns == [] ==> r == ""
  {
    Render(SliceFrom(h.turns, -n))
  }

  /** Rendering more turns extends the text by one line per turn. */
  lemma RenderSnoc(turns: seq<Turn>, t: Turn)
    requires turns != []
    ensures Render(turns + [t]) == Render(turns) + "\n" + FormatTurn(t)
  {
    var lines := seq(|turns|, i requires 0 <= i < |turns| => FormatTurn(turns[i]));
    var lines' := seq(|turns| + 1, i requires 0 <= i < |turns| + 1 => FormatTurn((turns + [t])[i]));
    assert lines' == lines + [FormatTurn(t)];
    JoinSnoc(lines, FormatTurn(t), "\n");
  }

  /** Rendered turns ending in `u` and then `a` end with their two lines. */
  lemma RenderEndsWithTwo(pre: seq<Turn>, u: Turn, a: Turn)
    ensures EndsWith(Render(pre + [u, a]), FormatTurn(u) + "\n" + FormatTurn(a))
  {
    var tail := FormatTurn(u) + "\n" + FormatTurn(a);
    assert pre + [u, a] == (pre + [u]) + [a];
    RenderSnoc(pre + [u], a);
    if pre == [] {
      assert Render([u]) == FormatTurn(u);
    } else {
      RenderSnoc(pre, u);
      assert Render(pre + [u, a]) == (Render(pre) + "\n") + tail;
    }
  }

  /** When a history ends with `u` and then `a`, any view of two or more turns ends with their two lines. */
  lemma RecentEndsWithTwo(h: HistoryManager, u: Turn, a: Turn, n: int)
    requires |h.turns| >= 2 && h.turns[|h.turns| - 2..] == [u, a] && n >= 2
    ensures EndsWith(LastNTurns(h, n), FormatTurn(u) + "\n" + FormatTurn(a))
  {
    var k := |h.turns|;
    var m := Min(n, k);
    var shown := h.turns[k - m..];
    assert shown == shown[..m - 2] + [u, a] by {
      assert shown[m - 2..] == h.turns[k - 2..];
    }
    RenderEndsWithTwo(shown[..m - 2], u, a);
  }

  /** Right after an append to a non-zero-capacity history, the last turn shown is the one appended. */
  lemma LastTurnIsNewest(h: HistoryManager, role: string, text: string, now: string)
    requires h.Valid() && h.maxTurns > 0
    ensures LastNTurns(Append(h, role, text, now).history, 1) == role + ": " + text
  {
    var h' := Append(h, role, text, now).history;
    assert h'.turns[|h'.turns| - 1] == Turn(role, text, now);
    assert h'.turns[|h'.turns| - 1..] == [Turn(role, text, now)];
  }
}
