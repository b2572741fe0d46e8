/**
 * The structured prompt: four tagged sections, in the fixed order system,
 * memory, recent, user, with the recent section read from the history.
 */
module Prompt {
  import opened Wrappers
  import History

  /** The builder holds the history it reads and the system prompt loaded at construction. */
  datatype PromptBuilder = PromptBuilder(history: History.HistoryManager, systemPrompt: string)

  /** How many turns the recent section shows. */
  const RecentTurns: int := 10

  const OpenSystem: string := "<system>\n"
  const SystemToMemory: string := "\n</system>\n\n<memory>\n"
  const MemoryToRecent: string := "\n</memory>\n\n<recent>\n"
  const RecentToUser: string := "\n</recent>\n\n<user>\n"
  const CloseUser: string := "\n</user>"

  datatype Sections = Sections(system: string, memory: string, recent: string, user: string)

  /** A delimiter, a section, and whatever follows. */
  function Wrap(delimiter: string, section: string, rest: string): string {
    delimiter + section + rest
  }

  /** The template with each section filled in verbatim. */
  function Assemble(s: Sections): string {
    Wrap(OpenSystem, s.system,
      Wrap(SystemToMemory, s.memory,
        Wrap(MemoryToRecent, s.recent,
          Wrap(RecentToUser, s.user, CloseUser))))
  }

  /**
   * `build(comment=..., rag_memory=...)`: the prompt carries the system
   * prompt, the retrieved memory, the last ten history turns and the comment,
   * each verbatim, in that order, so reading the sections back yields them.
   */
  function Build(pb: PromptBuilder, comment: string, ragMemory: string): (p: string)
    ensures var recent := History.LastNTurns(pb.history, RecentTurns);
            Extract(p, |pb.systemPrompt|, |ragMemory|, |recent|)
            == Some(Sections(pb.systemPrompt, ragMemory, recent, comment))
  {
    var s := Sections(pb.systemPrompt, ragMemory, History.LastNTurns(pb.history, RecentTurns), comment);
    ExtractAssemble(s);
    Assemble(s)
  }

  /** Splits off a leading delimiter and the `n` characters after it. */
  function Unwrap(p: string, delimiter: string, n: nat): (r: Option<(string, string)>)
    ensures r.Some? ==> p == Wrap(delimiter, r.value.0, r.value.1) && |r.value.0| == n
  {
    var d := |delimiter|;
    if |p| >= d + n && p[..d] == delimiter then
      assert p == p[..d] + p[d..d + n] + p[d + n..];
      Some((p[d..d + n], p[d + n..]))
    else None
  }

  lemma UnwrapWrap(delimiter: string, section: string, rest: string)
    ensures Unwrap(Wrap(delimiter, section, rest), delimiter, |section|) == Some((section, rest))
  {
    var p := Wrap(delimiter, section, rest);
    var d := |delimiter|;
    assert p[..d] == delimiter;
    assert p[d..d + |section|] == section;
    assert p[d + |section|..] == rest;
  }

  /**
   * Reads the sections back from a prompt, given the lengths of the first
   * three; `None` when a delimiter is not where the template puts it.
   */
  function Extract(p: string, systemLen: nat, memoryLen: nat, recentLen: nat): (r: Option<Sections>)
    ensures r.Some? ==> p == Assemble(r.value)
  {
    match Unwrap(p, OpenSystem, systemLen)
    case None => None
    case Some((system, p1)) =>
      match Unwrap(p1, SystemToMemory, memoryLen)
      case None => None
      case Some((memory, p2)) =>
        match Unwrap(p2, MemoryToRecent, recentLen)
        case None => None
        case Some((recent, p3)) =>
          if |p3| < |RecentToUser| + |CloseUser| then None
          else
            match Unwrap(p3, RecentToUser, |p3| - |RecentToUser| - |CloseUser|)
            case None => None
            case Some((user, p4)) =>
              if p4 == CloseUser then Some(Sections(system, memory, recent, user)) else None
  }

  /**
   * Every section is inserted verbatim, with no escaping or truncation, and the
   * sections sit in the fixed order: reading them back yields exactly what was
   * put in.
   */
  lemma ExtractAssemble(s: Sections)
    ensures Extract(Assemble(s), |s.system|, |s.memory|, |s.recent|) == Some(s)
  {
    var p3 := Wrap(RecentToUser, s.user, CloseUser);
    var p2 := Wrap(MemoryToRecent, s.recent, p3);
    var p1 := Wrap(SystemToMemory, s.memory, p2);
    UnwrapWrap(OpenSystem, s.system, p1);
    UnwrapWrap(SystemToMemory, s.memory, p2);
    UnwrapWrap(MemoryToRecent, s.recent, p3);
    assert |p3| - |RecentToUser| - |CloseUser| == |s.user|;
    UnwrapWrap(RecentToUser, s.user, CloseUser);
  }

  /** Different comments give different prompts: nothing of the comment is dropped. */
  lemma BuildInjectiveInComment(pb: PromptBuilder, c1: string, c2: string, ragMemory: string)
    requires Build(pb, c1, ragMemory) == Build(pb, c2, ragMemory)
    ensures c1 == c2
  {
  }
}
