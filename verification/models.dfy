/** The records exchanged between the producers, the consumer and the memory searcher. */
module Models {

  /** Where an inbound comment came from. */
  datatype Source = Chat | Voice

  datatype Priority = Normal | High

  /**
   * An audience comment or a finalised utterance of the streamer. The first four
   * fields are the declared dataclass fields; `source`, `priority` and
   * `isVoiceInput` are the fields the voice producer passes when it builds one.
   */
  datatype Comment = Comment(
    id: string,
    author: string,
    text: string,
    timestamp: string,
    source: Source,
    priority: Priority,
    isVoiceInput: bool)

  /** A chat comment as the chat producer builds it: only the declared fields are given. */
  function ChatComment(id: string, author: string, text: string, timestamp: string): (c: Comment)
    ensures c.source == Chat && c.priority == Normal && !c.isVoiceInput
    ensures c.text == text && c.author == author
  {
    Comment(id, author, text, timestamp, Chat, Normal, false)
  }

  /** A voice comment is always high priority. */
  predicate WellTagged(c: Comment) {
    c.source == Voice ==> c.priority == High
  }

  /** A non-negative rational `num / den`; used where the source computes a float quotient. */
  datatype Ratio = Ratio(num: nat, den: nat) {
    predicate Valid() {
      den > 0
    }

    /** The value lies in the closed interval [0, 1]. */
    predicate InUnitInterval() {
      Valid() && num <= den
    }
  }

  /** `a >= b` as real numbers, by cross-multiplication. */
  predicate AtLeast(a: Ratio, b: Ratio) {
    a.num * b.den >= b.num * a.den
  }

  /** A scored search hit. */
  datatype MemoryItem = MemoryItem(triple: string, text: string, score: Ratio)
}
