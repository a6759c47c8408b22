/**
 * The chat history of the main screen: a newest-first list of messages
 * kept to at most 50 entries. A new message goes in at index 0; trimming
 * then drops messages from the tail (the oldest) while there are more
 * than 50.
 */
module ChatHistory {

  const MaxMessages: nat := 50

  /** A chat line; its UUID and timestamp are not modelled. */
  datatype ChatMessage = ChatMessage(text: string, fromUser: bool)

  /** What `trimMessages` leaves of a history. */
  function Bounded(h: seq<ChatMessage>): seq<ChatMessage> {
    if |h| <= MaxMessages then h else h[..MaxMessages]
  }

  /**
   * Trimming keeps the newest messages in order and only drops from the
   * tail: the result is the prefix of length min(|h|, 50), so a history of
   * 50 or fewer is left alone.
   */
  lemma BoundedKeepsNewest(h: seq<ChatMessage>)
    ensures |Bounded(h)| <= MaxMessages
    ensures |Bounded(h)| == if |h| <= MaxMessages then |h| else MaxMessages
    ensures Bounded(h) == h[..|Bounded(h)|]
    ensures |h| <= MaxMessages ==> Bounded(h) == h
  {
  }

  /**
   * Adding a message to a bounded history puts it at index 0 and shifts
   * every kept message back by one; the history grows by one until it
   * holds 50 messages.
   */
  lemma AddShiftsBack(h: seq<ChatMessage>, m: ChatMessage)
    requires |h| <= MaxMessages
    ensures |Bounded([m] + h)| == if |h| < MaxMessages then |h| + 1 else MaxMessages
    ensures Bounded([m] + h)[0] == m
    ensures forall i :: 1 <= i < |Bounded([m] + h)| ==> Bounded([m] + h)[i] == h[i - 1]
  {
  }

  /** Adding `a` and then `b` is the same as adding both at once, `b` first (newest). */
  lemma {:induction false} AddTwice(h: seq<ChatMessage>, a: ChatMessage, b: ChatMessage)
    ensures Bounded([b] + Bounded([a] + h)) == Bounded([b, a] + h)
  {
    if |[a] + h| > MaxMessages {
      assert ([b] + Bounded([a] + h))[..MaxMessages] == ([b, a] + h)[..MaxMessages];
    } else {
      assert [b] + ([a] + h) == [b, a] + h;
    }
  }

  /** Adding `a`, `b` and `c` one after the other is the same as adding all three at once, `c` first (newest). */
  lemma AddThrice(h: seq<ChatMessage>, a: ChatMessage, b: ChatMessage, c: ChatMessage)
    ensures Bounded([c] + Bounded([b] + Bounded([a] + h))) == Bounded([c, b, a] + h)
  {
    AddTwice(h, a, b);
    AddTwice([a] + h, b, c);
    assert [b] + ([a] + h) == [b, a] + h;
    assert [c, b] + ([a] + h) == [c, b, a] + h;
  }
}
