/** ShortenChatHistory (Extensions/ChatExtensions.cs): drop the oldest
    exchange after the system prompt so that a retried chat request is shorter. */
module ChatExtensions {
  import opened Common
  import opened Models

  /** What ShortenChatHistory throws. */
  datatype ShortenError =
    | IndexOutOfRange  // an empty history: reading ChatHistory[0] throws
    | CannotShorten    // InvalidOperationException: nothing after the system prompt but the newest message

  /** Position of the oldest removable message: 1 behind a leading system prompt, else 0. */
  function StartIndex(h: seq<Message>): (s: nat)
    requires h != []
    ensures s <= 1 && (s == 1 <==> h[0].role == "system")
  {
    if h[0].role == "system" then 1 else 0
  }

  /** The history ShortenChatHistory leaves, or the exception it throws: an
      empty history cannot be read, and one with nothing after the system
      prompt but the newest message cannot be shortened. */
  function Shortened(h: seq<Message>): (r: Result<seq<Message>, ShortenError>)
    ensures r == Err(IndexOutOfRange) <==> h == []
    ensures h != [] ==> (r.Ok? <==> |h| > StartIndex(h) + 1)
    ensures r.Ok? ==> |r.value| < |h|
  {
    if h == [] then Err(IndexOutOfRange)
    else
      var s := StartIndex(h);
      if |h| > s + 1 then
        var once := h[..s] + h[s + 1..];
        if |once| > s + 1 && once[s].role == "assistant" then Ok(once[..s] + once[s + 1..])
        else Ok(once)
      else Err(CannotShorten)
  }

  /** One or two messages go, both from position StartIndex, and the rest
      keep their order; a second one goes exactly when an assistant reply
      followed the first and is not the newest message. */
  lemma ShortenedRemoves(h: seq<Message>)
    requires Shortened(h).Ok?
    ensures var r := Shortened(h).value; var s := StartIndex(h); var removed := |h| - |r|;
      && (removed == 1 || removed == 2) && r == h[..s] + h[s + removed..]
      && (removed == 2 <==> |h| > s + 2 && h[s + 1].role == "assistant")
  {
    var s := StartIndex(h);
    var once := h[..s] + h[s + 1..];
    assert once[s] == h[s + 1];
    if |once| > s + 1 && once[s].role == "assistant" {
      assert once[..s] + once[s + 1..] == h[..s] + h[s + 2..];
    }
  }

  /** The system prompt and the newest message survive. */
  lemma ShortenedKeeps(h: seq<Message>)
    requires Shortened(h).Ok?
    ensures var r := Shortened(h).value;
      && |r| >= StartIndex(h) + 1 && r[|r| - 1] == h[|h| - 1]
      && (h[0].role == "system" ==> r[0] == h[0])
  {
    var s := StartIndex(h);
    var once := h[..s] + h[s + 1..];
    assert once[|once| - 1] == h[|h| - 1];
    if |once| > s + 1 && once[s].role == "assistant" {
      var twice := once[..s] + once[s + 1..];
      assert twice[|twice| - 1] == once[|once| - 1];
    }
  }

  /** The extension method itself, removing in place with RemoveAt. */
  method ShortenChatHistory(chat: Chat) returns (r: Result<(), ShortenError>)
    modifies chat`history
    ensures Shortened(old(chat.history)).Ok? ==> r.Ok? && chat.history == Shortened(old(chat.history)).value
    ensures Shortened(old(chat.history)).Err? ==>
      r == Err(Shortened(old(chat.history)).error) && chat.history == old(chat.history)
  {
    if |chat.history| == 0 {
      return Err(IndexOutOfRange);
    }
    var startIndex := if chat.history[0].role == "system" then 1 else 0;
    if |chat.history| > startIndex + 1 {
      chat.history := chat.history[..startIndex] + chat.history[startIndex + 1..];
      if |chat.history| > startIndex + 1 && chat.history[startIndex].role == "assistant" {
        chat.history := chat.history[..startIndex] + chat.history[startIndex + 1..];
      }
      r := Ok(());
    } else {
      r := Err(CannotShorten);
    }
  }

  /** Calling ShortenChatHistory until it throws: the last history it accepted
      (or `h` itself when the first call throws). */
  function Exhaust(h: seq<Message>): seq<Message>
    decreases |h|
  {
    match Shortened(h)
    case Ok(next) => Exhaust(next)
    case Err(_) => h
  }

  /** The number of calls that succeed before one throws. */
  function Rounds(h: seq<Message>): nat
    decreases |h|
  {
    match Shortened(h)
    case Ok(next) => 1 + Rounds(next)
    case Err(_) => 0
  }

  /** Repeated shortening throws after fewer calls than there are messages. */
  lemma {:induction false} RoundsBound(h: seq<Message>)
    ensures h != [] ==> Rounds(h) < |h|
    ensures h == [] ==> Rounds(h) == 0
    decreases |h|
  {
    match Shortened(h)
    case Ok(next) => RoundsBound(next);
    case Err(_) =>
  }

  /** Shortening until it throws leaves one or two messages: the newest one,
      preceded by a system prompt when there is one; a leading system prompt
      of the original history is still first. */
  lemma {:induction false} ExhaustLeavesNewest(h: seq<Message>)
    requires h != []
    ensures var f := Exhaust(h);
      1 <= |f| <= 2 && f[|f| - 1] == h[|h| - 1] && Shortened(f) == Err(CannotShorten)
      && (h[0].role == "system" ==> f[0] == h[0])
    decreases |h|
  {
    match Shortened(h)
    case Ok(next) =>
      ShortenedKeeps(h);
      ExhaustLeavesNewest(next);
    case Err(_) =>
  }
}
