/** The data shapes the core passes around (Models/ChatMessage.cs, Models/Chat.cs). */
module Models {

  /** A chat message: the sender's role ("system", "user", "assistant") and its text. */
  datatype Message = Message(role: string, content: string)

  /** A conversation: its system prompt, sampling temperature and the message
      history, which ShortenChatHistory trims in place. */
  class Chat {
    var system: string
    var temperature: real
    var history: seq<Message>

    constructor (system: string, history: seq<Message>)
      ensures this.system == system && this.history == history && temperature == 0.0
    {
      this.system := system;
      this.history := history;
      this.temperature := 0.0;
    }
  }
}
