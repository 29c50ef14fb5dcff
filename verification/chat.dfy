/**
 * `update_chatbot`, the handler for the side-channel items: it adds the
 * assistant's finished transcript to the chat history shown in the UI.
 */
module Chat {
  import opened Events

  /** One chat entry, the dictionary `{"role": role, "content": content}`. */
  datatype Message = Message(role: string, content: string)

  /** The chat history, a list the handler appends to in place. */
  class Chatbot {
    var messages: seq<Message>

    constructor (messages: seq<Message>)
      ensures this.messages == messages
    {
      this.messages := messages;
    }
  }

  /**
   * Appends `{"role": "assistant", "content": response.transcript}` to the
   * history and returns the same list object; earlier entries are untouched.
   */
  method UpdateChatbot(chatbot: Chatbot, response: ServerEvent) returns (r: Chatbot)
    requires response.AudioTranscriptDone?
    modifies chatbot
    ensures r == chatbot
    ensures |chatbot.messages| == |old(chatbot.messages)| + 1
    ensures chatbot.messages[..|old(chatbot.messages)|] == old(chatbot.messages)
    ensures chatbot.messages[|old(chatbot.messages)|] == Message("assistant", response.transcript)
  {
    chatbot.messages := chatbot.messages + [Message("assistant", response.transcript)];
    r := chatbot;
  }
}
