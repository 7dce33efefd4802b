/**
 * The text chat component (src/components/Chatbot.js): a message list and an
 * input field. Sending ignores a blank input, appends the user's message at
 * once, then appends the bot's reply and clears the input when the request
 * succeeds; a failed request leaves the user's message in place.
 */
module Chatbot {
  import opened Wrappers
  import opened Text
  import opened ChatbotApi

  datatype Sender = UserSender | BotSender

  /** `{sender, text}`; the component writes "user" and "bot". */
  datatype Message = Message(sender: Sender, text: string)

  class ChatWindow {
    var messages: seq<Message>
    var input: string

    constructor ()
      ensures messages == [] && input == ""
    {
      messages, input := [], "";
    }

    /** The input's `onChange`. */
    method ChangeInput(value: string)
      modifies this`input
      ensures input == value
    {
      input := value;
    }

    /**
     * `handleSend`, with the transport outcome of `POST /chat` as parameter.
     * `request` is the message posted (None when the input is blank and
     * nothing is sent); `thrown` is the Error that escapes the handler. The
     * message list only ever grows at its end.
     */
    method HandleSend(outcome: Result<HttpResponse<ChatBody>, AxiosError>)
      returns (request: Option<string>, thrown: Option<string>)
      modifies this
      ensures old(messages) <= messages
      ensures AllIn(old(input), JsWhitespace) ==>
        request == None && thrown == None && messages == old(messages) && input == old(input)
      ensures !AllIn(old(input), JsWhitespace) ==> request == Some(old(input))
      ensures !AllIn(old(input), JsWhitespace) && FetchChatbotResponse(outcome).Success? ==>
        thrown == None && input == ""
        && messages == old(messages) + [Message(UserSender, old(input)), Message(BotSender, FetchChatbotResponse(outcome).value)]
      ensures !AllIn(old(input), JsWhitespace) && FetchChatbotResponse(outcome).Failure? ==>
        thrown == Some(FetchChatbotResponse(outcome).error) && input == old(input)
        && messages == old(messages) + [Message(UserSender, old(input))]
    {
      // `input.trim() === ""` holds exactly for an all-whitespace input (Text.StripEmptyIff).
      var blank := AllIn(input, JsWhitespace);
      if blank {
        return None, None;
      }
      var sent := input;
      messages := messages + [Message(UserSender, sent)];
      request := Some(sent);
      var botResponse := FetchChatbotResponse(outcome);
      if botResponse.Failure? {
        return request, Some(botResponse.error);
      }
      messages := messages + [Message(BotSender, botResponse.value)];
      input := "";
      thrown := None;
    }
  }
}
