/**
 * DAY_11/app.py: the "Speak" button with error handling and three checkboxes
 * that inject failures. A failing capture counts as no input; a failing chat
 * call is replaced by the fallback reply; a failing playback only happens in
 * the playback thread and never reaches the history.
 */
module Day11 {
  import opened Chat
  import opened Transcript

  const USER: string := "You"
  const AI: string := "AI"

  class Session {
    /** `st.session_state.chat_history` */
    var chatHistory: seq<Turn>

    constructor ()
      ensures chatHistory == []
    {
      chatHistory := [];
    }

    /** The reply recorded for an accepted input: the fallback when the LLM
        failure is simulated or the chat call fails, the stripped text otherwise. */
    static function ReplyText(simulateLlmError: bool, outcome: ChatOutcome): string
    {
      if simulateLlmError || outcome.Failure? then FALLBACK_RESPONSE else Strip(outcome.text)
    }

    /** One press of "Speak" with the three simulation checkboxes. `sent` is
        the request made to the chat API, `playback` the text handed to the
        playback thread, and `voiced` whether that thread gets to speak it. */
    method Speak(capture: Option<string>, outcome: ChatOutcome,
                 simulateSttError: bool, simulateLlmError: bool, simulateTtsError: bool)
      returns (sent: Option<ChatRequest>, playback: Option<string>, voiced: bool)
      modifies this
      ensures simulateSttError ==> chatHistory == old(chatHistory) && sent == None && playback == None
      ensures !Truthy(capture) ==> chatHistory == old(chatHistory) && sent == None && playback == None
      ensures !simulateSttError && Truthy(capture) ==>
        && chatHistory == old(chatHistory) + [Turn(USER, capture.value), Turn(AI, ReplyText(simulateLlmError, outcome))]
        && playback == Some(ReplyText(simulateLlmError, outcome))
        && sent == (if simulateLlmError then None
                    else Some(ChatRequest(ToGemini(old(chatHistory), USER, {}), capture.value)))
      ensures voiced <==> playback.Some? && !simulateTtsError
      ensures Alternates(old(chatHistory), USER, AI) ==> Alternates(chatHistory, USER, AI)
    {
      sent, playback, voiced := None, None, false;
      var userInput := if simulateSttError then None else capture;
      if Truthy(userInput) {
        var input := userInput.value;
        ghost var before := chatHistory;
        chatHistory := chatHistory + [Turn(USER, input)];
        var geminiHistory := BuildGeminiHistory(chatHistory, USER, {});
        var aiText;
        if simulateLlmError {
          aiText := FALLBACK_RESPONSE;
        } else {
          SentHistoryIsPriorHistory(before, USER, {}, input);
          sent := Some(ChatRequest(DropLast(geminiHistory), input));
          aiText := if outcome.Success? then Strip(outcome.text) else FALLBACK_RESPONSE;
        }
        chatHistory := chatHistory + [Turn(AI, aiText)];
        assert chatHistory == before + [Turn(USER, input), Turn(AI, aiText)];
        AlternatesExtend(before, USER, AI, input, aiText);
        playback := Some(aiText);
        voiced := !simulateTtsError;
      }
    }
  }
}
