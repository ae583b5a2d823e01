/**
 * DAY_14/main.py: the Start/Stop toggle over `Message(role, text)` records
 * (DAY_14/schemas.py), with capture and playback moved to `services.stt.listen`
 * and `services.tts.speak`. The user's role is "user", the reply's "ai".
 * As in DAY_13, a `listen` that raises (DAY_14/services/stt.py opens the
 * microphone outside its `try`) stops the run with `recording` still set.
 */
module Day14 {
  import opened Chat
  import opened Transcript

  /** `Message(role, text)`: a turn whose speaker is its role. */
  type Message = Turn

  const USER: string := "user"
  const AI: string := "ai"

  class Session {
    /** `st.session_state.chat_history`, a list of `Message` */
    var chatHistory: seq<Message>
    /** `st.session_state.recording` */
    var recording: bool

    constructor ()
      ensures chatHistory == [] && !recording
    {
      chatHistory := [];
      recording := false;
    }

    /** One press of the Start/Stop button. `capture` is what `listen`
        returns if it is called, `captureRaises` tells that it raises instead,
        and `outcome` is what the chat API answers; `sent` is
        the request made to it, `playback` the text handed to `speak`, and
        `warned` tells that the "could not understand" warning is shown. */
    method Press(capture: Option<string>, captureRaises: bool, outcome: ChatOutcome)
      returns (sent: Option<ChatRequest>, playback: Option<string>, warned: bool)
      modifies this
      ensures recording <==> !old(recording) && captureRaises
      ensures warned <==> !old(recording) && !captureRaises && !Truthy(capture)
      ensures old(recording) || captureRaises || !Truthy(capture) ==>
        chatHistory == old(chatHistory) && sent == None && playback == None
      ensures !old(recording) && !captureRaises && Truthy(capture) ==>
        var reply := if outcome.Success? then Strip(outcome.text) else FALLBACK_RESPONSE;
        && chatHistory == old(chatHistory) + [Turn(USER, capture.value), Turn(AI, reply)]
        && sent == Some(ChatRequest(ToGemini(old(chatHistory), USER, {}), capture.value))
        && playback == Some(reply)
      ensures Alternates(old(chatHistory), USER, AI) ==> Alternates(chatHistory, USER, AI)
    {
      sent, playback, warned := None, None, false;
      if !recording {
        recording := true;
        if captureRaises {
          return;
        }
        var userInput := capture;
        if Truthy(userInput) {
          var input := userInput.value;
          ghost var before := chatHistory;
          chatHistory := chatHistory + [Turn(USER, input)];
          var geminiHistory := BuildGeminiHistory(chatHistory, USER, {});
          SentHistoryIsPriorHistory(before, USER, {}, input);
          sent := Some(ChatRequest(DropLast(geminiHistory), input));
          var aiText := if outcome.Success? then Strip(outcome.text) else FALLBACK_RESPONSE;
          chatHistory := chatHistory + [Turn(AI, aiText)];
          assert chatHistory == before + [Turn(USER, input), Turn(AI, aiText)];
          AlternatesExtend(before, USER, AI, input, aiText);
          playback := Some(aiText);
        } else {
          warned := true;
        }
        recording := false;
      } else {
        recording := false;
      }
    }
  }
}
