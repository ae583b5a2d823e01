/**
 * DAY_10/app.py: the basic "Speak" button. One press captures speech, records
 * the user's turn, asks the chat API with the earlier turns as history, and
 * records and speaks the stripped reply. Nothing is caught: a failing chat
 * call ends the script run after the user's turn has been recorded.
 */
module Day10 {
  import opened Chat
  import opened Transcript

  const USER: string := "You"
  const AI: string := "AI"

  class Session {
    /** `st.session_state.chat_history` */
    var chatHistory: seq<Turn>

    constructor ()
      ensures chatHistory == []
    {
      chatHistory := [];
    }

    /** One press of "Speak". `capture` is what `stt_listen` returned and
        `outcome` what the chat API answered; `sent` is the request made to it,
        `playback` the text handed to the playback thread, and `raised` tells
        that the chat failure escaped the run. */
    method Speak(capture: Option<string>, outcome: ChatOutcome)
      returns (sent: Option<ChatRequest>, playback: Option<string>, raised: bool)
      modifies this
      ensures !Truthy(capture) ==> chatHistory == old(chatHistory) && sent == None && playback == None && !raised
      ensures Truthy(capture) ==>
        && sent == Some(ChatRequest(ToGemini(old(chatHistory), USER, {}), capture.value))
        && raised == outcome.Failure?
        && chatHistory == old(chatHistory) + [Turn(USER, capture.value)]
                          + (if outcome.Success? then [Turn(AI, Strip(outcome.text))] else [])
        && playback == (if outcome.Success? then Some(Strip(outcome.text)) else None)
      ensures Alternates(old(chatHistory), USER, AI) && !raised ==> Alternates(chatHistory, USER, AI)
    {
      sent, playback, raised := None, None, false;
      if Truthy(capture) {
        var userInput := capture.value;
        ghost var before := chatHistory;
        chatHistory := chatHistory + [Turn(USER, userInput)];
        var geminiHistory := BuildGeminiHistory(chatHistory, USER, {});
        SentHistoryIsPriorHistory(before, USER, {}, userInput);
        sent := Some(ChatRequest(DropLast(geminiHistory), userInput));
        if outcome.Success? {
          var aiText := Strip(outcome.text);
          chatHistory := chatHistory + [Turn(AI, aiText)];
          assert chatHistory == before + [Turn(USER, userInput)] + [Turn(AI, aiText)];
          assert before + [Turn(USER, userInput)] + [Turn(AI, aiText)] == before + [Turn(USER, userInput), Turn(AI, aiText)];
          playback := Some(aiText);
          AlternatesExtend(before, USER, AI, userInput, aiText);
        } else {
          raised := true;
        }
      }
    }
  }
}
