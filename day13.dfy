/**
 * DAY_13/app.py: the Start/Stop toggle. The session keeps `chat_history` and
 * a `recording` flag. A press while not recording captures speech and runs
 * one exchange, with "System" turns kept out of what the chat API is sent and
 * the fallback reply on a failing chat call. A press ends not recording
 * unless the capture itself raises: `sr.Microphone()` and `listen` run outside
 * the `try` of `stt_listen`, so the run then stops with `recording` still set,
 * and the next press takes the Stop branch.
 */
module Day13 {
  import opened Chat
  import opened Transcript

  const USER: string := "You"
  const AI: string := "AI"
  /** The speakers `gemini_history` leaves out: `("System",)`. */
  const EXCLUDED: set<string> := {"System"}

  class Session {
    /** `st.session_state.chat_history` */
    var chatHistory: seq<Turn>
    /** `st.session_state.recording` */
    var recording: bool

    constructor ()
      ensures chatHistory == [] && !recording
    {
      chatHistory := [];
      recording := false;
    }

    /** One press of the Start/Stop button. `capture` is what `stt_listen`
        returns if it is called, `captureRaises` tells that it raises instead
        (no microphone, for one), and `outcome` is what the chat API answers;
        `sent` is the request made to it and `playback` the text handed to
        `tts_playback`. */
    method Press(capture: Option<string>, captureRaises: bool, outcome: ChatOutcome)
      returns (sent: Option<ChatRequest>, playback: Option<string>)
      modifies this
      ensures recording <==> !old(recording) && captureRaises
      ensures old(recording) || captureRaises || !Truthy(capture) ==>
        chatHistory == old(chatHistory) && sent == None && playback == None
      ensures !old(recording) && !captureRaises && Truthy(capture) ==>
        var reply := if outcome.Success? then Strip(outcome.text) else FALLBACK_RESPONSE;
        && chatHistory == old(chatHistory) + [Turn(USER, capture.value), Turn(AI, reply)]
        && sent == Some(ChatRequest(ToGemini(old(chatHistory), USER, EXCLUDED), capture.value))
        && playback == Some(reply)
      ensures Alternates(old(chatHistory), USER, AI) ==> Alternates(chatHistory, USER, AI)
    {
      sent, playback := None, None;
      if !recording {
        recording := true;
        if captureRaises {
          return;
        }
        var userInput := capture;
        if Truthy(userInput) {
          var input := userInput.value;
          ghost var before := chatHistory;
          chatHistory := chatHistory + [Turn(USER, input)];
          var geminiHistory := BuildGeminiHistory(chatHistory, USER, EXCLUDED);
          SentHistoryIsPriorHistory(before, USER, EXCLUDED, input);
          sent := Some(ChatRequest(DropLast(geminiHistory), input));
          var aiText := if outcome.Success? then Strip(outcome.text) else FALLBACK_RESPONSE;
          chatHistory := chatHistory + [Turn(AI, aiText)];
          assert chatHistory == before + [Turn(USER, input), Turn(AI, aiText)];
          AlternatesExtend(before, USER, AI, input, aiText);
          playback := Some(aiText);
        }
        recording := false;
      } else {
        recording := false;
      }
    }
  }

  /** A capture of "hello" answered "hi there" gives the history
      [("You", "hello"), ("AI", "hi there")], sends no earlier turns and
      plays "hi there". */
  method FirstExchange() returns (history: seq<Turn>, sent: Option<ChatRequest>, playback: Option<string>)
    ensures history == [Turn("You", "hello"), Turn("AI", "hi there")]
    ensures sent == Some(ChatRequest([], "hello"))
    ensures playback == Some("hi there")
  {
    var s := new Session();
    assert Truthy(Some("hello"));
    sent, playback := s.Press(Some("hello"), false, Success("hi there"));
    history := s.chatHistory;
    StripUnchanged("hi there");
  }

  /** A failing chat call on the input "test" records the fallback reply. */
  method FailedExchange() returns (history: seq<Turn>, playback: Option<string>)
    ensures history == [Turn("You", "test"), Turn("AI", FALLBACK_RESPONSE)]
    ensures playback == Some(FALLBACK_RESPONSE)
  {
    var s := new Session();
    var sent;
    assert Truthy(Some("test"));
    sent, playback := s.Press(Some("test"), false, Failure);
    history := s.chatHistory;
  }

  /** Two exchanges in a row are recorded in their order. */
  method TwoExchanges(input1: string, reply1: string, input2: string, reply2: string)
    returns (history: seq<Turn>)
    requires input1 != "" && input2 != ""
    ensures history == [Turn(USER, input1), Turn(AI, Strip(reply1)), Turn(USER, input2), Turn(AI, Strip(reply2))]
  {
    var s := new Session();
    var sent, playback := s.Press(Some(input1), false, Success(reply1));
    sent, playback := s.Press(Some(input2), false, Success(reply2));
    history := s.chatHistory;
  }

  /** The second request sends the first exchange as history and the second
      input as the message, not the second input twice. */
  method SecondRequest(input1: string, reply1: string, input2: string, reply2: string)
    returns (secondSent: Option<ChatRequest>)
    requires input1 != "" && input2 != ""
    ensures secondSent == Some(ChatRequest([Content("user", input1), Content("model", Strip(reply1))], input2))
  {
    assert "AI" !in EXCLUDED && "You" !in EXCLUDED;
    FirstExchangeMapping(USER, AI, EXCLUDED, input1, Strip(reply1));
    var s := new Session();
    assert Truthy(Some(input1)) && Truthy(Some(input2));
    var sent, playback := s.Press(Some(input1), false, Success(reply1));
    assert s.chatHistory == [Turn(USER, input1), Turn(AI, Strip(reply1))];
    ghost var first := s.chatHistory;
    secondSent, playback := s.Press(Some(input2), false, Success(reply2));
    assert secondSent == Some(ChatRequest(ToGemini(first, USER, EXCLUDED), input2));
  }

  /** A capture that raises leaves the session recording, so the next press
      is a Stop press: it only clears the flag, records nothing and sends
      nothing, whatever the capture would have been. */
  method InterruptedCapture(capture: Option<string>, outcome: ChatOutcome)
    returns (stuck: bool, stopped: bool, history: seq<Turn>, sent: Option<ChatRequest>)
    ensures stuck && !stopped
    ensures history == [] && sent == None
  {
    var s := new Session();
    var playback;
    sent, playback := s.Press(capture, true, outcome);
    stuck := s.recording;
    sent, playback := s.Press(capture, false, outcome);
    stopped := s.recording;
    history := s.chatHistory;
  }
}
