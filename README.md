# Voice agent turn cycle, modelled in Dafny

This project models the core of a series of daily "voice agent" demo apps.
Each app captures speech, sends it to a chat model, and records and speaks
the reply. What is modelled:

- **The turn cycle** run by one button press in four Streamlit variants:
  - DAY_10: basic "Speak" button, no error handling.
  - DAY_11: "Speak" button with three failure-simulation checkboxes.
  - DAY_13: Start/Stop toggle that filters "System" entries.
  - DAY_14: Start/Stop toggle over `Message(role, text)` records.

  The session is a `class` per variant. Its fields are the session state:
  `chatHistory` (and `recording` in DAY_13 and DAY_14). The button press is a
  method. Its inputs stand in for the external collaborators:
  - the capture result, an `Option<string>`;
  - the chat result, `Success(text)` or `Failure`;
  - the simulation checkboxes, as `bool`s.

  Its outputs record what the press hands to the outside world: the
  `start_chat`/`send_message` request and the text given to playback.
- **The role mapping** that turns `chat_history` into `gemini_history`. It is
  one pure function (`Transcript.ToGemini`) plus the `for`/`append` loop that
  computes it (`Transcript.BuildGeminiHistory`). The loop is shared by all four
  variants: each variant passes its own user label ("You" or "user") and its
  own excluded speakers (`{"System"}` in DAY_13, none elsewhere).
- **The DAY_6 Flask checks**: `allowed_file`, the order of the checks in
  `upload_audio`, and the fields `fake_tts` echoes back.

Modules: `Chat` (shared vocabulary, `[:-1]`, `str.strip`), `Transcript`
(turns and role mapping), `Day10`, `Day11`, `Day13`, `Day14` (one session
class each), `Day6` (upload checks).

The central fact is `Transcript.SentHistoryIsPriorHistory`. After the new user
turn is appended, `gemini_history[:-1]` equals the mapping of the history as
it was before that turn, and the element it drops is the new input. Every
step method's `ensures` therefore states that the request's history is
`ToGemini(old(chatHistory), …)` and that its message is the captured text.

Facts about the code that the model makes explicit:

- The second request of a session sends the first exchange as history and
  the second input as the message (`Day13.SecondRequest`).
- DAY_13 filters "System" turns, but nothing in these files appends one.
- A reply that is only white space is stripped to "" and recorded as it is
  (`Chat.StripEmpty`).
- In DAY_13 and DAY_14 a press ends with `recording` false, except when the
  capture itself raises. The microphone is opened outside the `try` of
  `stt_listen` (DAY_13/app.py:47-49) and of `listen`
  (DAY_14/services/stt.py:7-10). The run then stops with `recording` still
  true, and the next press takes the Stop branch
  (`Day13.InterruptedCapture`). `Press` takes this as its `captureRaises`
  input.

Three definitions carry the meaning of several rows below:

- `Transcript.ToGemini` is the mapping from `chat_history` to
  `gemini_history`. It is recursive from the end: each turn whose speaker is
  not excluded becomes one `Content`, in order. `BuildGeminiHistory` and the
  mapping lemmas are stated against it.
- `Day6.AllowedFile` is `allowed_file`: the name contains '.' and its text
  after the last '.' (`AfterLastDot`), lowercased, is one of the five
  extensions. `AllowedFileRule`, `SplitAtLastDot` and the example lemmas are
  about it.
- `Day11.Session.ReplyText` is the AI text DAY_11 records. It is the
  fallback reply when the LLM failure is simulated or the chat call fails,
  and the stripped reply otherwise. `Day11.Session.Speak` is stated with it.

## Model

| member | source | states |
|---|---|---|
| Chat.DropLast | DAY_13/app.py:97 | Python `[:-1]`: for a non-empty list, the result plus the original last element is the list; for `[]` it is `[]` |
| Chat.Strip | DAY_13/app.py:99 | the stripped reply is no longer than the reply and, unless it is empty, starts and ends with a visible character |
| Chat.StripInfix | DAY_13/app.py:99 | the stripped reply is a contiguous part of the reply, and only white space is cut before and after it |
| Chat.StripEmpty | DAY_11/app.py:92 | the stripped reply is empty exactly when the whole reply is white space |
| Chat.StripUnchanged | DAY_14/main.py:83 | a reply that already starts and ends with a visible character is kept unchanged |
| Chat.StripIdempotent | DAY_10/app.py:68 | stripping an already stripped reply changes nothing |
| Transcript.RoleOf | DAY_13/app.py:91 | every speaker is sent as "user" or "model" |
| Transcript.ToGemini | DAY_13/app.py:88-92 | the mapping never has more entries than the history |
| Transcript.BuildGeminiHistory | DAY_13/app.py:88-92 | the `for`/`append` loop builds exactly `ToGemini` of the history, for every user label and set of excluded speakers |
| Transcript.ToGeminiSnoc | DAY_10/app.py:59-62 | appending one turn to the history appends only its own mapped entry, or nothing if its speaker is excluded |
| Transcript.ToGeminiConcat | DAY_13/app.py:89-92 | mapping keeps order: the mapping of a concatenation is the concatenation of the mappings |
| Transcript.UnfilteredMapping | DAY_11/app.py:79-82 | with nothing excluded, entry i of the mapping is turn i, with "user" for the user label and "model" for any other speaker; the lengths are equal |
| Transcript.FilteredIsKeptMapped | DAY_13/app.py:88-92 | mapping with exclusions equals mapping the kept turns with no exclusions |
| Transcript.KeptLength | DAY_13/app.py:90 | the turns kept are all turns minus those with an excluded speaker |
| Transcript.KeptTurns | DAY_13/app.py:90 | every kept turn comes from the history and has a speaker that is not excluded |
| Transcript.FilteredMapping | DAY_13/app.py:88-92 | with exclusions, exactly the turns with an excluded speaker are lost: the mapping has all turns minus those |
| Transcript.RolesAreExternal | DAY_14/main.py:72-76 | every mapped entry has role "user" or "model" |
| Transcript.SentHistoryIsPriorHistory | DAY_10/app.py:56-67 | after the user turn is appended, `gemini_history[:-1]` equals the mapping of the earlier history, and the dropped last entry is ("user", input) |
| Transcript.ExchangeMapping | DAY_13/app.py:85-104 | a whole exchange adds ("user", input) and then ("model", reply) to the mapping |
| Transcript.FirstExchangeMapping | DAY_13/app.py:88-97 | after one exchange, the mapping is exactly ("user", input), ("model", reply) |
| Transcript.AlternatesByIndex | DAY_13/app.py:85-104 | a history is made of whole (user, AI) exchanges exactly when it has an even number of turns, with the user at every even position and the AI at every odd one |
| Transcript.AlternatesExtend | DAY_13/app.py:85-104 | appending a (user, AI) pair to an alternating history keeps it alternating |
| Transcript.ConversationShape | DAY_11/app.py:76-98 | after n exchanges from an empty history there are 2n turns, alternating user/AI |
| Transcript.ConversationTurns | DAY_11/app.py:76-98 | in that history, turn 2k is the k-th input and turn 2k+1 its reply |
| Day10.Session.constructor | DAY_10/app.py:24-25 | the session starts with an empty `chat_history` |
| Day10.Session.Speak | DAY_10/app.py:52-74 | falsy capture: nothing changes and nothing is sent. Otherwise the request is (mapping of the earlier history, input). Chat success: ("You", input) and ("AI", stripped reply) are appended, and the reply goes to playback. Chat failure: the run raises, leaving only the unpaired ("You", input) appended and nothing played. Alternation is kept unless it raises |
| Day11.Session.constructor | DAY_11/app.py:24-25 | the session starts with an empty `chat_history` |
| Day11.Session.Speak | DAY_11/app.py:68-105 | STT error or falsy capture: history unchanged, nothing sent or played. Otherwise exactly one user and one AI turn are appended. The AI text is the fallback under a simulated LLM error (then nothing is sent) or a chat failure, else the stripped reply. The request is (mapping of the earlier history, input). The TTS flag only decides whether the dispatched text is voiced and never touches the history. Alternation is kept |
| Day13.Session.constructor | DAY_13/app.py:24-27 | the session starts with an empty history, not recording |
| Day13.Session.Press | DAY_13/app.py:79-113 | `recording` is true after a press exactly when a start press's capture raises. The Stop branch, a raising capture and a falsy capture leave the history unchanged and send nothing. Otherwise ("You", input) and ("AI", stripped reply or the fallback) are appended. The request is the mapping of the earlier history with "System" turns dropped, plus the input. The reply goes to playback. Alternation is kept |
| Day13.FirstExchange | DAY_13/app.py:79-106 | capture "hello" answered "hi there" gives [("You","hello"), ("AI","hi there")], an empty request history, and "hi there" played |
| Day13.FailedExchange | DAY_13/app.py:95-106 | a failing chat call on "test" gives [("You","test"), ("AI", fallback)] and plays the fallback |
| Day13.TwoExchanges | DAY_13/app.py:84-104 | two presses in a row are recorded as [("You", input1), ("AI", reply1), ("You", input2), ("AI", reply2)] |
| Day13.SecondRequest | DAY_13/app.py:85-98 | the second press sends the first exchange as ("user", input1), ("model", reply1) for history and input2 as the message |
| Day13.InterruptedCapture | DAY_13/app.py:79-113 | after a raising capture the session is still recording with an empty history; the next press is a Stop press that clears the flag and records and sends nothing |
| Day14.Session.constructor | DAY_14/main.py:34-37 | the session starts with an empty history, not recording |
| Day14.Session.Press | DAY_14/main.py:62-99 | same as DAY_13 over `Message` records with roles "user"/"ai" and no filtering. The "could not understand" warning is shown exactly when a start press's capture returns a falsy value |
| Day6.Lower | DAY_6/app.py:29 | `.lower()` maps each character to its lowercase form, keeping the length |
| Day6.AfterLastDot | DAY_6/app.py:29 | `rsplit('.', 1)[1]`: absent exactly when the name has no '.'; otherwise the dot-free suffix that follows the last '.' |
| Day6.LastExtensionOf | DAY_6/app.py:29 | for any base and a dot-free ext, the text after the last '.' of base + "." + ext is ext |
| Day6.AllowedFileRule | DAY_6/app.py:25-29 | base + "." + ext (ext without '.') is allowed exactly when ext, lowercased, is one of webm/wav/mp3/ogg/m4a |
| Day6.SplitAtLastDot | DAY_6/app.py:28-29 | every name with a '.' is base + "." + ext with a dot-free ext, and it is allowed exactly when ext, lowercased, is allowed |
| Day6.NoDotRejected | DAY_6/app.py:29 | a name without '.' is rejected |
| Day6.UpperCaseAccepted | DAY_6/app.py:29 | "a.WAV" is accepted |
| Day6.LastExtensionAccepted | DAY_6/app.py:29 | "x.exe.mp3" is accepted |
| Day6.EarlierExtensionIgnored | DAY_6/app.py:29 | "x.mp3.exe" is rejected |
| Day6.BareExtension | DAY_6/app.py:29 | ".wav" is accepted and "wav" is rejected |
| Day6.UploadStatus | DAY_6/app.py:56-71 | a saved upload answers 200, every rejection 400 |
| Day6.UploadAudio | DAY_6/app.py:53-71 | checks come in a fixed order: a missing "audio" part gives "No audio file part"; else an empty name gives "No selected audio file"; else a refused type gives "Invalid file type". The file is saved exactly when the part exists and `allowed_file` accepts its name |
| Day6.FakeTts | DAY_6/app.py:40-51 | always succeeds with the fixed audio URL. `characters_used` is the length of `text`, or 0 without it. `voice_used` and `format` echo the request or default to "en-US-ken" and "mp3" |
| Day6.FakeTtsIgnoresOtherKeys | DAY_6/app.py:42-50 | keys other than text, voice_id and format do not change the answer |

## Left out

- Chat.Strip: covers only the white space below U+0080 (tab, line feed, vertical tab, form feed, carriage return, U+001C..U+001F, space). Python's `str.strip` also removes other Unicode white space, for example U+00A0 and U+3000.
- Day6.Lower: lowercases only the ASCII letters A-Z. Python's `str.lower` also lowercases other letters. These cannot make an extension allowed, because no non-ASCII character lowercases to one of the ASCII letters used in the five allowed extensions.
- The Gemini client (`GenerativeModel`, `start_chat`, `send_message`) is a foreign network call. Its result is the `ChatOutcome` parameter, and the request the model makes is returned as `sent`. A failure in `GenerativeModel` before `start_chat` counts as the same `Failure`.
- Speech capture (`speech_recognition`, `recognize_google`, DAY_14/services/stt.py) is hardware and network. Its result is the `Option<string>` parameter.
- Playback (`pyttsx3`, `threading.Thread`, DAY_14/services/tts.py) is fire-and-forget concurrency and audio. Only the text handed to playback is recorded (`playback`), plus, in DAY_11, whether the simulated TTS failure stops the thread from speaking (`voiced`). A failure to start the thread has no modelled effect, because it comes after the AI turn is appended:
  - In DAY_10 nothing catches it (DAY_10/app.py:47-49, 74), so it ends the run.
  - In DAY_11 and DAY_13 it is caught and shows an error or warning.
  - In DAY_14 `speak` catches it and only logs it (DAY_14/services/tts.py:12-16).
- A capture that raises in DAY_10 ends the run before anything is recorded, so it has the same effect as a falsy capture. DAY_11 catches it and treats it as no input.
- Streamlit UI (buttons, checkboxes, CSS, rendering the history, `st.info`/`st.warning`/`st.error`) is presentation and left out. DAY_14's warning branch is kept as the `warned` result.
- Loading the API key and `st.stop()` are process start-up and left out. So is DAY_14's logging.
- No code in these files clears the history, so no reset operation is modelled.
- Day6.UploadAudio: `secure_filename`, `file.save`, `os.path.getsize` and the `filename`/`size` fields of the success answer are filesystem I/O and left out. A saved upload carries the part as received.
- Day6.FakeTts: the request body is modelled as a map from keys to strings. A JSON value that is not a string, or a body that is not JSON, is not modelled.
- DAY_6 `transcribe_file`, `uploaded_file`, `health`, `tts_test` and `index` are network or filesystem calls and fixed answers. They are left out.
- DAY_7/app.py (upload, transcription request and polling loop) and DAY_7/static/scripts.js (browser fetch and audio) have no local logic. They are not part of this model.
