/**
 * DAY_6/app.py: the Flask backend's request checks. `allowed_file` accepts a
 * file name by the extension after its last '.', case-insensitively;
 * `/upload-audio` rejects a request for the first of three reasons that
 * applies; `/tts` echoes its fields back with their defaults.
 */
module Day6 {
  import opened Chat

  const ALLOWED_EXTENSIONS: set<string> := {"webm", "wav", "mp3", "ogg", "m4a"}

  /** `str.lower` on one character, for the ASCII letters. */
  function LowerChar(c: char): char
  {
    if 'A' <= c <= 'Z' then (c as int + 32) as char else c
  }

  function Lower(s: string): (r: string)
    ensures |r| == |s|
    ensures forall k :: 0 <= k < |s| ==> r[k] == LowerChar(s[k])
  {
    if s == [] then [] else [LowerChar(s[0])] + Lower(s[1..])
  }

  /** `name.rsplit('.', 1)[1]`: the text after the last '.', none without one. */
  function AfterLastDot(name: string): (r: Option<string>)
    ensures r.None? <==> '.' !in name
    ensures r.Some? ==> && |r.value| < |name|
                        && name[|name| - |r.value| - 1] == '.'
                        && name[|name| - |r.value|..] == r.value
                        && '.' !in r.value
  {
    if name == [] then None
    else if name[|name| - 1] == '.' then Some([])
    else match AfterLastDot(name[..|name| - 1]) {
      case None => None
      case Some(e) =>
        assert name[..|name| - 1][|name| - 1 - |e|..] == e;
        Some(e + [name[|name| - 1]])
    }
  }

  /** `allowed_file`: the name has a '.' and its last extension, lowercased,
      is one of `ALLOWED_EXTENSIONS`. */
  predicate AllowedFile(filename: string)
  {
    '.' in filename && Lower(AfterLastDot(filename).value) in ALLOWED_EXTENSIONS
  }

  /** Whatever comes before the last '.', only the text after it decides. */
  lemma {:induction false} LastExtensionOf(base: string, ext: string)
    requires '.' !in ext
    ensures AfterLastDot(base + "." + ext) == Some(ext)
  {
    var name := base + "." + ext;
    var r := AfterLastDot(name);
    assert '.' in name by { assert name[|base|] == '.'; }
    var e := r.value;
    assert name[|name| - |ext| - 1] == '.' && name[|name| - |ext|..] == ext;
  }

  /** The extension rule: a name is accepted exactly when it ends in '.' plus
      an extension free of '.' whose lowercase form is allowed. */
  lemma AllowedFileRule(base: string, ext: string)
    requires '.' !in ext
    ensures AllowedFile(base + "." + ext) <==> Lower(ext) in ALLOWED_EXTENSIONS
  {
    LastExtensionOf(base, ext);
  }

  /** Every name with a '.' splits at its last '.', and the part after it decides. */
  lemma SplitAtLastDot(filename: string) returns (base: string, ext: string)
    requires '.' in filename
    ensures filename == base + "." + ext && '.' !in ext
    ensures AllowedFile(filename) <==> Lower(ext) in ALLOWED_EXTENSIONS
  {
    ext := AfterLastDot(filename).value;
    base := filename[..|filename| - |ext| - 1];
    assert filename == base + "." + ext;
  }

  /** A name without a '.' is never accepted; in particular not the empty name. */
  lemma NoDotRejected(filename: string)
    requires '.' !in filename
    ensures !AllowedFile(filename)
  {
  }

  /** The extension is compared case-insensitively. */
  lemma UpperCaseAccepted()
    ensures AllowedFile("a.WAV")
  {
    assert "a.WAV" == "a" + "." + "WAV";
    AllowedFileRule("a", "WAV");
    assert Lower("WAV") == "wav";
  }

  /** Only the last extension counts: an allowed one after another is accepted. */
  lemma LastExtensionAccepted()
    ensures AllowedFile("x.exe.mp3")
  {
    assert "x.exe.mp3" == "x.exe" + "." + "mp3";
    AllowedFileRule("x.exe", "mp3");
    assert Lower("mp3") == "mp3";
  }

  /** Only the last extension counts: an allowed one earlier in the name does not help. */
  lemma EarlierExtensionIgnored()
    ensures !AllowedFile("x.mp3.exe")
  {
    assert "x.mp3.exe" == "x.mp3" + "." + "exe";
    AllowedFileRule("x.mp3", "exe");
    assert Lower("exe") == "exe";
    assert "exe" !in ALLOWED_EXTENSIONS;
  }

  /** A name that is only an extension is accepted; one without a '.' is not. */
  lemma BareExtension()
    ensures AllowedFile(".wav")
    ensures !AllowedFile("wav")
  {
    assert ".wav" == "" + "." + "wav";
    AllowedFileRule("", "wav");
    assert Lower("wav") == "wav";
    NoDotRejected("wav");
  }

  /** One part of `request.files`: its file name and declared content type. */
  datatype UploadedFile = UploadedFile(filename: string, contentType: string)

  /** The JSON answer of `/upload-audio`: a rejection with its message, or the
      file that is saved. */
  datatype UploadResponse = Rejected(error: string) | Saved(file: UploadedFile)

  const NO_AUDIO_PART: string := "No audio file part"
  const NO_SELECTED_FILE: string := "No selected audio file"
  const INVALID_FILE_TYPE: string := "Invalid file type"

  /** The HTTP status of an `/upload-audio` answer. */
  function UploadStatus(r: UploadResponse): (status: int)
    ensures status == 200 <==> r.Saved?
    ensures status == 400 <==> r.Rejected?
  {
    if r.Saved? then 200 else 400
  }

  /** `upload_audio`'s checks, in their order: no "audio" part, then an empty
      file name, then a type `allowed_file` refuses. */
  function UploadAudio(files: map<string, UploadedFile>): (r: UploadResponse)
    ensures r.Saved? <==> "audio" in files && AllowedFile(files["audio"].filename)
    ensures r.Saved? ==> r.file == files["audio"]
    ensures r == Rejected(NO_AUDIO_PART) <==> "audio" !in files
    ensures r == Rejected(NO_SELECTED_FILE) <==> "audio" in files && files["audio"].filename == ""
    ensures r == Rejected(INVALID_FILE_TYPE) <==>
      "audio" in files && files["audio"].filename != "" && !AllowedFile(files["audio"].filename)
  {
    if "audio" !in files then Rejected(NO_AUDIO_PART)
    else
      var file := files["audio"];
      if file.filename == "" then Rejected(NO_SELECTED_FILE)
      else if AllowedFile(file.filename) then Saved(file)
      else Rejected(INVALID_FILE_TYPE)
  }

  const FAKE_AUDIO_URL: string := "https://www.soundhelix.com/examples/mp3/SoundHelix-Song-1.mp3"

  /** The JSON answer of `/tts`. */
  datatype TtsResponse = TtsResponse(success: bool, audioUrl: string, voiceUsed: string, format: string, charactersUsed: nat)

  /** `dict.get(key, default)` */
  function Get(data: map<string, string>, key: string, default: string): string
  {
    if key in data then data[key] else default
  }

  /** `fake_tts`: always succeeds with the fixed audio URL, echoes `voice_id`
      and `format` or their defaults, and counts the characters of `text`. */
  function FakeTts(data: map<string, string>): (r: TtsResponse)
    ensures r.success && r.audioUrl == FAKE_AUDIO_URL
    ensures r.charactersUsed == if "text" in data then |data["text"]| else 0
    ensures "voice_id" in data ==> r.voiceUsed == data["voice_id"]
    ensures "voice_id" !in data ==> r.voiceUsed == "en-US-ken"
    ensures "format" in data ==> r.format == data["format"]
    ensures "format" !in data ==> r.format == "mp3"
  {
    var text := Get(data, "text", "");
    TtsResponse(true, FAKE_AUDIO_URL, Get(data, "voice_id", "en-US-ken"), Get(data, "format", "mp3"), |text|)
  }

  /** Only the three fields it reads matter: any other key leaves the answer as it is. */
  lemma FakeTtsIgnoresOtherKeys(data: map<string, string>, key: string, value: string)
    requires key != "text" && key != "voice_id" && key != "format"
    ensures FakeTts(data[key := value]) == FakeTts(data)
  {
  }
}
