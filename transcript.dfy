/**
 * The session's `chat_history` and its translation into the chat API's
 * role vocabulary. Every variant keeps the history as an ordered list of
 * (speaker, text) pairs (DAY_14 as `Message(role, text)` records) and builds
 * `gemini_history` with the same `for`/`append` loop; the variants differ only
 * in the label their user turns carry and in the speakers they leave out.
 */
module Transcript {
  import opened Chat

  /** One entry of `chat_history`: `(speaker, content)`, or DAY_14's `Message(role, text)`. */
  datatype Turn = Turn(speaker: string, text: string)

  /** The role the chat API receives for a speaker: "user" for the variant's
      own user label, "model" for every other speaker. */
  function RoleOf(speaker: string, userSpeaker: string): (role: string)
    ensures role == "user" || role == "model"
  {
    if speaker == userSpeaker then "user" else "model"
  }

  function ToContent(t: Turn, userSpeaker: string): (c: Content)
    ensures c.text == t.text
  {
    Content(RoleOf(t.speaker, userSpeaker), t.text)
  }

  /** `gemini_history` as built from `h`: each turn whose speaker is not in
      `excluded` becomes one `Content`, in the order of `h`. */
  function ToGemini(h: seq<Turn>, userSpeaker: string, excluded: set<string>): (g: seq<Content>)
    ensures |g| <= |h|
  {
    if h == [] then []
    else
      var last := h[|h| - 1];
      ToGemini(h[..|h| - 1], userSpeaker, excluded)
        + (if last.speaker in excluded then [] else [ToContent(last, userSpeaker)])
  }

  /** The turns of `h` whose speaker is not excluded, in their order. */
  function Kept(h: seq<Turn>, excluded: set<string>): (r: seq<Turn>)
    ensures |r| <= |h|
  {
    if h == [] then []
    else (if h[0].speaker in excluded then [] else [h[0]]) + Kept(h[1..], excluded)
  }

  /** How many turns of `h` have an excluded speaker. */
  function ExcludedCount(h: seq<Turn>, excluded: set<string>): (n: nat)
    ensures n <= |h|
  {
    if h == [] then 0
    else (if h[0].speaker in excluded then 1 else 0) + ExcludedCount(h[1..], excluded)
  }

  /** The loop that builds `gemini_history` (DAY_10, DAY_11, DAY_14 with no
      exclusions; DAY_13 skipping "System"). */
  method BuildGeminiHistory(h: seq<Turn>, userSpeaker: string, excluded: set<string>) returns (g: seq<Content>)
    ensures g == ToGemini(h, userSpeaker, excluded)
  {
    g := [];
    for i := 0 to |h|
      invariant g == ToGemini(h[..i], userSpeaker, excluded)
    {
      var t := h[i];
      if t.speaker !in excluded {
        g := g + [Content(RoleOf(t.speaker, userSpeaker), t.text)];
      }
      assert h[..i + 1][..i] == h[..i];
    }
    assert h[..|h|] == h;
  }

  /** Appending one turn adds at most its own mapped entry at the end. */
  lemma ToGeminiSnoc(h: seq<Turn>, t: Turn, userSpeaker: string, excluded: set<string>)
    ensures ToGemini(h + [t], userSpeaker, excluded)
         == ToGemini(h, userSpeaker, excluded) + (if t.speaker in excluded then [] else [ToContent(t, userSpeaker)])
  {
    assert (h + [t])[..|h|] == h;
  }

  /** The mapping of a concatenation is the concatenation of the mappings:
      turns are never reordered. */
  lemma {:induction false} ToGeminiConcat(a: seq<Turn>, b: seq<Turn>, userSpeaker: string, excluded: set<string>)
    ensures ToGemini(a + b, userSpeaker, excluded) == ToGemini(a, userSpeaker, excluded) + ToGemini(b, userSpeaker, excluded)
    decreases |b|
  {
    if b == [] {
      assert a + b == a;
    } else {
      var b' := b[..|b| - 1];
      var t := b[|b| - 1];
      assert a + b == (a + b') + [t];
      assert b == b' + [t];
      ToGeminiSnoc(a + b', t, userSpeaker, excluded);
      ToGeminiSnoc(b', t, userSpeaker, excluded);
      ToGeminiConcat(a, b', userSpeaker, excluded);
    }
  }

  /** With nothing excluded the mapping is total and one to one: entry `i`
      is turn `i` with "user" for the user's label and "model" otherwise. */
  lemma {:induction false} UnfilteredMapping(h: seq<Turn>, userSpeaker: string)
    ensures |ToGemini(h, userSpeaker, {})| == |h|
    ensures forall i :: 0 <= i < |h| ==>
      ToGemini(h, userSpeaker, {})[i] == Content(if h[i].speaker == userSpeaker then "user" else "model", h[i].text)
  {
    if h != [] {
      UnfilteredMapping(h[..|h| - 1], userSpeaker);
    }
  }

  /** Mapping with exclusions is mapping, without exclusions, the kept turns. */
  lemma {:induction false} FilteredIsKeptMapped(h: seq<Turn>, userSpeaker: string, excluded: set<string>)
    ensures ToGemini(h, userSpeaker, excluded) == ToGemini(Kept(h, excluded), userSpeaker, {})
  {
    if h != [] {
      FilteredIsKeptMapped(h[1..], userSpeaker, excluded);
      var first := if h[0].speaker in excluded then [] else [h[0]];
      assert h == [h[0]] + h[1..];
      assert ToGemini([h[0]], userSpeaker, excluded) == ToGemini(first, userSpeaker, {}) by {
        assert [h[0]][..0] == [];
        if first != [] {
          assert first[..0] == [];
        }
      }
      ToGeminiConcat([h[0]], h[1..], userSpeaker, excluded);
      ToGeminiConcat(first, Kept(h[1..], excluded), userSpeaker, {});
    }
  }

  /** Exactly the excluded turns are dropped by `Kept`. */
  lemma {:induction false} KeptLength(h: seq<Turn>, excluded: set<string>)
    ensures |Kept(h, excluded)| == |h| - ExcludedCount(h, excluded)
  {
    if h != [] {
      KeptLength(h[1..], excluded);
    }
  }

  /** `Kept` keeps only turns of `h`, and none with an excluded speaker. */
  lemma {:induction false} KeptTurns(h: seq<Turn>, excluded: set<string>)
    ensures forall t :: t in Kept(h, excluded) ==> t.speaker !in excluded && t in h
  {
    if h != [] {
      KeptTurns(h[1..], excluded);
      var first := if h[0].speaker in excluded then [] else [h[0]];
      assert Kept(h, excluded) == first + Kept(h[1..], excluded);
      forall t | t in Kept(h, excluded)
        ensures t.speaker !in excluded && t in h
      {
        if t !in first {
          assert t in Kept(h[1..], excluded);
        }
      }
    }
  }

  /** Since excluding speakers is mapping the kept turns, exactly
      `ExcludedCount` entries are lost. */
  lemma FilteredMapping(h: seq<Turn>, userSpeaker: string, excluded: set<string>)
    ensures |ToGemini(h, userSpeaker, excluded)| == |h| - ExcludedCount(h, excluded)
  {
    FilteredIsKeptMapped(h, userSpeaker, excluded);
    KeptLength(h, excluded);
    UnfilteredMapping(Kept(h, excluded), userSpeaker);
  }

  /** Every entry sent carries one of the chat API's two roles. */
  lemma {:induction false} RolesAreExternal(h: seq<Turn>, userSpeaker: string, excluded: set<string>)
    ensures forall c :: c in ToGemini(h, userSpeaker, excluded) ==> c.role == "user" || c.role == "model"
  {
    if h != [] {
      RolesAreExternal(h[..|h| - 1], userSpeaker, excluded);
    }
  }

  /** The off-by-one that every variant relies on: once the new user turn is
      appended, `gemini_history[:-1]` is exactly the mapping of the history
      as it stood before, and the element it drops is the new input. */
  lemma SentHistoryIsPriorHistory(h: seq<Turn>, userSpeaker: string, excluded: set<string>, input: string)
    requires userSpeaker !in excluded
    ensures var g := ToGemini(h + [Turn(userSpeaker, input)], userSpeaker, excluded);
      && DropLast(g) == ToGemini(h, userSpeaker, excluded)
      && |g| > 0 && g[|g| - 1] == Content("user", input)
  {
    ToGeminiSnoc(h, Turn(userSpeaker, input), userSpeaker, excluded);
  }

  /** A whole exchange adds its input as "user" and its reply as "model". */
  lemma ExchangeMapping(h: seq<Turn>, userSpeaker: string, aiSpeaker: string, excluded: set<string>, input: string, reply: string)
    requires userSpeaker !in excluded && aiSpeaker !in excluded && aiSpeaker != userSpeaker
    ensures ToGemini(h + [Turn(userSpeaker, input), Turn(aiSpeaker, reply)], userSpeaker, excluded)
         == ToGemini(h, userSpeaker, excluded) + [Content("user", input), Content("model", reply)]
  {
    ToGeminiSnoc(h, Turn(userSpeaker, input), userSpeaker, excluded);
    ToGeminiSnoc(h + [Turn(userSpeaker, input)], Turn(aiSpeaker, reply), userSpeaker, excluded);
    assert h + [Turn(userSpeaker, input), Turn(aiSpeaker, reply)] == (h + [Turn(userSpeaker, input)]) + [Turn(aiSpeaker, reply)];
  }

  /** The request after a single exchange carries exactly that exchange. */
  lemma FirstExchangeMapping(userSpeaker: string, aiSpeaker: string, excluded: set<string>, input: string, reply: string)
    requires userSpeaker !in excluded && aiSpeaker !in excluded && aiSpeaker != userSpeaker
    ensures ToGemini([Turn(userSpeaker, input), Turn(aiSpeaker, reply)], userSpeaker, excluded)
         == [Content("user", input), Content("model", reply)]
  {
    var h := [Turn(userSpeaker, input), Turn(aiSpeaker, reply)];
    assert h[..1] == [Turn(userSpeaker, input)];
    assert h[..1][..0] == [];
    assert ToGemini(h[..1][..0], userSpeaker, excluded) == [];
    assert ToGemini(h[..1], userSpeaker, excluded) == [Content("user", input)];
  }

  /** A history made of (user, AI) exchanges: read from the end, it is a
      user turn followed by an AI turn, again and again, down to nothing. */
  ghost predicate Alternates(h: seq<Turn>, userSpeaker: string, aiSpeaker: string)
    decreases |h|
  {
    if h == [] then true
    else
      && |h| >= 2
      && h[|h| - 2].speaker == userSpeaker
      && h[|h| - 1].speaker == aiSpeaker
      && Alternates(h[..|h| - 2], userSpeaker, aiSpeaker)
  }

  /** The same shape read turn by turn: an even number of turns, the user's
      at the even positions and the AI's at the odd ones. */
  lemma {:induction false} AlternatesByIndex(h: seq<Turn>, userSpeaker: string, aiSpeaker: string)
    ensures Alternates(h, userSpeaker, aiSpeaker) <==>
      |h| % 2 == 0 && forall i :: 0 <= i < |h| ==> h[i].speaker == (if i % 2 == 0 then userSpeaker else aiSpeaker)
    decreases |h|
  {
    if |h| >= 2 {
      var p := h[..|h| - 2];
      AlternatesByIndex(p, userSpeaker, aiSpeaker);
      assert forall i :: 0 <= i < |p| ==> p[i] == h[i];
      assert |p| % 2 == |h| % 2;
    } else if |h| == 1 {
      assert |h| % 2 == 1;
    }
  }

  /** The history after the exchanges `inputs[k]` / `replies[k]`, in order. */
  function Conversation(inputs: seq<string>, replies: seq<string>, userSpeaker: string, aiSpeaker: string): seq<Turn>
    requires |inputs| == |replies|
  {
    if inputs == [] then []
    else
      var n := |inputs| - 1;
      Conversation(inputs[..n], replies[..n], userSpeaker, aiSpeaker)
        + [Turn(userSpeaker, inputs[n]), Turn(aiSpeaker, replies[n])]
  }

  /** One more exchange keeps the history alternating. */
  lemma AlternatesExtend(h: seq<Turn>, userSpeaker: string, aiSpeaker: string, input: string, reply: string)
    ensures Alternates(h, userSpeaker, aiSpeaker) ==>
      Alternates(h + [Turn(userSpeaker, input), Turn(aiSpeaker, reply)], userSpeaker, aiSpeaker)
  {
    var h' := h + [Turn(userSpeaker, input), Turn(aiSpeaker, reply)];
    assert h'[..|h'| - 2] == h;
  }

  /** After n exchanges from an empty history there are 2n turns, alternating. */
  lemma {:induction false} ConversationShape(inputs: seq<string>, replies: seq<string>, userSpeaker: string, aiSpeaker: string)
    requires |inputs| == |replies|
    ensures |Conversation(inputs, replies, userSpeaker, aiSpeaker)| == 2 * |inputs|
    ensures Alternates(Conversation(inputs, replies, userSpeaker, aiSpeaker), userSpeaker, aiSpeaker)
  {
    if inputs != [] {
      var n := |inputs| - 1;
      ConversationShape(inputs[..n], replies[..n], userSpeaker, aiSpeaker);
      AlternatesExtend(Conversation(inputs[..n], replies[..n], userSpeaker, aiSpeaker), userSpeaker, aiSpeaker, inputs[n], replies[n]);
    }
  }

  /** Turn 2k of the conversation is the k-th input and turn 2k+1 its reply. */
  lemma {:induction false} ConversationTurns(inputs: seq<string>, replies: seq<string>, userSpeaker: string, aiSpeaker: string, k: nat)
    requires |inputs| == |replies| && k < |inputs|
    ensures 2 * k + 1 < |Conversation(inputs, replies, userSpeaker, aiSpeaker)|
    ensures Conversation(inputs, replies, userSpeaker, aiSpeaker)[2 * k] == Turn(userSpeaker, inputs[k])
    ensures Conversation(inputs, replies, userSpeaker, aiSpeaker)[2 * k + 1] == Turn(aiSpeaker, replies[k])
  {
    var n := |inputs| - 1;
    var prefix := Conversation(inputs[..n], replies[..n], userSpeaker, aiSpeaker);
    var pair := [Turn(userSpeaker, inputs[n]), Turn(aiSpeaker, replies[n])];
    assert Conversation(inputs, replies, userSpeaker, aiSpeaker) == prefix + pair;
    ConversationShape(inputs[..n], replies[..n], userSpeaker, aiSpeaker);
    if k < n {
      ConversationTurns(inputs[..n], replies[..n], userSpeaker, aiSpeaker, k);
      assert inputs[..n][k] == inputs[k] && replies[..n][k] == replies[k];
      assert (prefix + pair)[2 * k] == prefix[2 * k] && (prefix + pair)[2 * k + 1] == prefix[2 * k + 1];
    } else {
      assert (prefix + pair)[2 * k] == pair[0] && (prefix + pair)[2 * k + 1] == pair[1];
    }
  }
}
