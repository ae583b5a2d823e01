/**
 * The vocabulary shared by every voice-agent variant: the results of the two
 * external collaborators (speech capture and chat completion), the shape of
 * what is sent to the chat API, the fallback reply, and the two Python
 * built-ins the turn cycle relies on (`[:-1]` and `str.strip`).
 */
module Chat {

  datatype Option<+T> = None | Some(value: T)

  /** What one `send_message` call produced: the response text, or any exception. */
  datatype ChatOutcome = Success(text: string) | Failure

  /** One element of `gemini_history`: `{"role": role, "parts": [{"text": text}]}`. */
  datatype Content = Content(role: string, text: string)

  /** The two calls one turn makes on the chat API:
      `start_chat(history=history)` followed by `send_message(message)`. */
  datatype ChatRequest = ChatRequest(history: seq<Content>, message: string)

  /** The reply recorded when the chat call fails (DAY_11, DAY_13, DAY_14). */
  const FALLBACK_RESPONSE: string := "I'm having trouble connecting right now."

  /** Python's truth value of the capture result `user_input`:
      `None` and `""` are false, every other string is true. */
  predicate Truthy(capture: Option<string>)
  {
    capture.Some? && capture.value != ""
  }

  /** Python's slice `s[:-1]`: everything but the last element, and `[]` for `[]`. */
  function DropLast<T>(s: seq<T>): (r: seq<T>)
    ensures |s| == 0 ==> r == []
    ensures |s| > 0 ==> s == r + [s[|s| - 1]]
  {
    if |s| == 0 then [] else s[..|s| - 1]
  }

  /** The characters below U+0080 that Python's `str.isspace` accepts:
      tab, line feed, vertical tab, form feed, carriage return,
      the four separators U+001C..U+001F, and space. */
  predicate IsSpace(c: char)
  {
    9 <= c as int <= 13 || 28 <= c as int <= 32
  }

  predicate AllSpace(s: string)
  {
    forall k :: 0 <= k < |s| ==> IsSpace(s[k])
  }

  /** The first position at or after `i` that does not hold white space,
      or `|s|` if there is none: where `strip` starts keeping. */
  function SkipSpaceForward(s: string, i: nat): (j: nat)
    requires i <= |s|
    ensures i <= j <= |s|
    ensures forall k :: i <= k < j ==> IsSpace(s[k])
    ensures j == |s| || !IsSpace(s[j])
    decreases |s| - i
  {
    if i < |s| && IsSpace(s[i]) then SkipSpaceForward(s, i + 1) else i
  }

  /** The position just past the last character before `j` that is not
      white space, but never below `lo`: where `strip` stops keeping. */
  function SkipSpaceBackward(s: string, lo: nat, j: nat): (e: nat)
    requires lo <= j <= |s|
    ensures lo <= e <= j
    ensures forall k :: e <= k < j ==> IsSpace(s[k])
    ensures e == lo || !IsSpace(s[e - 1])
    decreases j
  {
    if lo < j && IsSpace(s[j - 1]) then SkipSpaceBackward(s, lo, j - 1) else j
  }

  /** Python's `s.strip()`: white space removed at both ends, so that what is
      left starts and ends with a visible character; `StripInfix` says that
      nothing else is removed. */
  function Strip(s: string): (r: string)
    ensures |r| <= |s|
    ensures r == [] || (!IsSpace(r[0]) && !IsSpace(r[|r| - 1]))
  {
    var i := SkipSpaceForward(s, 0);
    s[i..SkipSpaceBackward(s, i, |s|)]
  }

  /** The stripped text is the infix of `s` that remains once only white space
      is cut on either side. */
  lemma StripInfix(s: string)
    ensures var r := Strip(s);
      exists i :: 0 <= i <= |s| - |r| && r == s[i..i + |r|] && AllSpace(s[..i]) && AllSpace(s[i + |r|..])
  {
    var i := SkipSpaceForward(s, 0);
    var e := SkipSpaceBackward(s, i, |s|);
    assert Strip(s) == s[i..e];
    assert AllSpace(s[..i]) by {
      forall k | 0 <= k < i ensures IsSpace(s[..i][k]) { }
    }
    assert AllSpace(s[e..]) by {
      forall k | 0 <= k < |s| - e ensures IsSpace(s[e..][k]) {
        assert s[e..][k] == s[e + k];
      }
    }
  }

  /** The stripped text is empty exactly when the whole text is white space. */
  lemma StripEmpty(s: string)
    ensures Strip(s) == [] <==> AllSpace(s)
  {
    var i := SkipSpaceForward(s, 0);
    var e := SkipSpaceBackward(s, i, |s|);
    assert Strip(s) == s[i..e];
    if AllSpace(s) {
      assert i == |s|;
    }
  }

  /** A string that already starts and ends with a visible character is left
      as it is. */
  lemma StripUnchanged(s: string)
    requires s != [] && !IsSpace(s[0]) && !IsSpace(s[|s| - 1])
    ensures Strip(s) == s
  {
    assert SkipSpaceForward(s, 0) == 0;
    assert SkipSpaceBackward(s, 0, |s|) == |s|;
    assert s[0..|s|] == s;
  }

  /** Stripping twice is the same as stripping once. */
  lemma StripIdempotent(s: string)
    ensures Strip(Strip(s)) == Strip(s)
  {
    var r := Strip(s);
    if r != [] {
      StripUnchanged(r);
    }
  }
}
