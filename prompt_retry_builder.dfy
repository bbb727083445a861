/**
 * `make_retry_prompt` (backend/services/prompt_retry_builder.py): the chat messages sent to
 * the model when a proof is retried. The list starts with three messages and then grows
 * by appending, once when a hint is given and once at the end.
 */
module PromptRetryBuilder {
  import opened Wrappers
  import opened Text

  /** One chat message: a role and its content. */
  datatype ChatMessage = ChatMessage(role: string, content: string)

  const SystemMsg: string :=
    "You are an expert Lean4 assistant. Return ONLY raw Lean4 code \U{2013} do NOT wrap it in markdown fences."
  const FileIntro: string := "Here is the failing Lean file:\n```lean\n"
  const ErrorIntro: string := "Lean error:\n```\n"
  const FenceClose: string := "\n```"
  const HintIntro: string := "Extra hint from user:\n"
  const FinalInstruction: string := "Please output the FULL corrected file."

  /** Python truthiness of an optional string: present and not empty. */
  predicate Truthy(hint: Option<string>) {
    hint.Some? && hint.value != ""
  }

  /** The text between a given opening and closing marker, if `s` is made of them. */
  function Unfence(s: string, open: string, close: string): (r: Option<string>)
    ensures r.Some? ==> s == open + r.value + close
  {
    if |open| + |close| <= |s| && StartsWith(s, open) && EndsWith(s, close) then
      var r := s[|open|..|s| - |close|];
      assert s == s[..|open|] + r + s[|s| - |close|..];
      Some(r)
    else None
  }

  /** Whatever lies between the markers is read back. */
  lemma UnfenceRoundTrip(open: string, body: string, close: string)
    ensures Unfence(open + body + close, open, close) == Some(body)
  {
    var s := open + body + close;
    assert s[..|open|] == open;
    assert s[|s| - |close|..] == close;
    assert s[|open|..|s| - |close|] == body;
  }

  /**
   * `make_retry_prompt`: system instructions, the file between a `lean` fence, the error
   * log between a plain fence, the hint when it is truthy (a whitespace-only hint is), and
   * the closing instruction.
   */
  method MakeRetryPrompt(fileText: string, errorLog: string, userHint: Option<string>)
    returns (msgs: seq<ChatMessage>)
    ensures |msgs| == if Truthy(userHint) then 5 else 4
    ensures msgs[0] == ChatMessage("system", SystemMsg)
    ensures msgs[|msgs| - 1] == ChatMessage("system", FinalInstruction)
    ensures forall i :: 0 < i < |msgs| - 1 ==> msgs[i].role == "user"
    ensures Unfence(msgs[1].content, FileIntro, FenceClose) == Some(fileText)
    ensures Unfence(msgs[2].content, ErrorIntro, FenceClose) == Some(errorLog)
    ensures Truthy(userHint) ==> msgs[3].content == HintIntro + userHint.value
  {
    msgs := [
      ChatMessage("system", SystemMsg),
      ChatMessage("user", FileIntro + fileText + FenceClose),
      ChatMessage("user", ErrorIntro + errorLog + FenceClose)
    ];
    UnfenceRoundTrip(FileIntro, fileText, FenceClose);
    UnfenceRoundTrip(ErrorIntro, errorLog, FenceClose);
    if Truthy(userHint) {
      msgs := msgs + [ChatMessage("user", HintIntro + userHint.value)];
    }
    msgs := msgs + [ChatMessage("system", FinalInstruction)];
  }
}
