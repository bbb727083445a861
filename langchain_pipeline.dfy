/**
 * The selection loop of `first_valid_suggestion` (backend/services/langchain_pipeline.py):
 * the models' answers, gathered in candidate order with exceptions kept as values, are
 * examined one by one; the first whose cleaned text completes the file into one Lean
 * accepts is indented and returned.
 *
 * The model calls are replaced by the gathered responses; `clean_suggestion` and
 * `verify_lean_code` are parameters, the latter returning Lean's verdict and its log.
 */
module LangchainPipeline {
  import opened Text

  /** One gathered response: an exception the model call raised, or the model's text. */
  datatype ModelResponse = Raised(error: string) | Answered(text: string)

  /** The answers among the responses, in candidate order; exceptions are skipped. */
  function Answers(responses: seq<ModelResponse>): (r: seq<string>)
    ensures |r| <= |responses|
  {
    if responses == [] then []
    else
      var last := responses[|responses| - 1];
      Answers(responses[..|responses| - 1]) + (if last.Answered? then [last.text] else [])
  }

  /** Lean accepts the file completed with the cleaned answer. */
  predicate Verifies(fileText: string, raw: string, clean: string -> string, verify: string -> (bool, string)) {
    verify(fileText + clean(raw)).0
  }

  /** The index of the first answer at or after `from` that verifies, or `|answers|` if none does. */
  function FirstVerifiedFrom(fileText: string, answers: seq<string>, clean: string -> string,
                             verify: string -> (bool, string), from: nat): (j: nat)
    requires from <= |answers|
    ensures from <= j <= |answers|
    ensures j < |answers| ==> Verifies(fileText, answers[j], clean, verify)
    ensures forall i :: from <= i < j ==> !Verifies(fileText, answers[i], clean, verify)
    decreases |answers| - from
  {
    if from == |answers| then from
    else if Verifies(fileText, answers[from], clean, verify) then from
    else FirstVerifiedFrom(fileText, answers, clean, verify, from + 1)
  }

  /** The index of the first answer that verifies, or `|answers|`. */
  function FirstVerified(fileText: string, answers: seq<string>, clean: string -> string,
                         verify: string -> (bool, string)): nat
  {
    FirstVerifiedFrom(fileText, answers, clean, verify, 0)
  }

  /** The files handed to Lean for the given answers, in order. */
  function Completions(fileText: string, answers: seq<string>, clean: string -> string): (r: seq<string>)
    ensures |r| == |answers|
    ensures forall i :: 0 <= i < |answers| ==> r[i] == fileText + clean(answers[i])
  {
    if answers == [] then [] else Completions(fileText, answers[..|answers| - 1], clean) + [fileText + clean(answers[|answers| - 1])]
  }

  /**
   * The indentation applied to a verified suggestion: a non-empty one that does not start
   * with a newline is moved to a new line indented by two spaces, its own leading
   * whitespace (Python's `isspace`) dropped.
   */
  function IndentBackend(sug: string): (r: string)
    ensures r == [] <==> sug == []
    ensures r != [] ==> StartsWith(r, "\n")
    ensures StartsWith(sug, "\n") ==> r == sug
    ensures PyLstrip(r) == PyLstrip(sug)
  {
    if sug != [] && !StartsWith(sug, "\n") then
      var t := PyLstrip(sug);
      var ws := "\n  ";
      assert IsPySpace(ws[0]) && IsPySpace(ws[1]) && IsPySpace(ws[2]);
      LstripSkips(ws, t);
      assert (ws + t)[0] == '\n';
      ws + t
    else sug
  }

  /** Leading Python whitespace followed by a non-space (or nothing) is exactly what `lstrip` removes. */
  lemma {:induction false} LstripSkips(ws: string, t: string)
    requires forall i :: 0 <= i < |ws| ==> IsPySpace(ws[i])
    requires t == [] || !IsPySpace(t[0])
    ensures PyLstrip(ws + t) == t
    decreases |ws|
  {
    if ws == [] {
      assert ws + t == t;
    } else {
      assert (ws + t)[0] == ws[0];
      assert (ws + t)[1..] == ws[1..] + t;
      LstripSkips(ws[1..], t);
    }
  }

  lemma AnswersStep(responses: seq<ModelResponse>, i: nat)
    requires i < |responses|
    ensures Answers(responses[..i + 1]) ==
      Answers(responses[..i]) + (if responses[i].Answered? then [responses[i].text] else [])
  {
    assert responses[..i + 1][..i] == responses[..i];
  }

  /** The answers among a prefix of the responses are a prefix of all the answers. */
  lemma {:induction false} AnswersPrefix(responses: seq<ModelResponse>, i: nat)
    requires i <= |responses|
    ensures var a := Answers(responses[..i]);
      |a| <= |Answers(responses)| && a == Answers(responses)[..|a|]
    decreases |responses| - i
  {
    if i < |responses| {
      AnswersPrefix(responses, i + 1);
      AnswersStep(responses, i);
    } else {
      assert responses[..i] == responses;
    }
  }

  /**
   * `first_valid_suggestion`'s loop. `checked` lists the files handed to Lean, in order:
   * one per answer up to and including the first that verifies, and none for an exception.
   * The result is that answer's cleaned text, indented after it has been verified, or `""`
   * when no answer verifies.
   */
  method FirstValidSuggestion(fileText: string, responses: seq<ModelResponse>,
                              clean: string -> string, verify: string -> (bool, string))
    returns (r: string, checked: seq<string>)
    ensures var answers := Answers(responses);
      var j := FirstVerified(fileText, answers, clean, verify);
      && checked == Completions(fileText, answers[..if j < |answers| then j + 1 else j], clean)
      && r == (if j < |answers| then IndentBackend(clean(answers[j])) else "")
    ensures r != [] ==> StartsWith(r, "\n")
  {
    checked := [];
    ghost var seen: seq<string> := [];
    for i := 0 to |responses|
      invariant seen == Answers(responses[..i])
      invariant checked == Completions(fileText, seen, clean)
      invariant NoneVerifies(fileText, seen, clean, verify)
    {
      AnswersStep(responses, i);
      var raw := responses[i];
      if raw.Raised? {
        continue;
      }
      var sug := clean(raw.text);
      var completed := fileText + sug;
      CompletionsStep(fileText, seen, raw.text, clean);
      checked := checked + [completed];
      var verdict := verify(completed);
      if verdict.0 {
        var cleaned := sug;
        if sug != [] && !StartsWith(sug, "\n") {
          sug := "\n  " + PyLstrip(sug);
        }
        assert sug == IndentBackend(cleaned);
        FoundAt(fileText, responses, clean, verify, i);
        return sug, checked;
      }
      NoneVerifiesStep(fileText, seen, raw.text, clean, verify);
      seen := seen + [raw.text];
    }
    assert responses[..|responses|] == responses;
    NothingFound(fileText, seen, clean, verify);
    r := "";
  }

  lemma NoneVerifiesStep(fileText: string, answers: seq<string>, raw: string, clean: string -> string,
                         verify: string -> (bool, string))
    requires NoneVerifies(fileText, answers, clean, verify)
    requires !Verifies(fileText, raw, clean, verify)
    ensures NoneVerifies(fileText, answers + [raw], clean, verify)
  {
    forall k | 0 <= k < |answers| + 1 ensures !Verifies(fileText, (answers + [raw])[k], clean, verify) {
      if k < |answers| {
        assert (answers + [raw])[k] == answers[k];
      }
    }
  }

  lemma CompletionsStep(fileText: string, answers: seq<string>, raw: string, clean: string -> string)
    ensures Completions(fileText, answers + [raw], clean) == Completions(fileText, answers, clean) + [fileText + clean(raw)]
  {
    assert (answers + [raw])[..|answers|] == answers;
  }

  /** No answer in the list verifies. */
  predicate NoneVerifies(fileText: string, answers: seq<string>, clean: string -> string,
                         verify: string -> (bool, string)) {
    forall k :: 0 <= k < |answers| ==> !Verifies(fileText, answers[k], clean, verify)
  }

  /** When the answer at response `i` is the first to verify, it is the first verified answer overall. */
  lemma FoundAt(fileText: string, responses: seq<ModelResponse>, clean: string -> string,
                verify: string -> (bool, string), i: nat)
    requires i < |responses| && responses[i].Answered?
    requires NoneVerifies(fileText, Answers(responses[..i]), clean, verify)
    requires Verifies(fileText, responses[i].text, clean, verify)
    ensures var answers := Answers(responses);
      var seen := Answers(responses[..i + 1]);
      var j := FirstVerified(fileText, answers, clean, verify);
      && j == |seen| - 1 && j < |answers| && answers[..j + 1] == seen
      && answers[j] == responses[i].text
  {
    var answers := Answers(responses);
    AnswersStep(responses, i);
    var seen := Answers(responses[..i + 1]);
    AnswersPrefix(responses, i + 1);
    var n := |seen| - 1;
    assert seen[n] == responses[i].text;
    assert answers[n] == seen[n];
    forall k | 0 <= k < n ensures !Verifies(fileText, answers[k], clean, verify) {
      assert answers[k] == seen[k] == Answers(responses[..i])[k];
    }
  }

  /** When no answer verifies, the search runs off the end. */
  lemma NothingFound(fileText: string, answers: seq<string>, clean: string -> string,
                     verify: string -> (bool, string))
    requires NoneVerifies(fileText, answers, clean, verify)
    ensures FirstVerified(fileText, answers, clean, verify) == |answers|
  {
  }

  /** An exception is never handed to Lean: every checked file completes the file with an answer. */
  lemma ExceptionsNeverVerified(fileText: string, responses: seq<ModelResponse>, clean: string -> string,
                                verify: string -> (bool, string), checked: seq<string>)
    requires var answers := Answers(responses);
      var j := FirstVerified(fileText, answers, clean, verify);
      checked == Completions(fileText, answers[..if j < |answers| then j + 1 else j], clean)
    ensures forall k :: 0 <= k < |checked| ==>
      exists a :: a in Answers(responses) && checked[k] == fileText + clean(a)
  {
    var answers := Answers(responses);
    forall k | 0 <= k < |checked| ensures exists a :: a in answers && checked[k] == fileText + clean(a) {
      assert answers[k] in answers;
    }
  }

  /** With no answer verifying, the search reports none and every answer is checked. */
  lemma NoAnswerVerifies(fileText: string, responses: seq<ModelResponse>, clean: string -> string,
                         verify: string -> (bool, string))
    requires forall a :: a in Answers(responses) ==> !Verifies(fileText, a, clean, verify)
    ensures FirstVerified(fileText, Answers(responses), clean, verify) == |Answers(responses)|
  {
    var answers := Answers(responses);
    forall k | 0 <= k < |answers| ensures !Verifies(fileText, answers[k], clean, verify) {
      assert answers[k] in answers;
    }
    NothingFound(fileText, answers, clean, verify);
  }
}
