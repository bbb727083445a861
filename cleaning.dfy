/**
 * `cleanSuggestion` (frontend/lean4-copilot/src/CleanSuggestion.ts): two anchored regex
 * replacements on the model's raw output.
 *
 * `/^```.*?\n?/s` matches at the start only; the lazy `.*?` matches nothing, so the match
 * is three backticks and, if one follows immediately, a newline. A language tag after the
 * backticks is therefore kept.
 *
 * `/\n?```$/s` has no `m` flag, so `$` is the very end of the string: the match is a final
 * three backticks together with a newline right before them, if there is one. It is the
 * first match scanning from the left, and both candidates end at the end, so the one with
 * the newline is taken when present.
 */
module Cleaning {
  import opened Text

  const Fence: string := "```"

  /** The first replacement: drop a leading fence and a newline right after it. */
  function StripOpeningFence(raw: string): string {
    if StartsWith(raw, Fence) then
      var rest := raw[3..];
      if StartsWith(rest, "\n") then rest[1..] else rest
    else raw
  }

  /** The second replacement: drop a trailing fence and a newline right before it. */
  function StripClosingFence(s: string): string {
    if EndsWith(s, "\n" + Fence) then s[..|s| - 4]
    else if EndsWith(s, Fence) then s[..|s| - 3]
    else s
  }

  /** `cleanSuggestion`: both replacements in sequence. */
  function CleanSuggestion(raw: string): (r: string)
    ensures |r| <= |raw|
    ensures !StartsWith(raw, Fence) && !EndsWith(raw, Fence) ==> r == raw
  {
    StripClosingFence(StripOpeningFence(raw))
  }

  /** What the first replacement may remove from the front. */
  const OpeningCuts: set<string> := {"", "```", "```\n"}
  /** What the second replacement may remove from the back. */
  const ClosingCuts: set<string> := {"", "```", "\n```"}

  /**
   * Cleaning only cuts: the input is a removed prefix `p`, the result and a removed suffix
   * `q`, where `p` is nothing, a fence or a fence and a newline, and `q` is nothing, a fence
   * or a newline and a fence.
   */
  lemma CleanOnlyCutsFences(raw: string) returns (p: string, q: string)
    ensures p in OpeningCuts && q in ClosingCuts
    ensures raw == p + CleanSuggestion(raw) + q
  {
    var mid := StripOpeningFence(raw);
    p := OpeningCut(raw);
    q := ClosingCut(mid);
    Regroup(raw, p, mid, StripClosingFence(mid), q);
  }

  /** Cutting a prefix and then a suffix leaves the middle of the original. */
  lemma Regroup(s: string, p: string, mid: string, out: string, q: string)
    requires s == p + mid && mid == out + q
    ensures s == p + out + q
  {
  }

  /** The prefix the first replacement removes, and that it is one of the opening cuts. */
  lemma OpeningCut(raw: string) returns (p: string)
    ensures p in OpeningCuts && raw == p + StripOpeningFence(raw)
  {
    var mid := StripOpeningFence(raw);
    p := raw[..|raw| - |mid|];
    if StartsWith(raw, Fence) {
      if StartsWith(raw[3..], "\n") {
        assert raw[..4] == raw[..3] + raw[3..][..1];
        assert p == "```\n";
      } else {
        assert p == "```";
      }
    } else {
      assert p == "";
    }
  }

  /** The suffix the second replacement removes, and that it is one of the closing cuts. */
  lemma ClosingCut(s: string) returns (q: string)
    ensures q in ClosingCuts && s == StripClosingFence(s) + q
  {
    var out := StripClosingFence(s);
    q := s[|out|..];
    if EndsWith(s, "\n" + Fence) {
      assert q == "\n```";
    } else if EndsWith(s, Fence) {
      assert q == "```";
    } else {
      assert q == "";
    }
  }

  /**
   * An opening fence loses only its three backticks and one newline right after them:
   * whatever follows, a language tag included, is kept when it does not end in a fence.
   */
  lemma LanguageTagSurvives(rest: string)
    requires !StartsWith(rest, "\n") && !EndsWith(rest, Fence)
    ensures CleanSuggestion(Fence + rest) == rest
  {
    var raw := Fence + rest;
    assert raw[..3] == Fence;
    assert raw[3..] == rest;
  }

  /** The example from the code's comment: "```lean\nx" becomes "lean\nx". */
  lemma LeanTagExample()
    ensures CleanSuggestion("```lean\nx") == "lean\nx"
  {
    var rest := "lean\nx";
    assert rest[..1][0] == 'l';
    assert rest[|rest| - 3..][2] == 'x';
    LanguageTagSurvives(rest);
  }

  /**
   * `$` is the end of the whole string: a fence followed by more text that does not end
   * in a backtick (even a lone newline) is not a closing fence and stays.
   */
  lemma FenceBeforeTrailingTextKept(body: string, tail: string)
    requires !StartsWith(body + Fence + tail, Fence)
    requires tail != [] && tail[|tail| - 1] != '`'
    ensures CleanSuggestion(body + Fence + tail) == body + Fence + tail
  {
    var s := body + Fence + tail;
    assert s[|s| - 1] == tail[|tail| - 1];
    assert !EndsWith(s, Fence) by {
      if |s| >= 3 {
        assert s[|s| - 3..][2] == s[|s| - 1];
      }
    }
  }

  /** Example: "x```\n" is returned unchanged. */
  lemma TrailingNewlineKeepsFence()
    ensures CleanSuggestion("x```\n") == "x```\n"
  {
    assert "x```\n" == "x" + Fence + "\n";
    assert "x```\n"[..3][0] == 'x';
    FenceBeforeTrailingTextKept("x", "\n");
  }

  /** A fenced block "```\nfoo\n```" becomes "foo". */
  lemma FencedBlockExample()
    ensures CleanSuggestion("```\nfoo\n```") == "foo"
  {
    var raw := "```\nfoo\n```";
    assert raw[..3] == Fence;
    assert raw[3..] == "\nfoo\n```";
    assert "\nfoo\n```"[1..] == "foo\n```";
    assert "foo\n```"[3..] == "\n```";
  }

  /**
   * Cleaning is not idempotent: "```\n```x```" loses its leading fence and its trailing
   * fence in one pass, which exposes a second leading fence that a second pass removes.
   */
  lemma NotIdempotent()
    ensures CleanSuggestion("```\n```x```") == "```x"
    ensures CleanSuggestion(CleanSuggestion("```\n```x```")) == "x"
  {
    var raw := "```\n```x```";
    assert raw[..3] == Fence;
    assert raw[3..] == "\n```x```";
    assert "\n```x```"[1..] == "```x```";
    var mid := "```x```";
    assert mid[|mid| - 4..][0] == 'x';
    assert !EndsWith(mid, "\n" + Fence);
    assert mid[|mid| - 3..] == Fence;
    assert mid[..|mid| - 3] == "```x";
    var once := "```x";
    assert once[..3] == Fence;
    assert once[3..] == "x";
  }
}
