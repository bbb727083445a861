/**
 * The error panel (frontend/lean4-copilot/src/ui/ErrorPanel.ts): a webview that shows the
 * failing log, escaped for HTML, with a hint box and Retry / Close buttons.
 *
 * The class is generic in `C`, the retry callback given at creation: the panel never
 * interprets it, it only hands it back, with the payload, when Retry is pressed.
 */
module Panel {
  import opened Wrappers
  import opened Text

  /** `esc`: `&`, then `<`, then `>` replaced by their HTML entities, each globally. */
  function Esc(s: string): string {
    ReplaceAll(ReplaceAll(ReplaceAll(s, "&", "&amp;"), "<", "&lt;"), ">", "&gt;")
  }

  /** The HTML decoding the round trip is stated against: `&lt;`, then `&gt;`, then `&amp;`. */
  function Unescape(s: string): string {
    ReplaceAll(ReplaceAll(ReplaceAll(s, "&lt;", "<"), "&gt;", ">"), "&amp;", "&")
  }

  /** What `esc` turns one character into. */
  function EscUnit(c: char): string {
    if c == '&' then "&amp;" else if c == '<' then "&lt;" else if c == '>' then "&gt;" else [c]
  }

  lemma ReplaceCharUnit(c: char, d: char, rep: string)
    ensures ReplaceAll([c], [d], rep) == if c == d then rep else [c]
  {
    if c == d {
      ReplaceAllHit([], [d], rep);
      assert [d] + [] == [d];
    } else {
      ReplaceAllPassThrough([c], [], [d], rep);
      assert [c] + [] == [c];
    }
  }

  lemma ReplaceCharPassThrough(x: string, d: char, rep: string)
    requires forall i :: 0 <= i < |x| ==> x[i] != d
    ensures ReplaceAll(x, [d], rep) == x
  {
    ReplaceAllPassThrough(x, [], [d], rep);
    assert x + [] == x;
  }

  /** `esc` works character by character. */
  lemma EscCons(c: char, t: string)
    ensures Esc([c] + t) == EscUnit(c) + Esc(t)
  {
    var a1 := ReplaceAll([c], "&", "&amp;");
    ReplaceAllCharAppend([c], t, '&', "&amp;");
    ReplaceCharUnit(c, '&', "&amp;");
    var t1 := ReplaceAll(t, "&", "&amp;");
    ReplaceAllCharAppend(a1, t1, '<', "&lt;");
    var a2 := ReplaceAll(a1, "<", "&lt;");
    if c == '&' {
      ReplaceCharPassThrough("&amp;", '<', "&lt;");
    } else {
      ReplaceCharUnit(c, '<', "&lt;");
    }
    var t2 := ReplaceAll(t1, "<", "&lt;");
    ReplaceAllCharAppend(a2, t2, '>', "&gt;");
    if c == '&' {
      ReplaceCharPassThrough("&amp;", '>', "&gt;");
    } else if c == '<' {
      ReplaceCharPassThrough("&lt;", '>', "&gt;");
    } else {
      ReplaceCharUnit(c, '>', "&gt;");
    }
  }

  /** The first decoding pass on one escaped character. */
  function AfterLt(c: char): string {
    if c == '<' then "<" else EscUnit(c)
  }

  /** The second decoding pass on one escaped character. */
  function AfterGt(c: char): string {
    if c == '&' then "&amp;" else [c]
  }

  lemma DecodeLtUnit(c: char, r: string)
    ensures ReplaceAll(EscUnit(c) + r, "&lt;", "<") == AfterLt(c) + ReplaceAll(r, "&lt;", "<")
  {
    if c == '<' {
      ReplaceAllHit(r, "&lt;", "<");
    } else if c == '&' {
      assert "&amp;"[..4][1] != "&lt;"[1];
      ReplaceAllMiss("&amp;", r, "&lt;", "<");
    } else if c == '>' {
      assert "&gt;"[..4][1] != "&lt;"[1];
      ReplaceAllMiss("&gt;", r, "&lt;", "<");
    } else {
      ReplaceAllPassThrough([c], r, "&lt;", "<");
    }
  }

  lemma DecodeGtUnit(c: char, r: string)
    ensures ReplaceAll(AfterLt(c) + r, "&gt;", ">") == AfterGt(c) + ReplaceAll(r, "&gt;", ">")
  {
    if c == '>' {
      ReplaceAllHit(r, "&gt;", ">");
    } else if c == '&' {
      assert "&amp;"[..4][1] != "&gt;"[1];
      ReplaceAllMiss("&amp;", r, "&gt;", ">");
    } else {
      ReplaceAllPassThrough([c], r, "&gt;", ">");
    }
  }

  lemma DecodeAmpUnit(c: char, r: string)
    ensures ReplaceAll(AfterGt(c) + r, "&amp;", "&") == [c] + ReplaceAll(r, "&amp;", "&")
  {
    if c == '&' {
      ReplaceAllHit(r, "&amp;", "&");
    } else {
      ReplaceAllPassThrough([c], r, "&amp;", "&");
    }
  }

  /** Because `&` is escaped first, decoding `&lt;`, `&gt;` and then `&amp;` gives the log back. */
  lemma {:induction false} EscRoundTrip(s: string)
    ensures Unescape(Esc(s)) == s
    decreases |s|
  {
    if s != [] {
      var c, t := s[0], s[1..];
      assert s == [c] + t;
      EscCons(c, t);
      var e := Esc(t);
      DecodeLtUnit(c, e);
      var d1 := ReplaceAll(e, "&lt;", "<");
      DecodeGtUnit(c, d1);
      var d2 := ReplaceAll(d1, "&gt;", ">");
      DecodeAmpUnit(c, d2);
      EscRoundTrip(t);
    }
  }

  /** The escaped log has no `<` and no `>`, so it cannot open or close a tag. */
  lemma {:induction false} EscHasNoAngles(s: string)
    ensures forall i :: 0 <= i < |Esc(s)| ==> Esc(s)[i] != '<' && Esc(s)[i] != '>'
    decreases |s|
  {
    if s != [] {
      assert s == [s[0]] + s[1..];
      EscCons(s[0], s[1..]);
      EscHasNoAngles(s[1..]);
      var u, rest := EscUnit(s[0]), Esc(s[1..]);
      forall i | 0 <= i < |u + rest| ensures (u + rest)[i] != '<' && (u + rest)[i] != '>' {
        if i >= |u| {
          assert (u + rest)[i] == rest[i - |u|];
        }
      }
    }
  }

  /** A log with none of `&`, `<`, `>` is shown as it is. */
  lemma {:induction false} EscIdentity(s: string)
    requires forall i :: 0 <= i < |s| ==> s[i] != '&' && s[i] != '<' && s[i] != '>'
    ensures Esc(s) == s
    decreases |s|
  {
    if s != [] {
      assert s == [s[0]] + s[1..];
      EscCons(s[0], s[1..]);
      EscIdentity(s[1..]);
    }
  }

  /** Each `&` grows by four characters, each `<` and `>` by three. */
  lemma {:induction false} EscLength(s: string)
    ensures |Esc(s)| == |s| + 4 * multiset(s)['&'] + 3 * multiset(s)['<'] + 3 * multiset(s)['>']
    decreases |s|
  {
    if s != [] {
      assert s == [s[0]] + s[1..];
      assert multiset(s) == multiset([s[0]]) + multiset(s[1..]);
      EscCons(s[0], s[1..]);
      EscLength(s[1..]);
    }
  }

  /** What the panel passes to its retry callback. */
  datatype RetryPayload = RetryPayload(userHint: Option<string>)

  /** A message posted by the webview: a command and, for Retry, the hint. */
  datatype WebviewMessage = WebviewMessage(command: string, userHint: Option<string>)

  /** What the panel does with a message. */
  datatype PanelAction = CallRetry(payload: RetryPayload) | DisposeSelf | NoAction

  /**
   * The constructor's message handler: `retry` calls the callback once with the hint or
   * `null`, `close` disposes the panel, anything else is ignored.
   */
  function Dispatch(msg: WebviewMessage): (a: PanelAction)
    ensures a.CallRetry? <==> msg.command == "retry"
    ensures a.CallRetry? ==> a.payload.userHint == msg.userHint
    ensures a.DisposeSelf? <==> msg.command == "close"
    ensures a.NoAction? <==> msg.command != "retry" && msg.command != "close"
  {
    if msg.command == "retry" then CallRetry(RetryPayload(msg.userHint))
    else if msg.command == "close" then DisposeSelf
    else NoAction
  }

  /** The webview script's Retry button: it posts the hint box's text, trimmed. */
  function RetryClicked(hintBox: string): WebviewMessage {
    WebviewMessage("retry", Some(Trim(hintBox)))
  }

  /** The webview script's Close button. */
  function CloseClicked(): WebviewMessage {
    WebviewMessage("close", None)
  }

  /** Pressing Retry hands the callback the trimmed hint; a whitespace-only hint arrives as `""`. */
  lemma RetryButtonPayload(hintBox: string)
    ensures Dispatch(RetryClicked(hintBox)) == CallRetry(RetryPayload(Some(Trim(hintBox))))
    ensures IsJsBlank(hintBox) ==> Dispatch(RetryClicked(hintBox)) == CallRetry(RetryPayload(Some("")))
  {
    TrimEmptyIff(hintBox);
  }

  /** Pressing Close disposes the panel. */
  lemma CloseButtonDisposes()
    ensures Dispatch(CloseClicked()) == DisposeSelf
  {
  }

  /**
   * One webview panel. `onRetry` is read-only and fixed at creation; `update` replaces the
   * log and nothing else.
   */
  class ErrorPanel<C> {
    /** Which panel this is; the owner numbers the panels it creates. */
    const id: nat
    /** The retry callback given to `create`. */
    const onRetry: C
    /** The log on display. */
    var log: string
    /** The log as written into the page's HTML. */
    var html: string
    /** The webview panel has been disposed. */
    var disposed: bool
    /** An `onDidDispose` listener is registered. */
    var hasDisposeListener: bool
    /** How often the panel was brought to the foreground. */
    var revealCount: nat

    ghost predicate Valid()
      reads this
    {
      html == Esc(log)
    }

    /** `ErrorPanel.create`: a live panel showing `errorLog`, wired to `onRetry`. */
    constructor (id: nat, errorLog: string, onRetry: C)
      ensures Valid()
      ensures this.id == id && this.onRetry == onRetry && log == errorLog
      ensures !disposed && !hasDisposeListener && revealCount == 0
    {
      this.id := id;
      this.onRetry := onRetry;
      log := errorLog;
      html := Esc(errorLog);
      disposed := false;
      hasDisposeListener := false;
      revealCount := 0;
    }

    /** `update`: the new log is shown; the callback and the rest of the panel stay as they were. */
    method Update(errorLog: string)
      requires Valid() && !disposed
      modifies this`log, this`html
      ensures Valid() && log == errorLog
    {
      log := errorLog;
      html := Esc(errorLog);
    }

    /** `reveal`: brings the panel forward and changes no content. */
    method Reveal()
      requires Valid() && !disposed
      modifies this`revealCount
      ensures revealCount == old(revealCount) + 1
    {
      revealCount := revealCount + 1;
    }

    /**
     * `dispose`: the panel is disposed; `fired` says whether the dispose listeners run now,
     * which happens only for the first disposal of a panel that has one.
     */
    method Dispose() returns (fired: bool)
      modifies this`disposed
      ensures disposed
      ensures fired == (!old(disposed) && hasDisposeListener)
    {
      fired := !disposed && hasDisposeListener;
      disposed := true;
    }

    /** `onDidDispose`: a listener is registered. */
    method OnDidDispose()
      modifies this`hasDisposeListener
      ensures hasDisposeListener
    {
      hasDisposeListener := true;
    }

    /**
     * The message handler. Retry returns the callback and its payload for the owner to run;
     * Close disposes the panel; other commands do nothing.
     */
    method Receive(msg: WebviewMessage) returns (retry: Option<(C, RetryPayload)>, fired: bool)
      requires Valid() && !disposed
      modifies this`disposed
      ensures Valid()
      ensures retry.Some? <==> msg.command == "retry"
      ensures retry.Some? ==> retry.value == (onRetry, RetryPayload(msg.userHint))
      ensures disposed <==> msg.command == "close"
      ensures fired <==> msg.command == "close" && hasDisposeListener
    {
      retry, fired := None, false;
      match Dispatch(msg)
      case CallRetry(payload) =>
        retry := Some((onRetry, payload));
      case DisposeSelf =>
        fired := Dispose();
      case NoAction =>
    }
  }
}
