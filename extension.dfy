/**
 * The extension's orchestration (frontend/lean4-copilot/src/extension.ts): the helpers that
 * place a suggestion in the document, the two inline-completion providers, the commands, and
 * the controller that owns the two module-level handles `errorPanel` and `diffDoc`.
 *
 * Every backend reply, the user's choice at the Apply prompt, the cancellation flag and
 * whether an editor is active are parameters. What the controller shows to the user (message
 * boxes, the diff view, the status bar) is recorded, in order, in `effects`.
 */
module Extension {
  import opened Wrappers
  import opened Text
  import opened BackendContract
  import opened Api
  import opened Cleaning
  import opened Panel

  /** JavaScript `s.slice(0, n)` for an offset `n >= 0`. */
  function JsPrefix(s: string, n: nat): string {
    if n <= |s| then s[..n] else s
  }

  /** JavaScript `s.slice(n)` for an offset `n >= 0`. */
  function JsSuffix(s: string, n: nat): string {
    if n <= |s| then s[n..] else []
  }

  /**
   * `extractTail`: the part of the candidate after the cursor, provided the candidate is
   * longer than the cursor offset and starts with the document's text before the cursor;
   * otherwise `""`.
   */
  function ExtractTail(original: string, candidate: string, cursorIdx: nat): (r: string)
    ensures r != [] <==> cursorIdx < |candidate| && StartsWith(candidate, JsPrefix(original, cursorIdx))
    ensures r != [] ==> r == candidate[cursorIdx..]
  {
    if |candidate| > cursorIdx && StartsWith(candidate, JsPrefix(original, cursorIdx)) then
      candidate[cursorIdx..]
    else
      ""
  }

  /**
   * A tail is only ever taken from a candidate that keeps the text before the cursor: the
   * candidate is that text followed by the tail.
   */
  lemma ExtractTailReassembles(original: string, candidate: string, cursorIdx: nat)
    requires cursorIdx <= |original|
    ensures var r := ExtractTail(original, candidate, cursorIdx);
      r != [] ==> candidate == original[..cursorIdx] + r
  {
    var r := ExtractTail(original, candidate, cursorIdx);
    if r != [] {
      assert candidate == candidate[..cursorIdx] + candidate[cursorIdx..];
    }
  }

  /** Appending a non-empty tail to the text before the cursor and extracting it gives the tail back. */
  lemma ExtractTailRoundTrip(original: string, tail: string, cursorIdx: nat)
    requires cursorIdx <= |original| && tail != []
    ensures ExtractTail(original, original[..cursorIdx] + tail, cursorIdx) == tail
  {
    var c := original[..cursorIdx] + tail;
    assert c[..cursorIdx] == original[..cursorIdx];
    assert c[cursorIdx..] == tail;
  }

  /** A candidate that changes anything before the cursor yields no tail. */
  lemma RewrittenPrefixYieldsNothing(original: string, candidate: string, cursorIdx: nat)
    requires cursorIdx <= |original| && cursorIdx <= |candidate|
    requires candidate[..cursorIdx] != original[..cursorIdx]
    ensures ExtractTail(original, candidate, cursorIdx) == ""
  {
  }

  /** Leading whitespace followed by a non-space (or nothing) is exactly what `trimStart` removes. */
  lemma {:induction false} TrimStartSkips(ws: string, t: string)
    requires IsJsBlank(ws)
    requires t == [] || !IsJsSpace(t[0])
    ensures TrimStart(ws + t) == t
    decreases |ws|
  {
    if ws == [] {
      assert ws + t == t;
    } else {
      assert (ws + t)[0] == ws[0];
      assert (ws + t)[1..] == ws[1..] + t;
      TrimStartSkips(ws[1..], t);
    }
  }

  /** A string is whitespace only exactly when `trimStart` leaves nothing. */
  lemma BlankIffTrimStartEmpty(s: string)
    ensures IsJsBlank(s) <==> TrimStart(s) == []
  {
    var r := TrimStart(s);
    if r == [] {
      assert s[..|s|] == s;
    } else {
      assert r[0] == s[|s| - |r|];
    }
  }

  /**
   * The indentation rule of the debounced provider: a suggestion that does not start with a
   * newline is moved to a new line indented by two spaces, its own leading whitespace
   * dropped. The visible text is unchanged: only leading whitespace differs.
   */
  function IndentInline(s: string): (r: string)
    ensures StartsWith(r, "\n")
    ensures StartsWith(s, "\n") ==> r == s
    ensures TrimStart(r) == TrimStart(s)
    ensures IsJsBlank(r) <==> IsJsBlank(s)
  {
    if StartsWith(s, "\n") then s
    else
      var t := TrimStart(s);
      assert IsJsBlank("\n  ") by {
        assert IsJsSpace("\n  "[0]) && IsJsSpace("\n  "[1]) && IsJsSpace("\n  "[2]);
      }
      IndentedLine(s, "\n  ", t);
      "\n  " + t
  }

  /** Whitespace starting with a newline, put in front of the trimmed suggestion `t`. */
  lemma IndentedLine(s: string, ws: string, t: string)
    requires IsJsBlank(ws) && ws != [] && ws[0] == '\n'
    requires t == TrimStart(s)
    ensures StartsWith(ws + t, "\n")
    ensures TrimStart(ws + t) == TrimStart(s)
    ensures IsJsBlank(ws + t) <==> IsJsBlank(s)
  {
    TrimStartSkips(ws, t);
    BlankIffTrimStartEmpty(s);
    BlankIffTrimStartEmpty(ws + t);
    assert (ws + t)[..1] == [ws[0]];
  }

  /** The file the debounced provider validates: the suggestion inserted at the cursor offset. */
  function Splice(doc: string, offset: nat, suggestion: string): string {
    JsPrefix(doc, offset) + suggestion + JsSuffix(doc, offset)
  }

  /**
   * For an offset inside the document, the spliced file is the document with the suggestion
   * inserted at that offset: cutting the suggestion out gives the document back.
   */
  lemma SpliceInserts(doc: string, offset: nat, suggestion: string)
    requires offset <= |doc|
    ensures var f := Splice(doc, offset, suggestion);
      && |f| == |doc| + |suggestion|
      && f[..offset] == doc[..offset]
      && f[offset..offset + |suggestion|] == suggestion
      && f[offset + |suggestion|..] == doc[offset..]
      && f[..offset] + f[offset + |suggestion|..] == doc
  {
    var f := Splice(doc, offset, suggestion);
    assert f == doc[..offset] + suggestion + doc[offset..];
    assert doc[..offset] + doc[offset..] == doc;
  }

  /**
   * `userHint && userHint.trim() ? userHint : undefined`: a hint is passed on, untrimmed,
   * only when it has a non-space character.
   */
  function NormalizeHint(hint: Option<string>): (r: Option<string>)
    ensures r == if hint.Some? && !IsJsBlank(hint.value) then hint else None
  {
    match hint
    case None => None
    case Some(h) =>
      TrimEmptyIff(h);
      if Trim(h) != [] then hint else None
  }

  /** The providers `activate` registers. */
  datatype Provider = LeanInline | Debounced

  /** A document selector entry: a language and, optionally, a URI scheme. */
  datatype Selector = Selector(language: string, scheme: Option<string>)

  /** The selectors each provider is registered with. */
  function ProviderSelectors(p: Provider): seq<Selector> {
    match p
    case LeanInline => [Selector("lean4", Some("file")), Selector("lean", Some("file"))]
    case Debounced => [Selector("lean4", None)]
  }

  predicate SelectorMatches(sel: Selector, language: string, scheme: string) {
    sel.language == language && (sel.scheme.None? || sel.scheme.value == scheme)
  }

  /** Whether VS Code asks provider `p` for items in a document of this language and scheme. */
  predicate Serves(p: Provider, language: string, scheme: string) {
    exists j :: 0 <= j < |ProviderSelectors(p)| && SelectorMatches(ProviderSelectors(p)[j], language, scheme)
  }

  /**
   * Both providers serve `lean4` files; only `LeanInlineProvider` serves Lean 3 files, and
   * only the debounced one serves `lean4` documents that are not files.
   */
  lemma ProviderCoverage()
    ensures Serves(LeanInline, "lean4", "file") && Serves(Debounced, "lean4", "file")
    ensures Serves(LeanInline, "lean", "file") && !Serves(Debounced, "lean", "file")
    ensures !Serves(LeanInline, "lean4", "untitled") && Serves(Debounced, "lean4", "untitled")
  {
    assert SelectorMatches(ProviderSelectors(LeanInline)[0], "lean4", "file");
    assert SelectorMatches(ProviderSelectors(Debounced)[0], "lean4", "file");
    assert SelectorMatches(ProviderSelectors(LeanInline)[1], "lean", "file");
    assert SelectorMatches(ProviderSelectors(Debounced)[0], "lean4", "untitled");
    assert "lean4" != "lean";
    assert "file" != "untitled";
  }

  /** No provider serves anything but Lean. */
  lemma ProvidersServeOnlyLean(p: Provider, language: string, scheme: string)
    requires Serves(p, language, scheme)
    ensures language == "lean4" || (p == LeanInline && language == "lean" && scheme == "file")
  {
  }

  /** Something the extension makes VS Code show or do. */
  datatype HostEffect =
    | ShowInfo(text: string)
    | ShowError(text: string)
    | ShowWarning(text: string)
    | StatusBar(text: string, hideAfterMs: nat)
    | OpenDiffBuffer(content: string)
    | ReplaceDiffBuffer(content: string)
    | ShowDiff(title: string)
    | AskToApply(prompt: string, options: seq<string>)
    | CloseActiveEditor
    | ExecuteCommand(command: string)

  const NoActiveEditor: string := "No active editor"
  const CompletionFailedPrefix: string := "Completion failed: "
  const RetryFailedPrefix: string := "Retry failed: "
  const NothingToApply: string := "Nothing to apply \U{2013} proof already OK"
  const DiffTitle: string := "Lean Proof \U{2013} Proposed Fix"
  const ApplyPrompt: string := "Apply the verified proof?"
  const ApplyLabel: string := "Apply \U{2714}\U{FE0E}"
  const DiscardLabel: string := "Discard \U{2716}\U{FE0E}"
  const AppliedStatus: string := "\U{2705} Proof applied"
  const AppliedStatusMs: nat := 2500
  const EnableInlineHint: string := "Enable Settings \U{203A} Editor \U{203A} Inline Suggest to see ghost completions."
  const InlineTriggerCommand: string := "editor.action.inlineSuggest.trigger"

  /**
   * The `lean4Copilot.inlineSuggest` command: with `editor.inlineSuggest.enabled` unset or
   * false it only shows a tip; otherwise it triggers inline suggestions.
   */
  function InlineSuggestCommand(setting: Option<bool>): (e: HostEffect)
    ensures e.ExecuteCommand? <==> setting == Some(true)
    ensures e.ExecuteCommand? ==> e.command == InlineTriggerCommand
    ensures !e.ExecuteCommand? ==> e == ShowWarning(EnableInlineHint)
  {
    if setting.GetOr(false) then ExecuteCommand(InlineTriggerCommand) else ShowWarning(EnableInlineHint)
  }

  /** A cursor position, zero-based as VS Code reports it. */
  datatype Position = Position(line: nat, character: nat)

  /** An inline completion item: its text and, when given, the (empty) range it replaces. */
  datatype InlineItem = InlineItem(text: string, range: Option<Position>)

  /** What `LeanInlineProvider` returns, and the failed response it hands to `handle`, if any. */
  datatype InlineOutcome = InlineOutcome(items: seq<InlineItem>, handed: Option<CompletionResponse>)

  /**
   * The decisions of `LeanInlineProvider.provideInlineCompletionItems` once `completeProof`
   * has answered: a thrown error or a cancellation gives nothing; a verified answer gives
   * its tail after the cursor when that tail is not blank; a failed answer gives nothing
   * and goes to `handle` when an editor is active.
   */
  function LeanInlineDecision(docText: string, offset: nat, reply: Reply<CompletionResponse>,
                              cancelled: bool, hasEditor: bool): (o: InlineOutcome)
    ensures !reply.Ok() || cancelled ==> o == InlineOutcome([], None)
    ensures o.items != [] <==>
      reply.Ok() && !cancelled && reply.body.ok && !IsJsBlank(ExtractTail(docText, reply.body.code, offset))
    ensures o.items != [] ==> o.items == [InlineItem(ExtractTail(docText, reply.body.code, offset), None)]
    ensures o.handed.Some? <==> reply.Ok() && !cancelled && !reply.body.ok && hasEditor
    ensures o.handed.Some? ==> o.handed.value == reply.body && o.items == []
  {
    match PostJson(reply)
    case Failure(_) => InlineOutcome([], None)
    case Success(res) =>
      if cancelled then InlineOutcome([], None)
      else if res.ok then
        var tail := ExtractTail(docText, res.code, offset);
        TrimEmptyIff(tail);
        if Trim(tail) != [] then InlineOutcome([InlineItem(tail, None)], None) else InlineOutcome([], None)
      else if hasEditor then InlineOutcome([], Some(res))
      else InlineOutcome([], None)
  }

  /** The debounced provider's suggestion from the chunks of a streamed reply: cleaned, then indented. */
  function Suggested(chunks: seq<string>): (r: string)
    ensures StartsWith(r, "\n")
    ensures TrimStart(r) == TrimStart(CleanSuggestion(ReplaceFirst(Received(chunks), EndSentinel, "")))
  {
    IndentInline(CleanSuggestion(ReplaceFirst(Received(chunks), EndSentinel, "")))
  }

  /**
   * The debounced `provider`: streams a completion (one-based line and column, 128 tokens),
   * cleans and indents it, drops it if blank, validates the document with the suggestion
   * spliced in at the cursor, and offers it only if that validation says ok. A thrown
   * error is not caught, so the provider's promise rejects.
   */
  method ProvideDebounced(docText: string, offset: nat, position: Position,
                          stream: StreamReply, validation: Reply<ValidationResponse>)
    returns (r: Result<seq<InlineItem>>, streamRequest: Request, validateRequest: Option<Request>)
    ensures streamRequest == StreamCompletionRequest(docText, position.line + 1, position.character + 1, Some(DefaultStreamTokens))
    ensures r.Success? ==> |r.value| <= 1
    ensures r.Success? && r.value != [] ==>
      && StartsWith(r.value[0].text, "\n")
      && r.value[0].range == Some(position)
      && validateRequest == Some(ValidateRequest(Splice(docText, offset, r.value[0].text)))
      && validation.Ok() && validation.body.ok
    ensures !(stream.Ok() && stream.chunks.Some?) ==> r.Failure? && validateRequest.None?
    ensures stream.Ok() && stream.chunks.Some? ==>
      var s := Suggested(stream.chunks.value);
      && (validateRequest.Some? <==> !IsJsBlank(s))
      && (IsJsBlank(s) ==> r == Success([]))
      && (!IsJsBlank(s) ==>
            && validateRequest == Some(ValidateRequest(Splice(docText, offset, s)))
            && (r.Failure? <==> !validation.Ok())
            && (validation.Ok() ==> r == Success(if validation.body.ok then [InlineItem(s, Some(position))] else [])))
  {
    streamRequest := StreamCompletionRequest(docText, position.line + 1, position.character + 1, Some(DefaultStreamTokens));
    validateRequest := None;
    var raw := CallLlmCompletion(stream);
    if raw.Failure? {
      return Failure(raw.error), streamRequest, validateRequest;
    }
    var suggestion := CleanSuggestion(raw.value);
    var cleaned := suggestion;
    if !StartsWith(suggestion, "\n") {
      suggestion := "\n  " + TrimStart(suggestion);
    }
    assert suggestion == IndentInline(cleaned);
    assert suggestion == Suggested(stream.chunks.value);
    TrimEmptyIff(suggestion);
    if Trim(suggestion) == [] {
      return Success([]), streamRequest, validateRequest;
    }
    validateRequest := Some(ValidateRequest(Splice(docText, offset, suggestion)));
    var okResp := ValidateWithLean(validation);
    if okResp.Failure? {
      return Failure(okResp.error), streamRequest, validateRequest;
    }
    if !okResp.value.ok {
      return Success([]), streamRequest, validateRequest;
    }
    r := Success([InlineItem(suggestion, Some(position))]);
  }

  /** What the retry closure of a `handle` call captured: the failed response's code and log. */
  datatype RetryContext = RetryContext(code: string, log: string)

  /** The effects of a diff session that reaches the Apply prompt. */
  function DiffSession(fixed: string, hadBuffer: bool, choice: Option<string>): seq<HostEffect> {
    [if hadBuffer then ReplaceDiffBuffer(fixed) else OpenDiffBuffer(fixed),
     ShowDiff(DiffTitle),
     AskToApply(ApplyPrompt, [ApplyLabel, DiscardLabel])]
    + (if choice == Some(ApplyLabel) then [StatusBar(AppliedStatus, AppliedStatusMs)] else [])
    + [CloseActiveEditor]
  }

  /**
   * The extension's module-level state for one editor: the document, the `errorPanel` and
   * `diffDoc` handles, and what has been shown. `panels` holds every panel ever created,
   * so that "at most one live panel" can be stated.
   */
  class Controller {
    /** The text of the editor's document. */
    var document: string
    /** The `errorPanel` handle. */
    var errorPanel: ErrorPanel?<RetryContext>
    /** The `diffDoc` handle: the proposed file shown in the diff view, when open. */
    var diffDoc: Option<string>
    /** What has been shown to the user, oldest first. */
    var effects: seq<HostEffect>
    /** The id the next panel gets. */
    var nextPanelId: nat
    ghost var panels: set<ErrorPanel<RetryContext>>

    /** Every panel ever created shows its escaped log and has an id already handed out. */
    ghost predicate PanelsWellFormed()
      reads this, panels
    {
      forall p :: p in panels ==> p.Valid() && p.id < nextPanelId
    }

    /**
     * The singleton rule: the handle, when set, is a live panel whose dispose listener is
     * registered, and every other panel has been disposed.
     */
    ghost predicate Valid()
      reads this, panels
    {
      && PanelsWellFormed()
      && (errorPanel != null ==> errorPanel in panels && !errorPanel.disposed && errorPanel.hasDisposeListener)
      && (forall p :: p in panels && p != errorPanel ==> p.disposed)
    }

    /** At most one panel is live. */
    lemma AtMostOneLivePanel(p: ErrorPanel<RetryContext>, q: ErrorPanel<RetryContext>)
      requires Valid()
      requires p in panels && q in panels && !p.disposed && !q.disposed
      ensures p == q && p == errorPanel
    {
    }

    /** The state after activation: no panel, no diff buffer, nothing shown. */
    constructor (document: string)
      ensures Valid()
      ensures this.document == document && errorPanel == null && diffDoc == None && effects == []
      ensures panels == {} && nextPanelId == 0
    {
      this.document := document;
      errorPanel := null;
      diffDoc := None;
      effects := [];
      nextPanelId := 0;
      panels := {};
    }

    /** What `showDiffAndApply(fixed, editor)` leaves when the user answers the prompt with `choice`. */
    twostate predicate DiffApplied(fixed: string, choice: Option<string>)
      reads this
    {
      if fixed == old(document) then
        && document == old(document) && diffDoc == old(diffDoc)
        && effects == old(effects) + [ShowInfo(NothingToApply)]
      else
        && diffDoc == None
        && document == (if choice == Some(ApplyLabel) then fixed else old(document))
        && effects == old(effects) + DiffSession(fixed, old(diffDoc).Some?, choice)
    }

    /**
     * `showDiffAndApply`: nothing but a notice when the proposal equals the document;
     * otherwise the proposal is shown in the diff buffer (opened, or refreshed if one is
     * open), the user is asked, Apply replaces the whole document, and in every case the
     * diff tab is closed and the handle reset.
     */
    method ShowDiffAndApply(fixed: string, choice: Option<string>)
      requires Valid()
      modifies this`document, this`diffDoc, this`effects
      ensures Valid()
      ensures DiffApplied(fixed, choice)
    {
      if fixed == document {
        effects := effects + [ShowInfo(NothingToApply)];
        return;
      }
      var hadBuffer := diffDoc.Some?;
      var shown: seq<HostEffect>;
      if diffDoc.None? {
        diffDoc := Some(fixed);
        shown := [OpenDiffBuffer(fixed)];
      } else {
        diffDoc := Some(fixed);
        shown := [ReplaceDiffBuffer(fixed)];
      }
      shown := shown + [ShowDiff(DiffTitle), AskToApply(ApplyPrompt, [ApplyLabel, DiscardLabel])];
      if choice == Some(ApplyLabel) {
        document := fixed;
        shown := shown + [StatusBar(AppliedStatus, AppliedStatusMs)];
      }
      shown := shown + [CloseActiveEditor];
      assert shown == DiffSession(fixed, hadBuffer, choice);
      effects := effects + shown;
      diffDoc := None;
    }

    /** The dispose listener registered at creation: it clears the handle. */
    method PanelDisposed()
      requires PanelsWellFormed()
      requires forall p :: p in panels ==> p.disposed
      modifies this`errorPanel
      ensures Valid() && errorPanel == null
    {
      errorPanel := null;
    }

    /** `closeErrorPanel`: disposes the panel if there is one; its listener then clears the handle. */
    method CloseErrorPanel()
      requires Valid()
      modifies this`errorPanel, errorPanel
      ensures Valid() && errorPanel == null
      ensures old(errorPanel) != null ==> old(errorPanel).disposed
      ensures old(errorPanel) != null ==>
        && old(errorPanel).log == old(errorPanel.log) && old(errorPanel).html == old(errorPanel.html)
        && old(errorPanel).revealCount == old(errorPanel.revealCount)
    {
      if errorPanel != null {
        var fired := errorPanel.Dispose();
        assert fired;
        PanelDisposed();
      }
    }

    /** The state `handle(res, editor)` leaves, for the user's answer `choice` should a diff be shown. */
    twostate predicate Handled(res: CompletionResponse, choice: Option<string>)
      reads this, panels
    {
      if res.ok then
        && DiffApplied(res.code, choice)
        && errorPanel == null && panels == old(panels) && nextPanelId == old(nextPanelId)
        && (old(errorPanel) != null ==>
              && old(errorPanel) in panels && old(errorPanel).disposed
              && old(errorPanel).log == old(errorPanel.log) && old(errorPanel).html == old(errorPanel.html)
              && old(errorPanel).revealCount == old(errorPanel.revealCount))
      else
        && document == old(document) && diffDoc == old(diffDoc) && effects == old(effects)
        && errorPanel != null && errorPanel in panels && errorPanel.log == res.log
        && if old(errorPanel) == null then
             && errorPanel !in old(panels) && panels == old(panels) + {errorPanel}
             && errorPanel.id == old(nextPanelId) && nextPanelId == old(nextPanelId) + 1
             && errorPanel.onRetry == RetryContext(res.code, res.log) && errorPanel.revealCount == 0
           else
             && errorPanel == old(errorPanel) && panels == old(panels) && nextPanelId == old(nextPanelId)
             && errorPanel.revealCount == old(errorPanel.revealCount) + 1
    }

    /**
     * `handle`: a verified response goes to the diff view and then closes any panel; a
     * failed one creates the panel, wired to retry this response's code and log, when there
     * is none, and otherwise only updates and reveals the open panel.
     */
    method Handle(res: CompletionResponse, choice: Option<string>)
      requires Valid()
      modifies this, errorPanel
      ensures Valid()
      ensures Handled(res, choice)
      ensures old(errorPanel) == null && errorPanel != null ==> fresh(errorPanel)
    {
      if res.ok {
        ShowDiffAndApply(res.code, choice);
        CloseErrorPanel();
        return;
      }
      if errorPanel == null {
        var p := new ErrorPanel(nextPanelId, res.log, RetryContext(res.code, res.log));
        p.OnDidDispose();
        errorPanel := p;
        panels := panels + {p};
        nextPanelId := nextPanelId + 1;
      } else {
        errorPanel.Update(res.log);
        errorPanel.Reveal();
      }
    }

    /**
     * `retryWithHint` of the `handle` call that captured `ctx`: sends that call's code and
     * log with the normalised hint, hands the answer to `handle`, and reports a thrown error.
     */
    method RetryWithHint(ctx: RetryContext, userHint: Option<string>, reply: Reply<CompletionResponse>,
                         choice: Option<string>) returns (sent: Request)
      requires Valid()
      modifies this, errorPanel
      ensures Valid()
      ensures sent == RetryProofRequest(ctx.code, ctx.log, NormalizeHint(userHint))
      ensures reply.Ok() ==> Handled(reply.body, choice)
      ensures !reply.Ok() ==>
        && document == old(document) && diffDoc == old(diffDoc) && errorPanel == old(errorPanel)
        && panels == old(panels) && nextPanelId == old(nextPanelId)
        && effects == old(effects) + [ShowError(RetryFailedPrefix + PostJson(reply).error)]
        && (old(errorPanel) != null ==> unchanged(old(errorPanel)))
    {
      sent := RetryProofRequest(ctx.code, ctx.log, NormalizeHint(userHint));
      var newRes := PostJson(reply);
      if newRes.Failure? {
        effects := effects + [ShowError(RetryFailedPrefix + newRes.error)];
        return;
      }
      Handle(newRes.value, choice);
    }

    /**
     * A message from the open panel's webview. Retry runs the retry closure the panel was
     * created with; Close disposes the panel, whose listener clears the handle; anything
     * else changes nothing.
     */
    method PanelMessage(msg: WebviewMessage, reply: Reply<CompletionResponse>, choice: Option<string>)
      returns (sent: Option<Request>)
      requires Valid() && errorPanel != null
      modifies this, errorPanel
      ensures Valid()
      ensures sent.Some? <==> msg.command == "retry"
      ensures msg.command == "retry" ==>
        && sent == Some(RetryProofRequest(old(errorPanel).onRetry.code, old(errorPanel).onRetry.log, NormalizeHint(msg.userHint)))
        && (reply.Ok() ==> Handled(reply.body, choice))
        && (!reply.Ok() ==>
              && document == old(document) && diffDoc == old(diffDoc) && errorPanel == old(errorPanel)
              && panels == old(panels) && nextPanelId == old(nextPanelId)
              && effects == old(effects) + [ShowError(RetryFailedPrefix + PostJson(reply).error)]
              && unchanged(old(errorPanel)))
      ensures msg.command == "close" ==>
        && errorPanel == null && old(errorPanel).disposed
        && document == old(document) && diffDoc == old(diffDoc) && effects == old(effects) && panels == old(panels)
        && nextPanelId == old(nextPanelId)
      ensures msg.command != "retry" && msg.command != "close" ==> unchanged(this) && unchanged(old(errorPanel))
    {
      var panel := errorPanel;
      var retry, fired := panel.Receive(msg);
      sent := None;
      if msg.command == "close" {
        PanelDisposed();
      } else if retry.Some? {
        var (ctx, payload) := retry.value;
        var req := RetryWithHint(ctx, payload.userHint, reply, choice);
        sent := Some(req);
      }
    }

    /** `runCompletion`: asks `/complete` at the cursor; a thrown error is shown and nothing else changes. */
    method RunCompletion(cursor: Position, reply: Reply<CompletionResponse>, choice: Option<string>)
      returns (sent: Request)
      requires Valid()
      modifies this, errorPanel
      ensures Valid()
      ensures sent == CompleteProofRequest(old(document), cursor.line, cursor.character, None)
      ensures reply.Ok() ==> Handled(reply.body, choice)
      ensures !reply.Ok() ==>
        && document == old(document) && diffDoc == old(diffDoc) && errorPanel == old(errorPanel)
        && panels == old(panels) && nextPanelId == old(nextPanelId)
        && effects == old(effects) + [ShowError(CompletionFailedPrefix + PostJson(reply).error)]
        && (old(errorPanel) != null ==> unchanged(old(errorPanel)))
    {
      sent := CompleteProofRequest(document, cursor.line, cursor.character, None);
      var res := PostJson(reply);
      if res.Failure? {
        effects := effects + [ShowError(CompletionFailedPrefix + res.error)];
        return;
      }
      Handle(res.value, choice);
    }

    /**
     * The `lean4Copilot.completeProof` command: without an active editor it only says so;
     * otherwise it runs `runCompletion` on that editor.
     */
    method CompleteProofCommand(hasEditor: bool, cursor: Position, reply: Reply<CompletionResponse>,
                                choice: Option<string>) returns (sent: Option<Request>)
      requires Valid()
      modifies this, errorPanel
      ensures Valid()
      ensures sent.Some? <==> hasEditor
      ensures !hasEditor ==>
        && document == old(document) && diffDoc == old(diffDoc) && errorPanel == old(errorPanel)
        && panels == old(panels) && nextPanelId == old(nextPanelId)
        && effects == old(effects) + [ShowError(NoActiveEditor)]
        && (old(errorPanel) != null ==> unchanged(old(errorPanel)))
      ensures hasEditor ==> sent == Some(CompleteProofRequest(old(document), cursor.line, cursor.character, None))
      ensures hasEditor && reply.Ok() ==> Handled(reply.body, choice)
      ensures hasEditor && !reply.Ok() ==>
        && document == old(document) && diffDoc == old(diffDoc) && errorPanel == old(errorPanel)
        && panels == old(panels) && nextPanelId == old(nextPanelId)
        && effects == old(effects) + [ShowError(CompletionFailedPrefix + PostJson(reply).error)]
        && (old(errorPanel) != null ==> unchanged(old(errorPanel)))
    {
      if !hasEditor {
        effects := effects + [ShowError(NoActiveEditor)];
        return None;
      }
      var req := RunCompletion(cursor, reply, choice);
      sent := Some(req);
    }

    /**
     * `LeanInlineProvider.provideInlineCompletionItems`: asks `/complete` at the cursor
     * (zero-based, default budget) and acts on the decision; a failed response goes to
     * `handle`, which can only create or update the panel.
     */
    method ProvideInline(offset: nat, cursor: Position, reply: Reply<CompletionResponse>,
                         cancelled: bool, hasEditor: bool) returns (items: seq<InlineItem>, sent: Request)
      requires Valid()
      modifies this, errorPanel
      ensures Valid()
      ensures sent == CompleteProofRequest(old(document), cursor.line, cursor.character, None)
      ensures var o := LeanInlineDecision(old(document), offset, reply, cancelled, hasEditor);
        && items == o.items
        && (o.handed.Some? ==> Handled(o.handed.value, None))
        && (o.handed.None? ==> unchanged(this) && (old(errorPanel) != null ==> unchanged(old(errorPanel))))
    {
      sent := CompleteProofRequest(document, cursor.line, cursor.character, None);
      var o := LeanInlineDecision(document, offset, reply, cancelled, hasEditor);
      items := o.items;
      if o.handed.Some? {
        Handle(o.handed.value, None);
      }
    }

    /**
     * Two failures in a row, then Retry: the panel shows the second log, but the retry sends
     * the code and log of the first failure, whose `handle` call created the panel.
     */
    method RetryAfterSecondFailure(first: CompletionResponse, second: CompletionResponse,
                                   msg: WebviewMessage, reply: Reply<CompletionResponse>)
      returns (shownLog: string, sent: Option<Request>)
      requires Valid() && errorPanel == null
      requires !first.ok && !second.ok && msg.command == "retry"
      modifies this
      ensures shownLog == second.log
      ensures sent == Some(RetryProofRequest(first.code, first.log, NormalizeHint(msg.userHint)))
    {
      Handle(first, None);
      Handle(second, None);
      shownLog := errorPanel.log;
      sent := PanelMessage(msg, reply, None);
    }

    /** A success between two failures disposes the first panel; the second failure gets a new one. */
    method SuccessResetsPanel(first: CompletionResponse, fixed: CompletionResponse,
                              second: CompletionResponse, choice: Option<string>)
      returns (firstPanel: ErrorPanel<RetryContext>)
      requires Valid() && errorPanel == null
      requires !first.ok && fixed.ok && !second.ok
      modifies this
      ensures firstPanel.disposed && firstPanel.onRetry == RetryContext(first.code, first.log)
      ensures errorPanel != null && errorPanel != firstPanel && !errorPanel.disposed
      ensures errorPanel.onRetry == RetryContext(second.code, second.log) && errorPanel.log == second.log
    {
      Handle(first, None);
      firstPanel := errorPanel;
      Handle(fixed, choice);
      Handle(second, None);
    }
  }
}
