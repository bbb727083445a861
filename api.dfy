/**
 * The extension's backend client (frontend/lean4-copilot/src/api.ts): the request bodies
 * of `completeProof`, `retryProof`, `callLLMCompletion` and `validateWithLean`, how each
 * turns the HTTP reply into a value or a thrown error, and the chunk loop that reads a
 * streamed completion up to the `[[END]]` sentinel.
 *
 * `fetch` is not modelled: a request is a value, and the reply to it is given.
 */
module Api {
  import opened Wrappers
  import opened Text
  import opened BackendContract

  /** Default `maxTokens` of `completeProof`. */
  const DefaultCompleteTokens: int := 512
  /** Default `maxTokens` of `callLLMCompletion`. */
  const DefaultStreamTokens: int := 128

  /** A POST to the configured backend: the path and the JSON body. */
  datatype Request = Request(path: string, body: Payload)

  /**
   * What `fetch` yields for a JSON endpoint: a rejected promise (transport failure) or a
   * response with its status and its decoded JSON body.
   */
  datatype Reply<T> = TransportError(cause: string) | Http(status: nat, body: T) {
    /** `Response.ok`: the status is in 200-299. */
    predicate Ok() {
      Http? && 200 <= status <= 299
    }
  }

  /**
   * What `fetch` yields for the streamed `/complete`: a rejected promise, or a response
   * with its status and, when it has a body, the body's chunks as decoded text.
   */
  datatype StreamReply = StreamTransportError(cause: string) | StreamHttp(status: nat, chunks: Option<seq<string>>) {
    predicate Ok() {
      StreamHttp? && 200 <= status <= 299
    }
  }

  /** The body shared by the plain and the streamed `/complete`. */
  function CompletionPayload(fileText: string, line: int, col: int, maxTokens: int): Payload {
    [("file_text", JString(fileText)), ("cursor_line", JInt(line)), ("cursor_col", JInt(col)),
     ("max_tokens", JInt(maxTokens))]
  }

  /** The backend finds every field of the `/complete` body under its schema name. */
  lemma CompletionPayloadFields(fileText: string, line: int, col: int, maxTokens: int)
    ensures var p := CompletionPayload(fileText, line, col, maxTokens);
      && Lookup(p, "file_text") == Some(JString(fileText))
      && Lookup(p, "cursor_line") == Some(JInt(line))
      && Lookup(p, "cursor_col") == Some(JInt(col))
      && Lookup(p, "max_tokens") == Some(JInt(maxTokens))
      && ParseCompletionRequest(p) == Some(CompletionRequest(fileText, line, col))
  {
    var p := CompletionPayload(fileText, line, col, maxTokens);
    assert p[1..] == [("cursor_line", JInt(line)), ("cursor_col", JInt(col)), ("max_tokens", JInt(maxTokens))];
    assert p[1..][1..] == [("cursor_col", JInt(col)), ("max_tokens", JInt(maxTokens))];
    assert p[1..][1..][1..] == [("max_tokens", JInt(maxTokens))];
    assert "cursor_col"[0] != "max_tokens"[0];
    assert Lookup(p[1..][1..], "max_tokens") == Some(JInt(maxTokens));
    assert Lookup(p[1..], "max_tokens") == Some(JInt(maxTokens));
    assert Lookup(p[1..], "cursor_col") == Some(JInt(col));
  }

  /** The request `completeProof` sends; the backend reads back the file and cursor and ignores `max_tokens`. */
  function CompleteProofRequest(fileText: string, cursorLine: int, cursorCol: int, maxTokens: Option<int>): (q: Request)
    ensures q.path == "/complete"
    ensures ParseCompletionRequest(q.body) == Some(CompletionRequest(fileText, cursorLine, cursorCol))
    ensures Lookup(q.body, "max_tokens") == Some(JInt(if maxTokens.Some? then maxTokens.value else 512))
  {
    var budget := maxTokens.GetOr(DefaultCompleteTokens);
    CompletionPayloadFields(fileText, cursorLine, cursorCol, budget);
    Request("/complete", CompletionPayload(fileText, cursorLine, cursorCol, budget))
  }

  /** The request `callLLMCompletion` sends: the same body with a default budget of 128 tokens. */
  function StreamCompletionRequest(fileText: string, line: int, col: int, maxTokens: Option<int>): (q: Request)
    ensures q.path == "/complete"
    ensures ParseCompletionRequest(q.body) == Some(CompletionRequest(fileText, line, col))
    ensures Lookup(q.body, "max_tokens") == Some(JInt(if maxTokens.Some? then maxTokens.value else 128))
  {
    var budget := maxTokens.GetOr(DefaultStreamTokens);
    CompletionPayloadFields(fileText, line, col, budget);
    Request("/complete", CompletionPayload(fileText, line, col, budget))
  }

  /**
   * The request `retryProof` sends. An absent note is sent as `null` rather than dropped,
   * and the backend reads back exactly the three arguments.
   */
  function RetryProofRequest(fileText: string, errorLog: string, userNote: Option<string>): (q: Request)
    ensures q.path == "/retry"
    ensures Lookup(q.body, "user_note") == Some(if userNote.None? then JNull else JString(userNote.value))
    ensures ParseRetryRequest(q.body) == Some(RetryRequest(fileText, errorLog, userNote))
  {
    var note := if userNote.Some? then JString(userNote.value) else JNull;
    var p := [("file_text", JString(fileText)), ("error_log", JString(errorLog)), ("user_note", note)];
    assert p[1..] == [("error_log", JString(errorLog)), ("user_note", note)];
    assert p[1..][1..] == [("user_note", note)];
    assert Lookup(p[1..], "user_note") == Some(note);
    Request("/retry", p)
  }

  /** The request `validateWithLean` sends. */
  function ValidateRequest(fullFile: string): (q: Request)
    ensures q.path == "/validate"
    ensures Lookup(q.body, "file_text") == Some(JString(fullFile))
  {
    Request("/validate", [("file_text", JString(fullFile))])
  }

  const BackendErrorPrefix: string := "Backend error "

  /**
   * `postJSON`: the decoded body of a 2xx reply; otherwise it throws, with a message that
   * carries the status, or passes on the transport failure.
   */
  function PostJson<T>(reply: Reply<T>): (r: Result<T>)
    ensures r.Success? <==> reply.Ok()
    ensures r.Success? ==> r.value == reply.body
    ensures reply.TransportError? ==> r == Failure(reply.cause)
    ensures reply.Http? && !reply.Ok() ==>
      StartsWith(r.error, BackendErrorPrefix) && DecimalValue(r.error[|BackendErrorPrefix|..]) == reply.status
    ensures reply.Http? && !reply.Ok() ==> r == Failure(BackendErrorPrefix + DecimalString(reply.status))
  {
    match reply
    case TransportError(c) => Failure(c)
    case Http(status, body) =>
      if 200 <= status <= 299 then Success(body)
      else
        DecimalRoundTrip(status);
        var msg := BackendErrorPrefix + DecimalString(status);
        assert msg[|BackendErrorPrefix|..] == DecimalString(status);
        Failure(msg)
  }

  /** `validateWithLean`: the decoded body of a 2xx reply, otherwise a thrown error. */
  function ValidateWithLean(reply: Reply<ValidationResponse>): (r: Result<ValidationResponse>)
    ensures r.Success? <==> reply.Ok()
    ensures r.Success? ==> r.value == reply.body
    ensures reply.TransportError? ==> r == Failure(reply.cause)
    ensures reply.Http? && !reply.Ok() ==> r == Failure("backend /validate failed")
  {
    match reply
    case TransportError(c) => Failure(c)
    case Http(status, body) =>
      if 200 <= status <= 299 then Success(body) else Failure("backend /validate failed")
  }

  /** All chunks one after another. */
  function Concat(chunks: seq<string>): string {
    if chunks == [] then "" else chunks[0] + Concat(chunks[1..])
  }

  /**
   * The accumulation of `callLLMCompletion`: starting from `out`, append chunk after chunk
   * and stop as soon as the accumulated text contains the sentinel.
   */
  function Drain(out: string, rest: seq<string>): string
    decreases |rest|
  {
    if rest == [] then out
    else
      var next := out + rest[0];
      if Contains(next, EndSentinel) then next else Drain(next, rest[1..])
  }

  /** The text `callLLMCompletion` has accumulated when its loop ends. */
  function Received(chunks: seq<string>): string {
    Drain("", chunks)
  }

  /**
   * `callLLMCompletion`: a failed or body-less reply throws; otherwise chunks are read until
   * the accumulated text contains the sentinel or the stream ends, and the first sentinel
   * is removed.
   */
  method CallLlmCompletion(reply: StreamReply) returns (r: Result<string>)
    ensures r.Success? <==> reply.Ok() && reply.chunks.Some?
    ensures reply.StreamTransportError? ==> r == Failure(reply.cause)
    ensures reply.StreamHttp? && !(reply.Ok() && reply.chunks.Some?) ==> r == Failure("backend /complete failed")
    ensures r.Success? ==> r.value == ReplaceFirst(Received(reply.chunks.value), EndSentinel, "")
  {
    if reply.StreamTransportError? {
      return Failure(reply.cause);
    }
    if !(200 <= reply.status <= 299) || reply.chunks.None? {
      return Failure("backend /complete failed");
    }
    var chunks := reply.chunks.value;
    var out := "";
    var i := 0;
    while i < |chunks|
      invariant 0 <= i <= |chunks|
      invariant !Contains(out, EndSentinel)
      invariant Drain(out, chunks[i..]) == Received(chunks)
    {
      assert chunks[i..][1..] == chunks[i + 1..];
      out := out + chunks[i];
      i := i + 1;
      if Contains(out, EndSentinel) {
        break;
      }
    }
    return Success(ReplaceFirst(out, EndSentinel, ""));
  }

  lemma {:induction false} ContainsAppend(a: string, b: string, pat: string)
    requires Contains(a, pat)
    ensures Contains(a + b, pat)
  {
    var i := IndexOf(a, pat);
    assert (a + b)[i..i + |pat|] == a[i..i + |pat|];
    OccursAtContains(a + b, pat, i);
  }

  lemma OccursInPrefix(s: string, pat: string, i: nat, k: nat)
    requires i + |pat| <= k <= |s|
    ensures OccursAt(s, pat, i) ==> OccursAt(s[..k], pat, i)
  {
    assert s[..k][i..i + |pat|] == s[i..i + |pat|];
  }

  lemma NotContainsEmpty()
    ensures !Contains("", EndSentinel)
  {
    ContainsIff("", EndSentinel);
  }

  lemma ConcatPrefixStep(rest: seq<string>, j: nat)
    requires 1 <= j <= |rest|
    ensures Concat(rest[..j]) == rest[0] + Concat(rest[1..][..j - 1])
  {
    assert rest[..j][1..] == rest[1..][..j - 1];
  }

  lemma {:induction false} DrainWhole(out: string, rest: seq<string>)
    requires !Contains(out + Concat(rest), EndSentinel)
    ensures Drain(out, rest) == out + Concat(rest)
    decreases |rest|
  {
    if rest == [] {
      assert out + Concat(rest) == out;
    } else {
      var next := out + rest[0];
      assert out + Concat(rest) == next + Concat(rest[1..]);
      if Contains(next, EndSentinel) {
        ContainsAppend(next, Concat(rest[1..]), EndSentinel);
      }
      DrainWhole(next, rest[1..]);
    }
  }

  /** Without a sentinel anywhere, the whole stream is accumulated and nothing is removed. */
  lemma NoSentinelKeepsEverything(chunks: seq<string>)
    requires !Contains(Concat(chunks), EndSentinel)
    ensures Received(chunks) == Concat(chunks)
    ensures ReplaceFirst(Received(chunks), EndSentinel, "") == Concat(chunks)
  {
    assert "" + Concat(chunks) == Concat(chunks);
    DrainWhole("", chunks);
  }

  lemma {:induction false} DrainFirst(out: string, rest: seq<string>, n: nat)
    requires 0 < n <= |rest|
    requires Contains(out + Concat(rest[..n]), EndSentinel)
    requires forall j :: 0 <= j < n ==> !Contains(out + Concat(rest[..j]), EndSentinel)
    ensures Drain(out, rest) == out + Concat(rest[..n])
    decreases |rest|
  {
    var next := out + rest[0];
    ConcatPrefixStep(rest, 1);
    assert rest[1..][..0] == [];
    assert next == out + Concat(rest[..1]);
    if n > 1 {
      forall j | 0 <= j < n - 1
        ensures !Contains(next + Concat(rest[1..][..j]), EndSentinel)
      {
        ConcatPrefixStep(rest, j + 1);
        assert next + Concat(rest[1..][..j]) == out + Concat(rest[..j + 1]);
      }
      ConcatPrefixStep(rest, n);
      assert next + Concat(rest[1..][..n - 1]) == out + Concat(rest[..n]);
      DrainFirst(next, rest[1..], n - 1);
    }
  }

  /**
   * The loop stops at the first chunk after which the accumulated text contains the
   * sentinel: what is returned is that prefix of the stream, sentinel and all that follows
   * it in the same chunk.
   */
  lemma StopsAtFirstSentinel(chunks: seq<string>, n: nat)
    requires 0 < n <= |chunks|
    requires Contains(Concat(chunks[..n]), EndSentinel)
    requires forall j :: 0 < j < n ==> !Contains(Concat(chunks[..j]), EndSentinel)
    ensures Received(chunks) == Concat(chunks[..n])
  {
    NotContainsEmpty();
    assert chunks[..0] == [];
    forall j | 0 <= j <= n ensures "" + Concat(chunks[..j]) == Concat(chunks[..j]) { }
    DrainFirst("", chunks, n);
  }

  lemma {:induction false} DrainIgnoresLater(out: string, rest: seq<string>, later: seq<string>)
    requires !Contains(out, EndSentinel)
    requires Contains(Drain(out, rest), EndSentinel)
    ensures Drain(out, rest + later) == Drain(out, rest)
    decreases |rest|
  {
    if rest != [] {
      var next := out + rest[0];
      assert (rest + later)[0] == rest[0];
      if !Contains(next, EndSentinel) {
        assert (rest + later)[1..] == rest[1..] + later;
        DrainIgnoresLater(next, rest[1..], later);
      }
    }
  }

  /** Once the sentinel has been read, later chunks are never read. */
  lemma LaterChunksUnread(chunks: seq<string>, later: seq<string>)
    requires Contains(Received(chunks), EndSentinel)
    ensures Received(chunks + later) == Received(chunks)
  {
    NotContainsEmpty();
    DrainIgnoresLater("", chunks, later);
  }

  /** A sentinel in the middle of a chunk keeps the text after it: `["abc", "def[[END]]ghi"]` gives `"abcdefghi"`. */
  lemma SentinelMidChunk()
    ensures Received(["abc", "def[[END]]ghi"]) == "abcdef[[END]]ghi"
    ensures ReplaceFirst(Received(["abc", "def[[END]]ghi"]), EndSentinel, "") == "abcdefghi"
  {
    var s := "abcdef[[END]]ghi";
    MidChunkReceived();
    MidChunkIndex();
    assert s[..6] == "abcdef";
    assert s[6 + |EndSentinel|..] == "ghi";
  }

  lemma MidChunkReceived()
    ensures Received(["abc", "def[[END]]ghi"]) == "abcdef[[END]]ghi"
  {
    var a, b, s := "abc", "def[[END]]ghi", "abcdef[[END]]ghi";
    assert !Contains("" + a, EndSentinel) by {
      assert "" + a == a;
      ContainsIff(a, EndSentinel);
    }
    assert s[..3] == a && s[3..] == b;
    SplitAt(s, a, b);
    assert s[6..13] == EndSentinel;
    OccursAtContains(s, EndSentinel, 6);
    assert ["abc", "def[[END]]ghi"][1..] == [b];
  }

  /** A string is its first `|a|` characters followed by the rest. */
  lemma SplitAt(s: string, a: string, b: string)
    requires |a| <= |s| && s[..|a|] == a && s[|a|..] == b
    ensures a + b == s
  {
  }

  lemma MidChunkIndex()
    ensures IndexOf("abcdef[[END]]ghi", EndSentinel) == 6
  {
    var s := "abcdef[[END]]ghi";
    assert s[6..13] == EndSentinel;
    forall i | 0 <= i < 6 ensures !OccursAt(s, EndSentinel, i) {
      assert s[i..i + 7][0] == s[i] != EndSentinel[0];
    }
    FirstOccurrence(s, EndSentinel, 6);
  }

  /** An occurrence with none before it is what `indexOf` finds. */
  lemma FirstOccurrence(s: string, pat: string, k: nat)
    requires OccursAt(s, pat, k)
    requires forall i :: 0 <= i < k ==> !OccursAt(s, pat, i)
    ensures IndexOf(s, pat) == k
  {
    OccursAtContains(s, pat, k);
  }

  lemma FramedBody(suggestion: string)
    ensures Concat(StreamPieces(suggestion)) == suggestion + "\n" + EndSentinel
  {
    var pieces := StreamPieces(suggestion);
    assert pieces[1..][1..] == [];
    assert Concat(pieces[1..]) == "\n[[END]]" + "";
  }

  /** In the framed body, the sentinel first occurs at its very end. */
  lemma {:induction false} FramedPrefixesLackSentinel(suggestion: string, k: nat)
    requires !Contains(suggestion, EndSentinel)
    requires k < |Concat(StreamPieces(suggestion))|
    ensures !Contains(Concat(StreamPieces(suggestion))[..k], EndSentinel)
  {
    var f := Concat(StreamPieces(suggestion));
    FramedBody(suggestion);
    var p := f[..k];
    ContainsIff(suggestion, EndSentinel);
    forall i | 0 <= i <= |p| ensures !OccursAt(p, EndSentinel, i) {
      if i + 7 <= |p| {
        if i + 7 <= |suggestion| {
          assert f[..|suggestion|] == suggestion;
          assert p[i..i + 7] == f[i..i + 7] == suggestion[i..i + 7];
          assert !OccursAt(suggestion, EndSentinel, i);
        } else {
          var d := |suggestion| - i;
          assert 0 <= d < 7;
          assert p[i..i + 7][d] == f[|suggestion|] == '\n';
          assert EndSentinel[d] != '\n';
          assert p[i..i + 7] != EndSentinel;
        }
      }
    }
    ContainsIff(p, EndSentinel);
  }

  lemma {:induction false} DrainFramed(suggestion: string, out: string, rest: seq<string>)
    requires !Contains(suggestion, EndSentinel)
    requires out + Concat(rest) == Concat(StreamPieces(suggestion))
    ensures Drain(out, rest) == Concat(StreamPieces(suggestion))
    decreases |rest|
  {
    var f := Concat(StreamPieces(suggestion));
    if rest == [] {
      assert out + Concat(rest) == out;
    } else {
      var next := out + rest[0];
      assert next + Concat(rest[1..]) == f;
      if Contains(next, EndSentinel) {
        if |next| < |f| {
          assert f[..|next|] == next;
          FramedPrefixesLackSentinel(suggestion, |next|);
        }
        assert next == f;
      } else {
        DrainFramed(suggestion, next, rest[1..]);
      }
    }
  }

  /**
   * Round trip with the backend's framing: however the body `suggestion + "\n[[END]]"` is
   * split into chunks, the client returns `suggestion + "\n"`, provided the suggestion
   * itself does not contain the sentinel.
   */
  lemma StreamRoundTrip(suggestion: string, chunks: seq<string>)
    requires !Contains(suggestion, EndSentinel)
    requires Concat(chunks) == Concat(StreamPieces(suggestion))
    ensures ReplaceFirst(Received(chunks), EndSentinel, "") == suggestion + "\n"
  {
    var f := Concat(StreamPieces(suggestion));
    FramedBody(suggestion);
    assert "" + Concat(chunks) == f;
    DrainFramed(suggestion, "", chunks);
    FramedIndex(suggestion);
    FramedSlices(suggestion);
  }

  lemma FramedSlices(suggestion: string)
    ensures var f := Concat(StreamPieces(suggestion));
      var at := |suggestion| + 1;
      && at + |EndSentinel| == |f| && f[..at] == suggestion + "\n" && f[at + |EndSentinel|..] == []
  {
    FramedBody(suggestion);
  }

  /** In the framed body, `indexOf` finds the sentinel right after the suggestion and its newline. */
  lemma FramedIndex(suggestion: string)
    requires !Contains(suggestion, EndSentinel)
    ensures IndexOf(Concat(StreamPieces(suggestion)), EndSentinel) == |suggestion| + 1
  {
    var f := Concat(StreamPieces(suggestion));
    FramedBody(suggestion);
    var at := |suggestion| + 1;
    assert f[at..at + 7] == EndSentinel;
    forall i | 0 <= i < at ensures !OccursAt(f, EndSentinel, i) {
      FramedPrefixesLackSentinel(suggestion, i + 7);
      ContainsIff(f[..i + 7], EndSentinel);
      OccursInPrefix(f, EndSentinel, i, i + 7);
    }
    FirstOccurrence(f, EndSentinel, at);
  }
}
