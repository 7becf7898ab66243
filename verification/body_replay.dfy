/**
 * The request-body handling of AssertBodyContainsBytes (httpfixture.go
 * lines 170-186). The check tees the body into a buffer and puts that buffer
 * back as the request body, so that later readers can read it again. The
 * buffer is created holding ContentLength zero bytes rather than empty with
 * that capacity, so the body left behind is those zeros followed by the
 * original body; and when the length is unknown (-1) creating it panics.
 * The rest of the model uses the replay-safe check, which leaves the body
 * as it was.
 */
module BodyReplay {
  import opened Wrappers
  import opened Text
  import opened Requests
  import opened Assertions

  /** The verdict of a body check and the request as later readers see it, or a panic. */
  datatype BodyCheck = Checked(outcome: Outcome, request: Request) | Panicked

  function Zeros(n: nat): (z: seq<byte>)
    ensures |z| == n && forall i :: 0 <= i < n ==> z[i] == 0
  {
    seq(n, _ => 0)
  }

  /**
   * The body check as written: a negative content length panics when the
   * buffer is made; otherwise the verdict is taken on the bytes read and
   * the body left behind is ContentLength zeros followed by those bytes.
   */
  function BodyCheckAsWritten(req: Request, needle: seq<byte>): (r: BodyCheck)
    ensures r.Panicked? <==> req.contentLength < 0
    ensures r.Checked? ==> r.outcome == Check(BodyContains(needle), req)
    ensures r.Checked? ==> r.request == req.(body := Zeros(req.contentLength) + req.body)
  {
    if req.contentLength < 0 then Panicked
    else
      var replay := Zeros(req.contentLength) + req.body;
      Checked(Check(BodyContains(needle), req), req.(body := replay))
  }

  /** As written, any request with a positive length is left with a different body. */
  lemma AsWrittenAltersBody(req: Request, needle: seq<byte>)
    requires req.contentLength > 0
    ensures BodyCheckAsWritten(req, needle).Checked?
    ensures BodyCheckAsWritten(req, needle).request.body != req.body
  {
    var r := BodyCheckAsWritten(req, needle);
    assert |r.request.body| == req.contentLength + |req.body|;
  }

  /**
   * Two body assertions on a request with body "abc": the first, for a zero
   * byte, fails; the second, run on the body the first left behind, passes.
   */
  lemma AsWrittenSecondCheckDisagrees()
    ensures
      var req := Request("GET", Url("/path", "http://localhost:8080/path"), map[], [97, 98, 99], 3);
      var first := BodyCheckAsWritten(req, [0]);
      && first.Checked? && first.outcome.Fail?
      && var second := BodyCheckAsWritten(first.request, [0]);
      && second.Checked? && second.outcome.Pass?
  {
    var req := Request("GET", Url("/path", "http://localhost:8080/path"), map[], [97, 98, 99], 3);
    forall i ensures !OccursAt(req.body, [0], i) {
      OccursAtSingle(req.body, 0, i);
    }
    var first := BodyCheckAsWritten(req, [0]);
    assert OccursAt(first.request.body, [0], 0);
  }

  /** A request of unknown length (-1, as for a chunked body) makes the body check panic. */
  lemma AsWrittenUnknownLengthPanics(req: Request, needle: seq<byte>)
    requires req.contentLength == -1
    ensures BodyCheckAsWritten(req, needle).Panicked?
  {
  }

  /**
   * The replay-safe body check: the verdict is taken on the body, which is
   * left exactly as it was, whatever the content length.
   */
  function BodyCheckReplaySafe(req: Request, needle: seq<byte>): (r: BodyCheck)
    ensures r.Checked? && r.request == req
    ensures r.outcome.Pass? <==> exists i :: OccursAt(req.body, needle, i)
  {
    Checked(Check(BodyContains(needle), req), req)
  }

  /**
   * Replay safety: a body check followed by any other body check gives the
   * second the verdict it would have had on the original request.
   */
  lemma ReplaySafeChecksCommute(req: Request, n1: seq<byte>, n2: seq<byte>)
    ensures BodyCheckReplaySafe(BodyCheckReplaySafe(req, n1).request, n2).outcome
         == BodyCheckReplaySafe(req, n2).outcome
  {
  }
}
