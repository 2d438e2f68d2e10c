/** The line protocol of a machine session: LF-delimited request frames read from chunks of
    any size, frames over the limit discarded up to their LF, one response per frame. */
module Frames {
  import opened Common

  const LF: Byte := 10

  /** A buffered input: the bytes still to come, in the chunks they will arrive in. */
  class ChunkedInput {
    var chunks: seq<seq<Byte>>

    ghost predicate Valid() reads this {
      forall i :: 0 <= i < |chunks| ==> chunks[i] != []
    }

    ghost function Contents(): seq<Byte> reads this {
      Flatten(chunks)
    }

    constructor (chunks: seq<seq<Byte>>)
      requires forall i :: 0 <= i < |chunks| ==> chunks[i] != []
      ensures Valid() && this.chunks == chunks
    {
      this.chunks := chunks;
    }

    method FillBuf() returns (available: seq<Byte>)
      requires Valid()
      ensures available <= Contents()
      ensures available == [] <==> Contents() == []
      ensures chunks != [] ==> available == chunks[0]
    {
      if chunks == [] {
        return [];
      }
      return chunks[0];
    }

    method Consume(amount: nat)
      requires Valid() && chunks != [] && amount <= |chunks[0]|
      modifies this
      ensures Valid() && Contents() == old(Contents())[amount..]
    {
      var rest := chunks[0][amount..];
      assert Flatten(chunks)[amount..] == rest + Flatten(chunks[1..]);
      if rest == [] {
        chunks := chunks[1..];
      } else {
        var tail := chunks[1..];
        chunks := [rest] + tail;
        assert chunks[1..] == tail;
      }
    }
  }

  function Flatten(chunks: seq<seq<Byte>>): seq<Byte> {
    if chunks == [] then [] else chunks[0] + Flatten(chunks[1..])
  }

  predicate NoLf(bytes: seq<Byte>, n: nat)
    requires n <= |bytes|
  {
    forall i :: 0 <= i < n ==> bytes[i] != LF
  }

  /** The position of the first LF, or the length when there is none. */
  function FirstLf(bytes: seq<Byte>): (k: nat)
    ensures k <= |bytes| && NoLf(bytes, k) && (k < |bytes| ==> bytes[k] == LF)
  {
    if bytes == [] || bytes[0] == LF then 0 else 1 + FirstLf(bytes[1..])
  }

  lemma FirstLfUnique(bytes: seq<Byte>, k: nat)
    requires k <= |bytes| && NoLf(bytes, k) && (k < |bytes| ==> bytes[k] == LF)
    ensures FirstLf(bytes) == k
  {
  }

  datatype FrameRead = FrameRead(frame: seq<Byte>, consumed: nat, oversized: bool, delimited: bool)

  /** The frame at the front of `bytes`: verbatim when it fits `limit`, flagged and dropped
      otherwise; in both cases the input continues after the LF. */
  function Split(bytes: seq<Byte>, limit: nat): (r: FrameRead)
    ensures r.consumed <= |bytes| && |r.frame| <= limit && (r.consumed == 0 <==> bytes == [])
  {
    var k := FirstLf(bytes);
    FrameRead(
      if k > limit then [] else bytes[..k],
      if k < |bytes| then k + 1 else k,
      k > limit,
      k < |bytes|)
  }

  /** The next chunk, `available`, of a stream of which `consumed` bytes held no LF. */
  lemma NextChunk(bytes: seq<Byte>, consumed: nat, available: seq<Byte>)
    requires consumed + |available| <= |bytes| && NoLf(bytes, consumed)
    requires available == bytes[consumed..consumed + |available|]
    ensures NoLf(bytes, consumed + FirstLf(available))
    ensures FirstLf(available) < |available| ==> FirstLf(bytes) == consumed + FirstLf(available)
    ensures bytes[..consumed + FirstLf(available)] == bytes[..consumed] + available[..FirstLf(available)]
  {
    hide FirstLf;
    var index := FirstLf(available);
    forall i | consumed <= i < consumed + index
      ensures bytes[i] != LF
    {
      assert bytes[i] == available[i - consumed];
    }
    if index < |available| {
      assert bytes[consumed + index] == available[index];
      FirstLfUnique(bytes, consumed + index);
    }
  }

  /** The frame, once the position of the first LF is known. */
  lemma SplitAt(bytes: seq<Byte>, limit: nat, k: nat)
    requires FirstLf(bytes) == k
    ensures Split(bytes, limit) ==
      FrameRead(if k > limit then [] else bytes[..k], if k < |bytes| then k + 1 else k, k > limit, k < |bytes|)
  {
  }

  lemma Within(bytes: seq<Byte>, consumed: nat, available: seq<Byte>)
    requires consumed <= |bytes| && available <= bytes[consumed..]
    ensures consumed + |available| <= |bytes| && available == bytes[consumed..consumed + |available|]
    ensures forall n :: 0 <= n <= |available| ==> bytes[consumed..][n..] == bytes[consumed + n..]
  {
    assert available == bytes[consumed..][..|available|];
  }

  lemma NoLfBefore(bytes: seq<Byte>)
    ensures NoLf(bytes, 0)
  {
  }

  /** The bytes up to the next LF, or a flag when they exceed the limit, the stream then
      standing behind that LF all the same. */
  method ReadFrame(input: ChunkedInput, limit: nat)
    returns (frame: seq<Byte>, consumed: nat, oversized: bool, delimited: bool)
    requires input.Valid()
    modifies input
    ensures input.Valid()
    ensures FrameRead(frame, consumed, oversized, delimited) == Split(old(input.Contents()), limit)
    ensures input.Contents() == old(input.Contents())[consumed..]
  {
    hide FirstLf, NoLf, Split;
    ghost var bytes := input.Contents();
    NoLfBefore(bytes);
    frame, consumed, oversized := [], 0, false;
    while true
      invariant input.Valid()
      invariant consumed <= |bytes| && input.Contents() == bytes[consumed..]
      invariant NoLf(bytes, consumed)
      invariant oversized == (consumed > limit)
      invariant frame == (if oversized then [] else bytes[..consumed])
      decreases |bytes| - consumed
    {
      var available := input.FillBuf();
      Within(bytes, consumed, available);
      NextChunk(bytes, consumed, available);
      if available == [] {
        FirstLfUnique(bytes, consumed);
        SplitAt(bytes, limit, consumed);
        return frame, consumed, oversized, false;
      }
      var index := FirstLf(available);
      if index < |available| {
        SplitAt(bytes, limit, consumed + index);
        if !oversized {
          if |frame| + index > limit {
            oversized, frame := true, [];
          } else {
            frame := frame + available[..index];
          }
        }
        input.Consume(index + 1);
        return frame, consumed + index + 1, oversized, true;
      }
      var length := |available|;
      if !oversized {
        if |frame| + length > limit {
          oversized, frame := true, [];
        } else {
          frame := frame + available;
        }
      }
      input.Consume(length);
      consumed := consumed + length;
    }
  }

  // ---------- the session ----------

  datatype Failure =
    | RequestTooLarge
    | Truncated
    | InvalidUtf8
    | DuplicateKey
    | InvalidJson
    | Startup(code: string)

  datatype Parsed<+Q> = Request(request: Q) | Rejected(failure: Failure)

  datatype Response<+R> = Answer(result: R) | Failed(failure: Failure)

  datatype FrameOutcome = Handled | Terminate | Eof

  /** What the session knows how to do: parse a frame and carry out a request, which may
      change the state of the engine behind it. */
  datatype Service<!S, !Q, !R> = Service(parse: seq<Byte> -> Parsed<Q>, dispatch: (S, Q) -> (S, R))

  /** The responses to a byte stream. */
  function Responses<S, Q, R>(
    service: Service<S, Q, R>, limit: nat, startupError: Option<Failure>, state: S, bytes: seq<Byte>)
    : seq<Response<R>>
    decreases |bytes|
  {
    if bytes == [] then []
    else
      var read := Split(bytes, limit);
      var rest := bytes[read.consumed..];
      if read.oversized then
        [Failed(RequestTooLarge)] + Responses(service, limit, startupError, state, rest)
      else if !read.delimited then [Failed(Truncated)]
      else if read.frame == [] then Responses(service, limit, startupError, state, rest)
      else
        match service.parse(read.frame)
        case Rejected(failure) =>
          [Failed(failure)] + Responses(service, limit, startupError, state, rest)
        case Request(request) =>
          if startupError.Some? then [Failed(startupError.value)]
          else
            var (next, result) := service.dispatch(state, request);
            [Answer(result)] + Responses(service, limit, startupError, next, rest)
  }

  lemma SplitNothing(bytes: seq<Byte>, limit: nat)
    ensures Split(bytes, limit).consumed == 0 <==> bytes == []
    ensures bytes == [] ==> Split(bytes, limit).frame == []
    ensures Split(bytes, limit).consumed <= |bytes|
  {
  }

  lemma NoResponses<S, Q, R>(service: Service<S, Q, R>, limit: nat, startupError: Option<Failure>, state: S)
    ensures Responses(service, limit, startupError, state, []) == []
  {
  }

  /** The response to the first frame, then those to the rest. */
  lemma NextResponse<S, Q, R>(
    service: Service<S, Q, R>, limit: nat, startupError: Option<Failure>, state: S, bytes: seq<Byte>)
    requires bytes != []
    ensures
      var read := Split(bytes, limit);
      var rest := bytes[read.consumed..];
      Responses(service, limit, startupError, state, bytes) ==
      if read.oversized then
        [Failed(RequestTooLarge)] + Responses(service, limit, startupError, state, rest)
      else if !read.delimited then [Failed(Truncated)]
      else if read.frame == [] then Responses(service, limit, startupError, state, rest)
      else
        match service.parse(read.frame)
        case Rejected(failure) =>
          [Failed(failure)] + Responses(service, limit, startupError, state, rest)
        case Request(request) =>
          if startupError.Some? then [Failed(startupError.value)]
          else
            var (next, result) := service.dispatch(state, request);
            [Answer(result)] + Responses(service, limit, startupError, next, rest)
  {
    hide Split;
  }

  class Session<!S, !Q, !R> {
    const service: Service<S, Q, R>
    const maxRequestBytes: nat
    var state: S
    var startupError: Option<Failure>
    var written: seq<Response<R>>

    constructor (service: Service<S, Q, R>, maxRequestBytes: nat, state: S, startupError: Option<Failure>)
      ensures this.service == service && this.maxRequestBytes == maxRequestBytes
      ensures this.state == state && this.startupError == startupError && written == []
    {
      this.service := service;
      this.maxRequestBytes := maxRequestBytes;
      this.state := state;
      this.startupError := startupError;
      written := [];
    }

    /** The whole output of the session: what is written and what the rest will add. */
    ghost function Output(bytes: seq<Byte>): seq<Response<R>> reads this {
      written + Responses(service, maxRequestBytes, startupError, state, bytes)
    }

    method HandleFrame(input: ChunkedInput) returns (outcome: FrameOutcome)
      requires input.Valid()
      modifies input, this
      ensures input.Valid()
      ensures outcome.Handled? ==>
        |input.Contents()| < |old(input.Contents())|
        && Output(input.Contents()) == old(Output(input.Contents()))
      ensures !outcome.Handled? ==> written == old(Output(input.Contents()))
    {
      hide Responses, Split;
      ghost var bytes := input.Contents();
      var frame, read, oversized, delimited := ReadFrame(input, maxRequestBytes);
      if read == 0 && frame == [] {
        SplitNothing(bytes, maxRequestBytes);
        NoResponses(service, maxRequestBytes, startupError, state);
        return Eof;
      }
      SplitNothing(bytes, maxRequestBytes);
      NextResponse(service, maxRequestBytes, startupError, state, bytes);
      ghost var rest := bytes[read..];
      if oversized {
        written := written + [Failed(RequestTooLarge)];
        return Handled;
      }
      if !delimited {
        written := written + [Failed(Truncated)];
        return Terminate;
      }
      if frame == [] {
        return Handled;
      }
      match service.parse(frame) {
        case Rejected(failure) =>
          written := written + [Failed(failure)];
          return Handled;
        case Request(request) =>
          if startupError.Some? {
            written := written + [Failed(startupError.value)];
            startupError := None;
            return Terminate;
          }
          var next, result := Dispatch(request);
          return Handled;
      }
    }

    method Dispatch(request: Q) returns (ghost next: S, ghost result: R)
      modifies this
      ensures (next, result) == service.dispatch(old(state), request)
      ensures state == next && written == old(written) + [Answer(result)]
      ensures startupError == old(startupError)
    {
      var (s, r) := service.dispatch(state, request);
      state := s;
      written := written + [Answer(r)];
      next, result := s, r;
    }

    /** The session loop: the responses are a function of the bytes alone. */
    method Serve(input: ChunkedInput)
      requires input.Valid()
      modifies input, this
      ensures written == old(written)
        + Responses(service, maxRequestBytes, old(startupError), old(state), old(input.Contents()))
    {
      ghost var all := Output(input.Contents());
      while true
        invariant input.Valid() && Output(input.Contents()) == all
        decreases |input.Contents()|
      {
        var outcome := HandleFrame(input);
        if outcome.Terminate? || outcome.Eof? {
          return;
        }
      }
    }
  }

  // ---------- the reference: split on LF, then answer piece by piece ----------

  function SplitLf(bytes: seq<Byte>): (pieces: seq<seq<Byte>>)
    ensures pieces != []
  {
    if bytes == [] then [[]]
    else
      var rest := SplitLf(bytes[1..]);
      if bytes[0] == LF then [[]] + rest else [[bytes[0]] + rest[0]] + rest[1..]
  }

  /** Answers to the pieces of a stream; the last piece has no delimiter. */
  function Answers<S, Q, R>(service: Service<S, Q, R>, limit: nat, state: S, pieces: seq<seq<Byte>>)
    : seq<Response<R>>
    requires pieces != []
  {
    var piece := pieces[0];
    if |pieces| == 1 then
      if piece == [] then [] else [Failed(if |piece| > limit then RequestTooLarge else Truncated)]
    else if piece == [] then Answers(service, limit, state, pieces[1..])
    else if |piece| > limit then [Failed(RequestTooLarge)] + Answers(service, limit, state, pieces[1..])
    else
      match service.parse(piece)
      case Rejected(failure) => [Failed(failure)] + Answers(service, limit, state, pieces[1..])
      case Request(request) =>
        var (next, result) := service.dispatch(state, request);
        [Answer(result)] + Answers(service, limit, next, pieces[1..])
  }

  lemma {:induction false} SplitFirst(bytes: seq<Byte>)
    ensures
      var k := FirstLf(bytes);
      SplitLf(bytes) == if k < |bytes| then [bytes[..k]] + SplitLf(bytes[k + 1..]) else [bytes]
    decreases |bytes|
  {
    if bytes != [] && bytes[0] != LF {
      SplitFirst(bytes[1..]);
      var k := FirstLf(bytes[1..]);
      assert bytes[..k + 1] == [bytes[0]] + bytes[1..][..k];
      assert bytes == [bytes[0]] + bytes[1..];
      if k < |bytes[1..]| {
        assert bytes[1..][k + 1..] == bytes[k + 2..];
      }
    }
  }

  /** Without a startup error, the session answers a stream exactly as one that is split on
      LF first: good frames verbatim, every bad frame with its own failure, and the frames
      after a delimited bad frame as if it had not been there. */
  lemma {:induction false} ResponsesAreAnswers<S, Q, R>(
    service: Service<S, Q, R>, limit: nat, state: S, bytes: seq<Byte>)
    ensures Responses(service, limit, None, state, bytes) == Answers(service, limit, state, SplitLf(bytes))
    decreases |bytes|
  {
    SplitFirst(bytes);
    if bytes != [] {
      var read := Split(bytes, limit);
      var rest := bytes[read.consumed..];
      if !read.delimited {
        assert bytes[..|bytes|] == bytes && rest == [];
      } else if read.oversized || read.frame == [] || service.parse(read.frame).Rejected? {
        ResponsesAreAnswers(service, limit, state, rest);
      } else {
        ResponsesAreAnswers(service, limit, service.dispatch(state, service.parse(read.frame).request).0, rest);
      }
    }
  }

  function NonEmptyPieces(pieces: seq<seq<Byte>>): nat {
    if pieces == [] then 0
    else (if pieces[0] == [] then 0 else 1) + NonEmptyPieces(pieces[1..])
  }

  /** One response per non-empty frame. */
  lemma {:induction false} OneResponsePerFrame<S, Q, R>(
    service: Service<S, Q, R>, limit: nat, state: S, pieces: seq<seq<Byte>>)
    requires pieces != []
    ensures |Answers(service, limit, state, pieces)| == NonEmptyPieces(pieces)
    decreases |pieces|
  {
    var piece := pieces[0];
    if |pieces| > 1 {
      if piece == [] || |piece| > limit || service.parse(piece).Rejected? {
        OneResponsePerFrame(service, limit, state, pieces[1..]);
      } else {
        OneResponsePerFrame(service, limit, service.dispatch(state, service.parse(piece).request).0, pieces[1..]);
      }
    }
  }

  /** A startup error is the last response, given to the first frame that parses; every
      frame before it is answered as it would be without the error. */
  lemma {:induction false} StartupErrorEndsSession<S, Q, R>(
    service: Service<S, Q, R>, limit: nat, error: Failure, state: S, bytes: seq<Byte>)
    ensures CutByStartup(error, Responses(service, limit, Some(error), state, bytes),
                         Responses(service, limit, None, state, bytes))
    decreases |bytes|
  {
    if bytes != [] {
      var read := Split(bytes, limit);
      var rest := bytes[read.consumed..];
      if read.oversized {
        StartupErrorEndsSession(service, limit, error, state, rest);
        StartupAfterFailure(Failed(RequestTooLarge), error,
          Responses(service, limit, Some(error), state, rest), Responses(service, limit, None, state, rest));
      } else if read.delimited && read.frame == [] {
        StartupErrorEndsSession(service, limit, error, state, rest);
      } else if read.delimited && service.parse(read.frame).Rejected? {
        StartupErrorEndsSession(service, limit, error, state, rest);
        StartupAfterFailure(Failed(service.parse(read.frame).failure), error,
          Responses(service, limit, Some(error), state, rest), Responses(service, limit, None, state, rest));
      }
    }
  }

  ghost predicate CutByStartup<R>(error: Failure, got: seq<Response<R>>, normal: seq<Response<R>>) {
    || (got == normal && forall i :: 0 <= i < |normal| ==> normal[i].Failed?)
    || (0 < |got| <= |normal| && got[|got| - 1] == Failed(error)
        && got[..|got| - 1] == normal[..|got| - 1] && normal[|got| - 1].Answer?
        && forall i :: 0 <= i < |got| - 1 ==> normal[i].Failed?)
  }

  lemma StartupAfterFailure<R>(
    first: Response<R>, error: Failure, got: seq<Response<R>>, normal: seq<Response<R>>)
    requires first.Failed? && CutByStartup(error, got, normal)
    ensures CutByStartup(error, [first] + got, [first] + normal)
  {
    var g, n := [first] + got, [first] + normal;
    if 0 < |got| <= |normal| && got[..|got| - 1] == normal[..|got| - 1] {
      assert g[..|g| - 1] == [first] + got[..|got| - 1];
      assert n[..|g| - 1] == [first] + normal[..|got| - 1];
    }
  }
}
