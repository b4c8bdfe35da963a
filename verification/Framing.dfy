/** Requests framed by varint lengths, read from a stream that arrives in chunks. */
module Framing {
  import opened Sequences
  import opened Varint

  // ----- what a stream of frames means -----

  /** The complete bodies at the front of the stream, the bytes left over, and whether a malformed length stops the
      reading. */
  datatype Parsed = Parsed(bodies: seq<seq<Byte>>, remainder: seq<Byte>, bad: bool)

  function Parse(bytes: seq<Byte>): Parsed
    decreases |bytes|
  {
    match Decode(bytes)
    case EndOfFile => Parsed([], bytes, false)
    case TooLarge => Parsed([], bytes, true)
    case Value(size, rest) =>
      if |rest| < size then Parsed([], bytes, false)
      else var p := Parse(rest[size..]); Parsed([rest[..size]] + p.bodies, p.remainder, p.bad)
  }

  /** The bytes end inside a length. */
  predicate PartialHeader(bytes: seq<Byte>) { bytes != [] && Decode(bytes).EndOfFile? }

  lemma {:induction false} RemainderIsIncomplete(bytes: seq<Byte>)
    ensures !Parse(bytes).bad ==> Parse(Parse(bytes).remainder) == Parsed([], Parse(bytes).remainder, false)
    decreases |bytes|
  {
    if Decode(bytes).Value? && |Decode(bytes).rest| >= Decode(bytes).value {
      RemainderIsIncomplete(Decode(bytes).rest[Decode(bytes).value..]);
    }
  }

  /** A stream can be parsed in two steps. */
  lemma {:induction false} ParseConcat(a: seq<Byte>, b: seq<Byte>)
    ensures Parse(a).bad ==> Parse(a + b).bad && Parse(a + b).bodies == Parse(a).bodies
    ensures !Parse(a).bad ==>
              var p := Parse(Parse(a).remainder + b);
              Parse(a + b) == Parsed(Parse(a).bodies + p.bodies, p.remainder, p.bad)
    decreases |a|
  {
    DecodeConcat(a, b);
    if Decode(a).Value? && |Decode(a).rest| >= Decode(a).value {
      var size, rest := Decode(a).value, Decode(a).rest;
      ParseConcat(rest[size..], b);
      assert (rest + b)[..size] == rest[..size] && (rest + b)[size..] == rest[size..] + b;
      if !Parse(a).bad {
        AppendThree([rest[..size]], Parse(rest[size..]).bodies, Parse(Parse(a).remainder + b).bodies);
      }
    } else if !Decode(a).TooLarge? {
      assert [] + Parse(a + b).bodies == Parse(a + b).bodies;
    }
  }

  // ----- the reader -----

  datatype State = State(data: seq<Byte>, size: nat)

  const FRESH := State([], 0)

  datatype ReadResult = ReadResult(handled: seq<seq<Byte>>, state: State, failed: bool)

  /** What one call does with a chunk. */
  function Read(s: State, input: seq<Byte>): ReadResult
    decreases |input|, if s.size == 0 then 0 else 2
  {
    if s.size > 0 then ReadBody(s.data, s.size, input)
    else match Decode(input)
      case EndOfFile => ReadResult([], s, false)
      case TooLarge => ReadResult([], s, true)
      case Value(size, rest) => ReadBody(s.data, size, rest)
  }

  /** A body of `size` more bytes is due; what came of it before is `data`. If the chunk ends first, as many bytes are
      kept as the chunk had, counted from the start of the body. */
  function ReadBody(data: seq<Byte>, size: nat, input: seq<Byte>): ReadResult
    decreases |input|, 1
  {
    if |input| < size then ReadResult([], State((data + input)[..|input|], size - |input|), false)
    else
      var r := Read(FRESH, input[size..]);
      ReadResult([data + input[..size]] + r.handled, r.state, r.failed)
  }

  /** The state that stands for some bytes of an incomplete frame. */
  function StateFor(pending: seq<Byte>): State {
    match Decode(pending)
    case Value(size, rest) => if |rest| < size then State(rest, size - |rest|) else FRESH
    case _ => FRESH
  }

  /** The bytes are an incomplete frame whose length is complete, or nothing. */
  predicate Pending(bytes: seq<Byte>) { Parse(bytes) == Parsed([], bytes, false) && !PartialHeader(bytes) }

  /** The body under way gets its second part and still is not complete. */
  predicate SecondCut(s: State, chunk: seq<Byte>) { s.data != [] && |chunk| < s.size }

  lemma {:induction false} ReadFresh(chunk: seq<Byte>)
    ensures var r, p := Read(FRESH, chunk), Parse(chunk);
            r.handled == p.bodies && r.failed == p.bad && (!p.bad ==> r.state == StateFor(p.remainder))
    decreases |chunk|
  {
    match Decode(chunk)
    case EndOfFile =>
    case TooLarge =>
    case Value(size, rest) =>
      if |rest| < size {
        assert ([] + rest)[..|rest|] == rest;
      } else {
        ReadFresh(rest[size..]);
        assert [] + rest[..size] == rest[..size];
      }
  }

  lemma {:induction false} ReadPending(pending: seq<Byte>, chunk: seq<Byte>)
    requires Pending(pending) && pending != []
    ensures var s := StateFor(pending);
            var r, p := Read(s, chunk), Parse(pending + chunk);
            && s.size > 0 && r.handled == p.bodies && r.failed == p.bad
            && (!p.bad && !SecondCut(s, chunk) ==> r.state == StateFor(p.remainder))
            && (SecondCut(s, chunk) ==> r.state != StateFor(p.remainder) && p == Parsed([], pending + chunk, false))
  {
    DecodeConcat(pending, chunk);
    var size, rest := Decode(pending).value, Decode(pending).rest;
    var due := size - |rest|;
    if |chunk| < due {
      if rest == [] { assert (rest + chunk)[..|chunk|] == rest + chunk; }
    } else {
      ReadFresh(chunk[due..]);
      assert (rest + chunk)[..size] == rest + chunk[..due] && (rest + chunk)[size..] == chunk[due..];
    }
  }

  /** From the right state a call hands out exactly the bodies the chunk completes and fails exactly on a malformed
      length; it ends in the right state exactly if the chunk does not leave a body cut twice nor a length cut. */
  lemma {:induction false} ReadIsRight(pending: seq<Byte>, chunk: seq<Byte>)
    requires Pending(pending)
    ensures var s := StateFor(pending);
            var r, p := Read(s, chunk), Parse(pending + chunk);
            && r.handled == p.bodies && r.failed == p.bad
            && (!p.bad ==> (Pending(p.remainder) && r.state == StateFor(p.remainder)
                            <==> !SecondCut(s, chunk) && !PartialHeader(p.remainder)))
  {
    if pending == [] {
      assert [] + chunk == chunk;
      ReadFresh(chunk);
    } else {
      ReadPending(pending, chunk);
    }
    RemainderIsIncomplete(pending + chunk);
  }

  // ----- what a wrong state does -----

  /** A byte that ends a cut length makes it one of at least 128. */
  lemma {:induction false} CutLengthDecodes(header: seq<Byte>)
    requires PartialHeader(header)
    ensures var d := Decode(header + [1, 0]); d.Value? && d.value >= 128 && d.rest == [0]
  {
    var one: seq<Byte> := [1];
    var bytes := header + [1, 0];
    ContinuedAtLeast(header, [1, 0]);
    assert bytes[..|header| + 1] == header + one && bytes[|header| + 1..] == [0];
    DigitSumSnoc(header, 1);
    DigitSumBound(header);
  }

  lemma {:induction false} CutLengthGoesOn(header: seq<Byte>)
    requires PartialHeader(header)
    ensures Parse(header + [1, 0]).bodies == []
  {
    CutLengthDecodes(header);
  }

  lemma {:induction false} FreshReadsOne()
    ensures Read(FRESH, [1, 0]).handled == [[0]]
  {
    var chunk: seq<Byte> := [1, 0];
    var one: seq<Byte> := [1];
    var zero: seq<Byte> := [0];
    assert chunk[..1] == one && one[1..] == [] && chunk[1..] == zero;
    assert DigitSum(one) == 1;
    assert Decode(chunk) == Value(1, zero);
    assert [] + zero[..1] == zero;
  }

  lemma {:induction false} CutTwiceGoesWrong(pending: seq<Byte>, chunk: seq<Byte>)
    requires Pending(pending) && SecondCut(StateFor(pending), chunk)
    ensures exists next ::
            Read(Read(StateFor(pending), chunk).state, next).handled != Parse(pending + chunk + next).bodies
  {
    DecodeConcat(pending, chunk);
    var size, rest := Decode(pending).value, Decode(pending).rest;
    var due := size - |rest| - |chunk|;
    var next := Zeros(due);
    DecodeConcat(pending + chunk, next);
    var r := Read(StateFor(pending), chunk);
    assert |rest| < size && StateFor(pending) == State(rest, size - |rest|);
    assert r == ReadBody(rest, size - |rest|, chunk);
    assert r.state == State((rest + chunk)[..|chunk|], due);
    assert Decode(pending + chunk + next) == Value(size, rest + chunk + next);
    assert |Parse(pending + chunk + next).bodies[0]| == size;
    assert Read(r.state, next) == ReadBody(r.state.data, due, next);
    assert |Read(r.state, next).handled[0]| == |chunk| + due;
  }

  /** The next call hands out the right bodies, whatever the next chunk, exactly if this chunk is cut well. */
  lemma {:induction false} NextCallIsRight(pending: seq<Byte>, chunk: seq<Byte>)
    requires Pending(pending) && !Parse(pending + chunk).bad
    ensures var s := StateFor(pending);
            var r, p := Read(s, chunk), Parse(pending + chunk);
            (forall next :: Read(r.state, next).handled == Parse(p.remainder + next).bodies)
            <==> !SecondCut(s, chunk) && !PartialHeader(p.remainder)
  {
    var s := StateFor(pending);
    var r, p := Read(s, chunk), Parse(pending + chunk);
    ReadIsRight(pending, chunk);
    if SecondCut(s, chunk) {
      ReadPending(pending, chunk);
      CutTwiceGoesWrong(pending, chunk);
    } else if PartialHeader(p.remainder) {
      if pending == [] { assert [] + chunk == chunk; ReadFresh(chunk); } else { ReadPending(pending, chunk); }
      CutLengthGoesOn(p.remainder);
      FreshReadsOne();
      assert Read(r.state, [1, 0]).handled != Parse(p.remainder + [1, 0]).bodies;
    } else {
      forall next ensures Read(r.state, next).handled == Parse(p.remainder + next).bodies {
        ReadIsRight(p.remainder, next);
      }
    }
  }

  lemma {:induction false} LastPiece(data: seq<Byte>, c: seq<Byte>)
    requires c != []
    ensures Deliver(State(data, |c|), [c]) == ReadResult([data + c], FRESH, false)
  {
    assert c[|c|..] == [] && c[..|c|] == c && [c][1..] == [];
    assert Read(State(data, |c|), c) == ReadBody(data, |c|, c);
    assert Read(FRESH, []) == ReadResult([], FRESH, false);
    var bodies := [data + c];
    assert bodies + [] == bodies;
  }

  /** A chunk that hands out nothing. */
  lemma {:induction false} NothingYet(s: State, chunk: seq<Byte>, t: State, chunks: seq<seq<Byte>>)
    requires Read(s, chunk) == ReadResult([], t, false)
    ensures Deliver(s, [chunk] + chunks) == Deliver(t, chunks)
  {
    assert ([chunk] + chunks)[1..] == chunks;
    assert [] + Deliver(t, chunks).handled == Deliver(t, chunks).handled;
  }

  /** What becomes of a body that comes in three pieces: its first two pieces are cut to the length of the second. */
  lemma {:induction false} BodyInThreePieces(a: seq<Byte>, b: seq<Byte>, c: seq<Byte>)
    requires a != [] && b != [] && c != [] && |a| + |b| + |c| < UINT32_LIMIT
    ensures Deliver(FRESH, [Encode(|a| + |b| + |c|) + a, b, c]) == ReadResult([(a + b)[..|b|] + c], FRESH, false)
  {
    var size, kept := |a| + |b| + |c|, (a + b)[..|b|];
    RoundTrip(size, a);
    assert ([] + a)[..|a|] == a && size > |a|;
    assert Read(FRESH, Encode(size) + a) == ReadBody([], size, a) == ReadResult([], State(a, |b| + |c|), false);
    assert Read(State(a, |b| + |c|), b) == ReadResult([], State(kept, |c|), false);
    NothingYet(FRESH, Encode(size) + a, State(a, |b| + |c|), [b, c]);
    NothingYet(State(a, |b| + |c|), b, State(kept, |c|), [c]);
    LastPiece(kept, c);
    assert [Encode(size) + a] + [b, c] == [Encode(size) + a, b, c] && [b] + [c] == [b, c];
  }

  // ----- whole runs -----

  /** The chunks one after another, until a call fails. */
  function Deliver(s: State, chunks: seq<seq<Byte>>): ReadResult
    decreases |chunks|
  {
    if chunks == [] then ReadResult([], s, false)
    else
      var r := Read(s, chunks[0]);
      if r.failed then r
      else var more := Deliver(r.state, chunks[1..]); ReadResult(r.handled + more.handled, more.state, more.failed)
  }

  /** No chunk ends inside a length, and each body is complete with the second chunk that has some of it. */
  predicate CutWell(pending: seq<Byte>, chunks: seq<seq<Byte>>)
    decreases |chunks|
  {
    chunks == [] ||
    var p := Parse(pending + chunks[0]);
    !SecondCut(StateFor(pending), chunks[0]) && !PartialHeader(p.remainder) && CutWell(p.remainder, chunks[1..])
  }

  /** Chunks that are cut well are read as if they had come in one piece. */
  lemma {:induction false} DeliveredInChunks(pending: seq<Byte>, chunks: seq<seq<Byte>>)
    requires Pending(pending) && CutWell(pending, chunks) && !Parse(pending + Flatten(chunks)).bad
    ensures var p := Parse(pending + Flatten(chunks));
            Deliver(StateFor(pending), chunks) == ReadResult(p.bodies, StateFor(p.remainder), false) &&
                Pending(p.remainder)
    decreases |chunks|
  {
    if chunks == [] {
      assert pending + [] == pending;
    } else {
      var p := Parse(pending + chunks[0]);
      AppendThree(pending, chunks[0], Flatten(chunks[1..]));
      ParseConcat(pending + chunks[0], Flatten(chunks[1..]));
      ReadIsRight(pending, chunks[0]);
      DeliveredInChunks(p.remainder, chunks[1..]);
    }
  }

  // ----- the writer -----

  /** A size as a 32-bit value. */
  function Size32(n: nat): (size: U32)
    ensures size <= n && (size == n <==> n < UINT32_LIMIT)
  {
    n % UINT32_LIMIT
  }

  function Frame(body: seq<Byte>): seq<Byte> { Encode(Size32(|body|)) + body }

  function Frames(bodies: seq<seq<Byte>>): seq<Byte> {
    if bodies == [] then [] else Frame(bodies[0]) + Frames(bodies[1..])
  }

  method WriteToStreamWithUvarintLength(output: seq<Byte>, body: seq<Byte>) returns (output': seq<Byte>)
    ensures output' == output + Frame(body)
  {
    var size := Size32(|body|);
    output' := EncodeTo(output, size);
    AppendThree(output, Encode(size), body);
    output' := output' + body;
  }

  lemma {:induction false} ParseFrame(body: seq<Byte>, rest: seq<Byte>)
    ensures var size := Size32(|body|);
            var p := Parse((body + rest)[size..]);
            Parse(Frame(body) + rest) == Parsed([body[..size]] + p.bodies, p.remainder, p.bad)
  {
    var size := Size32(|body|);
    RoundTrip(size, body + rest);
    AppendThree(Encode(size), body, rest);
    assert (body + rest)[..size] == body[..size];
  }

  /** Reading back what was written gives the body back exactly if its length fits 32 bits. */
  lemma {:induction false} FrameRoundTrip(body: seq<Byte>)
    ensures Parse(Frame(body)) == Parsed([body], [], false) <==> |body| < UINT32_LIMIT
  {
    ParseFrame(body, []);
    assert Frame(body) + [] == Frame(body) && body + [] == body;
    var size := Size32(|body|);
    if |body| < UINT32_LIMIT {
      assert body[..size] == body && body[size..] == [];
    } else {
      assert |body[..size]| < |body|;
    }
  }

  lemma {:induction false} FramesRoundTrip(bodies: seq<seq<Byte>>)
    requires forall b | b in bodies :: |b| < UINT32_LIMIT
    ensures Parse(Frames(bodies)) == Parsed(bodies, [], false)
  {
    if bodies != [] {
      var body, rest := bodies[0], Frames(bodies[1..]);
      FramesRoundTrip(bodies[1..]);
      ParseFrame(body, rest);
      assert body[..|body|] == body && (body + rest)[|body|..] == rest;
      assert [body] + bodies[1..] == bodies;
    }
  }

  /** Frames that arrive in chunks cut well come out as they were written, and nothing is left over. */
  lemma {:induction false} FramesArrive(bodies: seq<seq<Byte>>, chunks: seq<seq<Byte>>)
    requires forall b | b in bodies :: |b| < UINT32_LIMIT
    requires Flatten(chunks) == Frames(bodies) && CutWell([], chunks)
    ensures Deliver(FRESH, chunks) == ReadResult(bodies, FRESH, false)
  {
    FramesRoundTrip(bodies);
    assert [] + Flatten(chunks) == Flatten(chunks);
    DeliveredInChunks([], chunks);
  }

  // ----- the loop -----

  function Zeros(n: nat): seq<Byte> { seq(n, _ => 0) }

  lemma {:induction false} KeptPart(data: seq<Byte>, input: seq<Byte>, n: nat)
    ensures (data + (input + Zeros(n)))[..|input|] == (data + input)[..|input|]
    ensures data == [] ==> (input + Zeros(n))[..|input|] == (data + input)[..|input|]
  {
    assert data + (input + Zeros(n)) == data + input + Zeros(n);
  }

  /** A buffer of `size` bytes, filled as far as the stream goes. */
  method ReadBytes(stream: seq<Byte>, size: nat) returns (data: seq<Byte>, count: nat, rest: seq<Byte>)
    ensures size <= |stream| ==> count == size && data == stream[..size] && rest == stream[size..]
    ensures size > |stream| ==> count == |stream| && data == stream + Zeros(size - count) && rest == []
  {
    count := if size <= |stream| then size else |stream|;
    data := stream[..count] + Zeros(size - count);
    rest := stream[count..];
  }

  class KapacitorRequestReader {
    var residualRequestData: seq<Byte>
    var residualRequestSize: nat

    constructor ()
      ensures View() == FRESH
    {
      residualRequestData, residualRequestSize := [], 0;
    }

    ghost function View(): State
      reads this
    {
      State(residualRequestData, residualRequestSize)
    }

    /** Hands the bodies to `handled`; `failed` is the exception a malformed length raises. */
    method ReadRequests(input: seq<Byte>) returns (handled: seq<seq<Byte>>, failed: bool)
      modifies this
      ensures Read(old(View()), input) == ReadResult(handled, View(), failed)
    {
      handled, failed := [], false;
      var stream := input;
      while true
        invariant var r := Read(View(), stream);
                  Read(old(View()), input) == ReadResult(handled + r.handled, r.state, r.failed)
        decreases |stream|, residualRequestSize
      {
        var requestSize: nat;
        if residualRequestSize == 0 {
          var decoded := DecodeFrom(stream);
          match decoded {
            case EndOfFile => return;
            case TooLarge => failed := true; return;
            case Value(size, rest) => requestSize, stream := size, rest;
          }
        } else {
          requestSize := residualRequestSize;
          residualRequestSize := 0;
        }
        ghost var before, body := residualRequestData, stream;
        var requestData, count;
        requestData, count, stream := ReadBytes(stream, requestSize);
        if residualRequestData != [] {
          requestData := residualRequestData + requestData;
          residualRequestData := [];
        }
        if count < requestSize {
          residualRequestSize := requestSize - count;
          residualRequestData := requestData[..count];
          KeptPart(before, body, requestSize - count);
          return;
        }
        assert View() == FRESH && requestData == before + body[..requestSize];
        AppendThree(handled, [requestData], Read(View(), stream).handled);
        handled := handled + [requestData];
      }
    }
  }
}
