/**
 What a byte stream means to the RPC decoder, read as a whole: the messages it
 frames, independently of how the bytes arrive.
 */
module RpcFraming {
  type Byte = x: int | 0 <= x < 256

  type Positive = n: nat | n > 0 witness 1

  type Bytes = seq<Byte>

  /** After the bytes of a message read so far: read exactly `count` more, done, or not a message. */
  datatype Verdict = Need(count: Positive) | Complete | Invalid

  type Decoder = Bytes -> Verdict

  /** The messages in the bytes, and how the reading stops: the unfinished message, and whether it is invalid. */
  datatype Parse = Parse(messages: seq<Bytes>, message: Bytes, invalid: bool)

  function Prefixed(messages: seq<Bytes>, p: Parse): Parse {
    p.(messages := messages + p.messages)
  }

  /** Reads on from `message`, taking exactly what the decoder asks for. */
  function Frames(d: Decoder, message: Bytes, bytes: Bytes): Parse
    requires d([]).Need?
    decreases |bytes|, |message|
  {
    match d(message)
    case Need(n) =>
      if n <= |bytes| then Frames(d, message + bytes[..n], bytes[n..]) else Parse([], message, false)
    case Complete => Prefixed([message], Frames(d, [], bytes))
    case Invalid => Parse([], message, true)
  }

  function Flat(messages: seq<Bytes>): Bytes {
    if messages == [] then [] else messages[0] + Flat(messages[1..])
  }

  lemma {:induction false} FlatFront(first: Bytes, messages: seq<Bytes>, message: Bytes, rest: Bytes)
    ensures Flat([first] + messages) + message + rest == first + (Flat(messages) + message + rest)
  {
    assert ([first] + messages)[1..] == messages;
  }

  /**
   The parse cuts the bytes into pieces: complete messages in order, then one
   that is not a message, or one that lacks more bytes than are left.
   */
  lemma {:induction false} FramesArePieces(d: Decoder, message: Bytes, bytes: Bytes) returns (rest: Bytes)
    requires d([]).Need?
    ensures var p := Frames(d, message, bytes);
            && message + bytes == Flat(p.messages) + p.message + rest
            && (forall m | m in p.messages :: d(m) == Complete)
            && (if p.invalid then d(p.message) == Invalid else d(p.message).Need? && |rest| < d(p.message).count)
    decreases |bytes|, |message|
  {
    match d(message)
    case Need(n) =>
      rest := bytes;
      if n <= |bytes| {
        rest := FramesArePieces(d, message + bytes[..n], bytes[n..]);
        assert message + bytes == message + bytes[..n] + bytes[n..];
      }
    case Complete =>
      rest := FramesArePieces(d, [], bytes);
      var p := Frames(d, [], bytes);
      assert [] + bytes == bytes;
      FlatFront(message, p.messages, p.message, rest);
    case Invalid =>
      rest := bytes;
  }

  /** With `rest` still to come after `given`, reading on from `message` finds what is left of the whole parse. */
  predicate Splits(d: Decoder, given: Bytes, done: seq<Bytes>, message: Bytes, rest: Bytes)
    requires d([]).Need?
  {
    Frames(d, [], given + rest) == Prefixed(done, Frames(d, message, rest))
  }

  /** Having read `given`, the decoder stands at `message` with `done` behind it, whatever comes next. */
  ghost predicate StandsAt(d: Decoder, given: Bytes, done: seq<Bytes>, message: Bytes)
    requires d([]).Need?
  {
    forall rest: Bytes :: Splits(d, given, done, message, rest)
  }

  /** All parses that start with `given` stop there, invalid, with `done` behind them. */
  predicate StopsWith(d: Decoder, given: Bytes, done: seq<Bytes>, rest: Bytes)
    requires d([]).Need?
  {
    Frames(d, [], given + rest).messages == done && Frames(d, [], given + rest).invalid
  }

  /** Having read `given`, the decoder has given up with `done` behind it. */
  ghost predicate GaveUp(d: Decoder, given: Bytes, done: seq<Bytes>)
    requires d([]).Need?
  {
    forall rest: Bytes :: StopsWith(d, given, done, rest)
  }

  lemma {:induction false} StandsAtStart(d: Decoder)
    requires d([]).Need?
    ensures StandsAt(d, [], [], [])
  {
    forall rest: Bytes
      ensures Splits(d, [], [], [], rest)
    {
      assert [] + rest == rest;
    }
  }

  /** A complete read moves the decoder on by exactly those bytes. */
  lemma {:induction false} ReadMovesOn(d: Decoder, given: Bytes, done: seq<Bytes>, message: Bytes, got: Bytes)
    requires d([]).Need? && StandsAt(d, given, done, message) && got != [] && d(message) == Need(|got|)
    ensures StandsAt(d, given + got, done, message + got)
  {
    forall rest: Bytes
      ensures Splits(d, given + got, done, message + got, rest)
    {
      assert Splits(d, given, done, message, got + rest);
      assert given + got + rest == given + (got + rest);
      assert (got + rest)[..|got|] == got && (got + rest)[|got|..] == rest;
    }
  }

  lemma {:induction false} MessageEnds(d: Decoder, given: Bytes, done: seq<Bytes>, message: Bytes)
    requires d([]).Need? && StandsAt(d, given, done, message) && d(message) == Complete
    ensures StandsAt(d, given, done + [message], [])
  {
    forall rest: Bytes
      ensures Splits(d, given, done + [message], [], rest)
    {
      assert Splits(d, given, done, message, rest);
      var after := Frames(d, [], rest).messages;
      assert done + ([message] + after) == (done + [message]) + after;
    }
  }

  lemma {:induction false} InvalidGivesUp(d: Decoder, given: Bytes, done: seq<Bytes>, message: Bytes)
    requires d([]).Need? && StandsAt(d, given, done, message) && d(message) == Invalid
    ensures GaveUp(d, given, done)
  {
    forall rest: Bytes
      ensures StopsWith(d, given, done, rest)
    {
      assert Splits(d, given, done, message, rest);
    }
  }

  /** Too few bytes left for the read in progress: the parse stops at this message. */
  lemma {:induction false} StarvedStops(d: Decoder, given: Bytes, done: seq<Bytes>, message: Bytes, got: Bytes)
    requires d([]).Need? && StandsAt(d, given, done, message)
    requires d(message).Need? && |got| < d(message).count
    ensures Frames(d, [], given + got) == Parse(done, message, false)
  {
    assert Splits(d, given, done, message, got);
  }

  lemma {:induction false} GaveUpStays(d: Decoder, given: Bytes, done: seq<Bytes>, all: Bytes)
    requires d([]).Need? && GaveUp(d, given, done) && given <= all
    ensures Frames(d, [], all).messages == done && Frames(d, [], all).invalid
  {
    assert all == given + all[|given|..];
    assert StopsWith(d, given, done, all[|given|..]);
  }

  /** What is behind the decoder is the beginning of the whole parse. */
  lemma {:induction false} DoneIsPrefix(d: Decoder, given: Bytes, done: seq<Bytes>, message: Bytes, rest: Bytes)
    requires d([]).Need? && StandsAt(d, given, done, message)
    ensures done <= Frames(d, [], given + rest).messages
  {
    assert Splits(d, given, done, message, rest);
  }
}
