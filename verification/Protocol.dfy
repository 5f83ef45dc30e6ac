/**
  Control-message framing (src/protocol.rs): a 4-byte big-endian length, then the JSON text. The JSON codec
  itself is a parameter: a pair of functions that undo each other.
 */
module Framing {
  import opened Base
  import opened BigEndian

  datatype Error = UnexpectedEof | BadJson

  datatype Result<+T> = Ok(value: T) | Err(error: Error)

  datatype Codec<!M> = Codec(toJson: M -> seq<byte>, fromJson: seq<byte> -> Option<M>)

  ghost predicate Invertible<M(!new)>(c: Codec<M>) {
    forall m :: c.fromJson(c.toJson(m)) == Some(m)
  }

  /** `json.len() as u32` truncates. */
  function Serialize<M>(c: Codec<M>, m: M): seq<byte> {
    var json := c.toJson(m);
    ToBytes(4, |json| % 0x1_0000_0000) + json
  }

  /** `read_exact`; a short read consumes everything. */
  function TakeExact(input: seq<byte>, n: nat): (Result<seq<byte>>, seq<byte>) {
    if |input| < n then (Err(UnexpectedEof), []) else (Ok(input[..n]), input[n..])
  }

  /** One message off the front of the stream, and what remains. */
  function Deserialize<M>(c: Codec<M>, input: seq<byte>): (Result<M>, seq<byte>) {
    match TakeExact(input, 4)
    case (Err(e), rest) => (Err(e), rest)
    case (Ok(prefix), rest) =>
      match TakeExact(rest, FromBytes(prefix))
      case (Err(e), rest') => (Err(e), rest')
      case (Ok(json), rest') =>
        match c.fromJson(json)
        case None => (Err(BadJson), rest')
        case Some(m) => (Ok(m), rest')
  }

  function SerializeAll<M>(c: Codec<M>, ms: seq<M>): seq<byte> {
    if ms == [] then [] else Serialize(c, ms[0]) + SerializeAll(c, ms[1..])
  }

  /** `count` messages in a row, as long as none fails. */
  function DeserializeMany<M>(c: Codec<M>, input: seq<byte>, count: nat): (Result<seq<M>>, seq<byte>)
    decreases count
  {
    if count == 0 then (Ok([]), input)
    else
      match Deserialize(c, input)
      case (Err(e), rest) => (Err(e), rest)
      case (Ok(m), rest) =>
        match DeserializeMany(c, rest, count - 1)
        case (Err(e), rest') => (Err(e), rest')
        case (Ok(ms), rest') => (Ok([m] + ms), rest')
  }

  lemma LengthPrefix(n: nat, json: seq<byte>, rest: seq<byte>)
    requires n < U32
    ensures var input := ToBytes(4, n) + json + rest;
            FromBytes(input[..4]) == n && input[4..] == json + rest
  {
    Widths();
    Decodes(4, n);
    var input := ToBytes(4, n) + json + rest;
    assert input[..4] == ToBytes(4, n);
    assert input[4..] == json + rest;
  }

  /** The first four bytes of a frame tell the length of the rest. */
  lemma FramePrefix<M>(c: Codec<M>, m: M, rest: seq<byte>)
    requires |c.toJson(m)| < U32
    ensures var input := Serialize(c, m) + rest;
            4 <= |input| && FromBytes(input[..4]) == |c.toJson(m)| && input[4..] == c.toJson(m) + rest
  {
    ShortFrame(c, m);
    LengthPrefix(|c.toJson(m)|, c.toJson(m), rest);
  }

  lemma ShortFrame<M>(c: Codec<M>, m: M)
    requires |c.toJson(m)| < U32
    ensures Serialize(c, m) == ToBytes(4, |c.toJson(m)|) + c.toJson(m)
  {
  }

  /** A frame followed by anything yields its message and leaves exactly what followed. */
  lemma ReadsOneFrame<M(!new)>(c: Codec<M>, m: M, rest: seq<byte>)
    requires Invertible(c) && |c.toJson(m)| < U32
    ensures Deserialize(c, Serialize(c, m) + rest) == (Ok(m), rest)
  {
    FramePrefix(c, m, rest);
    ReadsBody(c, Serialize(c, m) + rest, c.toJson(m), rest);
  }

  /** A frame is the length of its text in four bytes, most significant first, and then the text. */
  lemma FrameLayout<M>(c: Codec<M>, m: M)
    requires |c.toJson(m)| < U32
    ensures var f := Serialize(c, m);
            4 <= |f| && Word(f[0], f[1], f[2], f[3]) == |c.toJson(m)| && f[4..] == c.toJson(m)
  {
    ShortFrame(c, m);
    FirstByteMostSignificant(|c.toJson(m)|);
  }

  /** A text that is not a message is reported as such, and taken off the stream whole. */
  lemma BadTextReported<M>(c: Codec<M>, json: seq<byte>, rest: seq<byte>)
    requires |json| < U32 && c.fromJson(json) == None
    ensures Deserialize(c, ToBytes(4, |json|) + json + rest) == (Err(BadJson), rest)
  {
    LengthPrefix(|json|, json, rest);
    ReadsBody(c, ToBytes(4, |json|) + json + rest, json, rest);
  }

  lemma ReadsBody<M>(c: Codec<M>, input: seq<byte>, json: seq<byte>, rest: seq<byte>)
    requires 4 <= |input| && FromBytes(input[..4]) == |json| && input[4..] == json + rest
    ensures Deserialize(c, input)
         == match c.fromJson(json) case None => (Err(BadJson), rest) case Some(m) => (Ok(m), rest)
  {
    assert (json + rest)[..|json|] == json && (json + rest)[|json|..] == rest;
  }

  /** A frame is read back with nothing left over if and only if its text is shorter than 2^32 bytes. */
  lemma RoundTripIff<M(!new)>(c: Codec<M>, m: M)
    requires Invertible(c)
    ensures Deserialize(c, Serialize(c, m)) == (Ok(m), []) <==> |c.toJson(m)| < U32
  {
    var json := c.toJson(m);
    assert Serialize(c, m) + [] == Serialize(c, m);
    if |json| < U32 {
      ReadsOneFrame(c, m, []);
    } else {
      LengthPrefix(|json| % 0x1_0000_0000, json, []);
      assert json + [] == json;
      assert |json[|json| % 0x1_0000_0000..]| > 0;
    }
  }

  lemma TruncatedBody<M(!new)>(c: Codec<M>, input: seq<byte>)
    requires 4 <= |input| && |input| - 4 < FromBytes(input[..4])
    ensures Deserialize(c, input) == (Err(UnexpectedEof), [])
  {
  }

  lemma CutFrame<M(!new)>(c: Codec<M>, frame: seq<byte>, k: nat)
    requires 4 <= k < |frame| && FromBytes(frame[..4]) == |frame| - 4
    ensures Deserialize(c, frame[..k]) == (Err(UnexpectedEof), [])
  {
    assert frame[..k][..4] == frame[..4];
    TruncatedBody(c, frame[..k]);
  }

  /** No proper prefix of a frame decodes. */
  lemma ProperPrefixFails<M(!new)>(c: Codec<M>, m: M, k: nat)
    requires |c.toJson(m)| < U32 && k < |Serialize(c, m)|
    ensures Deserialize(c, Serialize(c, m)[..k]) == (Err(UnexpectedEof), [])
  {
    if k >= 4 {
      FramePrefix(c, m, []);
      assert Serialize(c, m) + [] == Serialize(c, m);
      CutFrame(c, Serialize(c, m), k);
    } else {
      TruncatedPrefix(c, Serialize(c, m)[..k]);
    }
  }

  lemma TruncatedPrefix<M(!new)>(c: Codec<M>, input: seq<byte>)
    requires |input| < 4
    ensures Deserialize(c, input) == (Err(UnexpectedEof), [])
  {
  }

  /** Any list of messages written back to back is read back as that list, with no bytes left over. */
  lemma {:induction false} ReadsAll<M(!new)>(c: Codec<M>, ms: seq<M>, rest: seq<byte>)
    requires Invertible(c) && forall i :: 0 <= i < |ms| ==> |c.toJson(ms[i])| < U32
    ensures DeserializeMany(c, SerializeAll(c, ms) + rest, |ms|) == (Ok(ms), rest)
  {
    if ms == [] {
      assert SerializeAll(c, ms) + rest == rest;
    } else {
      var tail := SerializeAll(c, ms[1..]) + rest;
      assert SerializeAll(c, ms) + rest == Serialize(c, ms[0]) + tail;
      ReadsOneFrame(c, ms[0], tail);
      ReadsAll(c, ms[1..], rest);
      assert [ms[0]] + ms[1..] == ms;
    }
  }
}

/** Reading frames off a connection that delivers bytes in arbitrary chunks. */
module FrameReader {
  import opened Base
  import opened BigEndian
  import opened Framing

  function Flatten(chunks: seq<seq<byte>>): seq<byte> {
    if chunks == [] then [] else chunks[0] + Flatten(chunks[1..])
  }

  /** A byte stream; the remote end closed it after the last chunk. */
  class Connection {
    var chunks: seq<seq<byte>>

    ghost function Input(): seq<byte>
      reads this
    {
      Flatten(chunks)
    }

    constructor (chunks: seq<seq<byte>>)
      ensures Input() == Flatten(chunks)
    {
      this.chunks := chunks;
    }

    /** One `read`: at most `limit` bytes of the next non-empty chunk, or none at the end of the stream. */
    method Read(limit: nat) returns (got: seq<byte>)
      requires 0 < limit
      modifies this
      ensures |got| <= limit && old(Input()) == got + Input()
      ensures got == [] ==> Input() == []
    {
      while chunks != [] && chunks[0] == []
        invariant Input() == old(Input())
        decreases |chunks|
      {
        assert [] + Flatten(chunks[1..]) == Flatten(chunks[1..]);
        chunks := chunks[1..];
      }
      if chunks == [] {
        got := [];
      } else {
        var first := chunks[0];
        var take := if limit < |first| then limit else |first|;
        got := first[..take];
        assert first == got + first[take..];
        chunks := [first[take..]] + chunks[1..];
      }
    }

    /** `read_exact`: reads until `n` bytes are there or the stream ends. */
    method ReadExact(n: nat) returns (r: Result<seq<byte>>)
      modifies this
      ensures (r, Input()) == TakeExact(old(Input()), n)
    {
      var buf: seq<byte> := [];
      while |buf| < n
        invariant |buf| <= n && old(Input()) == buf + Input()
        decreases n - |buf|
      {
        var got := Read(n - |buf|);
        if got == [] {
          return Err(UnexpectedEof);
        }
        buf := buf + got;
      }
      r := Ok(buf);
    }

    /** `deserialize_message`. */
    method DeserializeMessage<M>(c: Codec<M>) returns (r: Result<M>)
      modifies this
      ensures (r, Input()) == Deserialize(c, old(Input()))
    {
      var prefix := ReadExact(4);
      if prefix.Err? {
        return Err(prefix.error);
      }
      var len := FromBytes(prefix.value);
      var body := ReadExact(len);
      if body.Err? {
        return Err(body.error);
      }
      match c.fromJson(body.value)
      case None => r := Err(BadJson);
      case Some(m) => r := Ok(m);
    }
  }

  /** However the bytes are cut into chunks, the messages written are the messages read, and what follows
      them is left untouched. */
  method ReadMessages<M(!new)>(c: Codec<M>, connection: Connection, count: nat, ghost ms: seq<M>, ghost rest: seq<byte>)
    returns (r: seq<M>)
    requires Invertible(c) && forall i :: 0 <= i < |ms| ==> |c.toJson(ms[i])| < U32
    requires connection.Input() == SerializeAll(c, ms) + rest && count == |ms|
    modifies connection
    ensures r == ms && connection.Input() == rest
  {
    r := [];
    for i := 0 to count
      invariant r == ms[..i] && connection.Input() == SerializeAll(c, ms[i..]) + rest
    {
      NextFrame(c, ms, i, rest);
      var m := connection.DeserializeMessage(c);
      r := r + [m.value];
    }
    assert SerializeAll(c, ms[count..]) + rest == rest;
  }

  lemma NextFrame<M(!new)>(c: Codec<M>, ms: seq<M>, i: nat, rest: seq<byte>)
    requires Invertible(c) && i < |ms| && |c.toJson(ms[i])| < U32
    ensures Deserialize(c, SerializeAll(c, ms[i..]) + rest) == (Ok(ms[i]), SerializeAll(c, ms[i + 1..]) + rest)
  {
    var tail := SerializeAll(c, ms[i + 1..]);
    assert ms[i..][1..] == ms[i + 1..];
    assert SerializeAll(c, ms[i..]) + rest == Serialize(c, ms[i]) + (tail + rest);
    ReadsOneFrame(c, ms[i], tail + rest);
  }
}
