/** Length-prefixed framing, as both ends of the bulletin board use it
    (server.py send_data / get_data, client.py serialise_and_send / listen).

    A frame is the payload length written in decimal, left-justified and
    padded with spaces to a 10-character header, followed by the payload.
    The receiving side is modelled over the sequence of events its recv calls
    produce: a chunk of data (an empty chunk is the peer closing the
    connection) or, on the client, a receive timeout. */
module Framing {
  import opened Wrappers
  import opened Strings

  const HeaderSize: nat := 10

  /** Payload lengths below this bound have a header of exactly HeaderSize bytes. */
  const MaxPayload: nat := Pow10(HeaderSize)

  /** "{:<10}".format(n) as UTF-8: the digits of n, padded with spaces on the
      right to 10 characters; a longer number is not truncated. */
  function Header(n: nat): seq<byte>
  {
    var digits := Decimal(n);
    var text := digits + Spaces(if |digits| < HeaderSize then HeaderSize - |digits| else 0);
    assert IsLatin1(text) by {
      forall i | 0 <= i < |text| ensures text[i] as int < 256 {
        if i < |digits| { assert IsDigit(digits[i]); }
      }
    }
    ToBytes(text)
  }

  /** The frame put on the wire for a serialised payload. */
  function Encode(payload: seq<byte>): seq<byte>
  {
    Header(|payload|) + payload
  }

  /** int(data[:header_size]) on the first chunk of a frame; a first chunk
      shorter than the header is parsed as far as it goes. */
  function ParseHeader(first: seq<byte>): Option<int>
  {
    ParseInt(ToChars(first[..Min(HeaderSize, |first|)]))
  }

  /** p_msg[header_size:]: the bytes after the header (none if fewer). */
  function Body(buf: seq<byte>): seq<byte>
  {
    if |buf| >= HeaderSize then buf[HeaderSize..] else []
  }

  datatype Event = Data(bytes: seq<byte>) | Timeout

  /** How receiving one frame ends. Starved means the events ran out while
      recv would still be waiting; BadHeader is the ValueError that int()
      raises on a malformed header, which neither end catches. */
  datatype Decoded = Payload(payload: seq<byte>) | Disconnected | TimedOut | BadHeader | Starved

  /** The accumulation loop both ends run: `buf` holds what has been received
      so far, `size` the size declared by the first chunk once it has come.
      The size is fixed by the first non-empty chunk only, and the loop stops
      as soon as the buffered length minus the header size equals it. */
  function Reassemble(buf: seq<byte>, size: Option<int>, events: seq<Event>): Decoded
    decreases |events|
  {
    if events == [] then Starved
    else match events[0]
      case Timeout => TimedOut
      case Data(chunk) =>
        if chunk == [] then Disconnected
        else if size.None? && ParseHeader(chunk).None? then BadHeader
        else
          var declared := if size.Some? then size.value else ParseHeader(chunk).value;
          var b := buf + chunk;
          if |b| - HeaderSize == declared then Payload(Body(b))
          else Reassemble(b, Some(declared), events[1..])
  }

  /** The server's connections have no receive timeout: recv yields data only. */
  function DataEvents(chunks: seq<seq<byte>>): (events: seq<Event>)
    ensures |events| == |chunks|
    ensures forall i :: 0 <= i < |chunks| ==> events[i] == Data(chunks[i])
  {
    seq(|chunks|, i requires 0 <= i < |chunks| => Data(chunks[i]))
  }

  function Flatten(chunks: seq<seq<byte>>): seq<byte>
  {
    if chunks == [] then [] else chunks[0] + Flatten(chunks[1..])
  }

  predicate NoEmptyChunk(chunks: seq<seq<byte>>)
  {
    forall i :: 0 <= i < |chunks| ==> chunks[i] != []
  }

  /** Server.get_data: receive chunks until the declared frame is complete. */
  method GetData(chunks: seq<seq<byte>>) returns (r: Decoded)
    ensures r == Reassemble([], None, DataEvents(chunks))
    ensures !r.TimedOut?
  {
    NeverTimesOut([], None, chunks);
    ghost var events := DataEvents(chunks);
    var msg: seq<byte> := [];
    var first := true;
    var size: Option<int> := None;
    var i := 0;
    while size.None? || |msg| - HeaderSize != size.value
      invariant 0 <= i <= |chunks|
      invariant first <==> size.None?
      invariant first ==> msg == []
      invariant size.Some? && |msg| - HeaderSize == size.value ==>
        Reassemble([], None, events) == Payload(Body(msg))
      invariant !(size.Some? && |msg| - HeaderSize == size.value) ==>
        Reassemble([], None, events) == Reassemble(msg, size, events[i..])
      decreases |chunks| - i
    {
      if i == |chunks| {
        return Starved;
      }
      var data := chunks[i];
      assert events[i..][0] == Data(data);
      assert events[i..][1..] == events[i + 1..];
      i := i + 1;
      if data == [] {
        return Disconnected;
      } else if first {
        var declared := ParseHeader(data);
        if declared.None? {
          return BadHeader;
        }
        first, size := false, declared;
      }
      msg := msg + data;
    }
    r := Payload(Body(msg));
  }

  // ---------------------------------------------------------------------
  // Lemmas

  lemma {:induction false} NeverTimesOut(buf: seq<byte>, size: Option<int>, chunks: seq<seq<byte>>)
    ensures !Reassemble(buf, size, DataEvents(chunks)).TimedOut?
    decreases |chunks|
  {
    var events := DataEvents(chunks);
    if chunks != [] && chunks[0] != [] {
      var chunk := chunks[0];
      if !(size.None? && ParseHeader(chunk).None?) {
        var declared := if size.Some? then size.value else ParseHeader(chunk).value;
        assert events[1..] == DataEvents(chunks[1..]);
        NeverTimesOut(buf + chunk, Some(declared), chunks[1..]);
      }
    }
  }

  /** The header is exactly 10 bytes precisely for lengths below 10^10, and
      for those lengths int() of the header gives the length back. */
  lemma {:induction false} HeaderRoundTrip(n: nat)
    ensures |Header(n)| == HeaderSize <==> n < MaxPayload
    ensures n < MaxPayload ==> ParseInt(ToChars(Header(n))) == Some(n)
  {
    var digits := Decimal(n);
    var k := if |digits| < HeaderSize then HeaderSize - |digits| else 0;
    var text := digits + Spaces(k);
    assert IsLatin1(text) by {
      forall i | 0 <= i < |text| ensures text[i] as int < 256 {
        if i < |digits| { assert IsDigit(digits[i]); }
      }
    }
    assert Header(n) == ToBytes(text);
    DecimalWidth(n, HeaderSize);
    ToCharsToBytes(text);
    ParseDigitsPadded(digits, k);
    DecimalValue(n);
  }

  /** The layout of a frame: a 10-byte header that parses to the payload
      length, then the payload itself. */
  lemma {:induction false} FrameLayout(p: seq<byte>)
    requires |p| < MaxPayload
    ensures |Encode(p)| == HeaderSize + |p|
    ensures Encode(p)[HeaderSize..] == p
    ensures ParseHeader(Encode(p)) == Some(|p|)
  {
    HeaderRoundTrip(|p|);
    var f := Encode(p);
    assert f[..HeaderSize] == Header(|p|);
  }

  lemma {:induction false} FlattenCons(chunks: seq<seq<byte>>)
    requires chunks != []
    ensures Flatten(chunks) == chunks[0] + Flatten(chunks[1..])
  {
  }

  /** The events of a non-empty run of chunks: its first chunk, then the rest. */
  lemma {:induction false} DataEventsCons(cs: seq<seq<byte>>, rest: seq<Event>)
    requires cs != []
    ensures (DataEvents(cs) + rest)[0] == Data(cs[0])
    ensures (DataEvents(cs) + rest)[1..] == DataEvents(cs[1..]) + rest
  {
    var events := DataEvents(cs) + rest;
    var tail := DataEvents(cs[1..]) + rest;
    assert |events[1..]| == |tail|;
    forall i | 0 <= i < |tail| ensures events[1..][i] == tail[i] {
      if i < |cs| - 1 {
        assert cs[1..][i] == cs[i + 1];
      }
    }
  }

  /** With the size already known, chunks that complete the frame exactly
      deliver its payload, whatever events follow. */
  lemma {:induction false} FeedToEnd(p: seq<byte>, buf: seq<byte>, cs: seq<seq<byte>>, rest: seq<Event>)
    requires |p| < MaxPayload
    requires HeaderSize <= |buf| < |Encode(p)|
    requires NoEmptyChunk(cs) && buf + Flatten(cs) == Encode(p)
    ensures Reassemble(buf, Some(|p|), DataEvents(cs) + rest) == Payload(p)
    decreases |cs|
  {
    FrameLayout(p);
    assert buf + Flatten([]) == buf;
    assert cs != [];
    var c := cs[0];
    var b := buf + c;
    FlattenCons(cs);
    assert b + Flatten(cs[1..]) == Encode(p);
    DataEventsCons(cs, rest);
    assert |b| <= |Encode(p)|;
    if |b| - HeaderSize == |p| {
      assert b == Encode(p);
    } else {
      assert forall i :: 0 <= i < |cs[1..]| ==> cs[1..][i] == cs[i + 1];
      FeedToEnd(p, b, cs[1..], rest);
    }
  }

  /** With the size already known, chunks that leave the frame incomplete
      only extend the buffer. */
  lemma {:induction false} FeedPartial(p: seq<byte>, buf: seq<byte>, cs: seq<seq<byte>>, rest: seq<Event>)
    requires |p| < MaxPayload
    requires HeaderSize <= |buf|
    requires NoEmptyChunk(cs) && buf + Flatten(cs) < Encode(p)
    ensures Reassemble(buf, Some(|p|), DataEvents(cs) + rest) == Reassemble(buf + Flatten(cs), Some(|p|), rest)
    decreases |cs|
  {
    FrameLayout(p);
    if cs == [] {
      assert DataEvents(cs) + rest == rest;
      assert buf + Flatten(cs) == buf;
    } else {
      var c := cs[0];
      var b := buf + c;
      FlattenCons(cs);
      assert buf + Flatten(cs) == b + Flatten(cs[1..]);
      DataEventsCons(cs, rest);
      assert |b| < |Encode(p)|;
      assert forall i :: 0 <= i < |cs[1..]| ==> cs[1..][i] == cs[i + 1];
      FeedPartial(p, b, cs[1..], rest);
    }
  }

  /** Reassembly from arbitrary chunking: a frame for payload p cut into
      non-empty chunks, the first of which holds the whole header, is received
      as exactly p, whatever comes after it. */
  lemma {:induction false} ReassembleFrame(p: seq<byte>, cs: seq<seq<byte>>, rest: seq<Event>)
    requires |p| < MaxPayload
    requires NoEmptyChunk(cs) && Flatten(cs) == Encode(p)
    requires cs != [] && |cs[0]| >= HeaderSize
    ensures Reassemble([], None, DataEvents(cs) + rest) == Payload(p)
  {
    FrameLayout(p);
    var c := cs[0];
    FlattenCons(cs);
    assert c[..HeaderSize] == Encode(p)[..HeaderSize];
    assert ParseHeader(c) == ParseHeader(Encode(p));
    DataEventsCons(cs, rest);
    assert [] + c == c;
    if |c| - HeaderSize == |p| {
      assert c == Encode(p);
    } else {
      assert forall i :: 0 <= i < |cs[1..]| ==> cs[1..][i] == cs[i + 1];
      FeedToEnd(p, c, cs[1..], rest);
    }
  }

  /** The whole frame in one recv is received as its payload. */
  lemma SingleChunk(p: seq<byte>)
    requires |p| < MaxPayload
    ensures Reassemble([], None, [Data(Encode(p))]) == Payload(p)
  {
    FrameLayout(p);
    ReassembleFrame(p, [Encode(p)], []);
    assert DataEvents([Encode(p)]) + [] == [Data(Encode(p))];
  }

  /** A connection that closes before the declared total has arrived ends
      the reassembly with Disconnected, whatever was already buffered. */
  lemma {:induction false} CutShortDisconnected(p: seq<byte>, cs: seq<seq<byte>>, rest: seq<Event>)
    requires |p| < MaxPayload
    requires NoEmptyChunk(cs) && Flatten(cs) < Encode(p)
    requires cs == [] || |cs[0]| >= HeaderSize
    ensures Reassemble([], None, DataEvents(cs) + [Data([])] + rest) == Disconnected
  {
    assert DataEvents(cs) + [Data([])] + rest == DataEvents(cs) + ([Data([])] + rest);
    if cs == [] {
      assert DataEvents(cs) + ([Data([])] + rest) == [Data([])] + rest;
    } else {
      FirstChunksPartial(p, cs, [Data([])] + rest);
    }
  }

  /** On the client, a receive that times out before the declared total has
      arrived ends the reassembly with TimedOut, whatever was buffered. */
  lemma {:induction false} CutShortTimedOut(p: seq<byte>, cs: seq<seq<byte>>, rest: seq<Event>)
    requires |p| < MaxPayload
    requires NoEmptyChunk(cs) && Flatten(cs) < Encode(p)
    requires cs == [] || |cs[0]| >= HeaderSize
    ensures Reassemble([], None, DataEvents(cs) + [Timeout] + rest) == TimedOut
  {
    assert DataEvents(cs) + [Timeout] + rest == DataEvents(cs) + ([Timeout] + rest);
    if cs == [] {
      assert DataEvents(cs) + ([Timeout] + rest) == [Timeout] + rest;
    } else {
      FirstChunksPartial(p, cs, [Timeout] + rest);
    }
  }

  /** Chunks that start with the whole header but stop short of the frame
      leave the receiver with the declared size and all the bytes so far. */
  lemma {:induction false} FirstChunksPartial(p: seq<byte>, cs: seq<seq<byte>>, rest: seq<Event>)
    requires |p| < MaxPayload
    requires NoEmptyChunk(cs) && Flatten(cs) < Encode(p)
    requires cs != [] && |cs[0]| >= HeaderSize
    ensures Reassemble([], None, DataEvents(cs) + rest) == Reassemble(Flatten(cs), Some(|p|), rest)
  {
    FrameLayout(p);
    var c := cs[0];
    FlattenCons(cs);
    assert c[..HeaderSize] == Encode(p)[..HeaderSize];
    assert ParseHeader(c) == ParseHeader(Encode(p));
    assert [] + c == c;
    assert |c| < |Encode(p)|;
    assert forall i :: 0 <= i < |cs[1..]| ==> cs[1..][i] == cs[i + 1];
    DataEventsCons(cs, rest);
    FeedPartial(p, c, cs[1..], rest);
  }

  /** The declared size comes from the first chunk only: a first chunk that
      stops inside the header makes the receiver wait for the wrong total.
      Here a 12-byte payload whose first chunk is the single byte "1" is
      received as its first payload byte alone. */
  lemma ShortFirstChunk(p: seq<byte>)
    requires |p| == 12
    ensures Reassemble([], None, DataEvents([Encode(p)[..1], Encode(p)[1..10], p[..1], p[1..]])) == Payload(p[..1])
  {
    FrameLayout(p);
    var f := Encode(p);
    FirstByteOfTwelve(p);
    var events := DataEvents([f[..1], f[1..10], p[..1], p[1..]]);
    assert events[0] == Data(f[..1]);
    assert events[1..][0] == Data(f[1..10]);
    assert events[1..][1..][0] == Data(p[..1]);
    assert [] + f[..1] == f[..1];
    assert f[..1] + f[1..10] == f[..10];
    assert (f[..10] + p[..1])[10..] == p[..1];
    assert Reassemble(f[..10], Some(1), events[1..][1..]) == Payload(p[..1]);
    assert Reassemble(f[..1], Some(1), events[1..]) == Reassemble(f[..10], Some(1), events[1..][1..]);
  }

  /** The frame of a 12-byte payload starts with the digit 1, which alone
      parses as the size 1. */
  lemma FirstByteOfTwelve(p: seq<byte>)
    requires |p| == 12
    ensures ParseHeader(Encode(p)[..1]) == Some(1)
  {
    var f := Encode(p);
    assert Decimal(12) == Decimal(1) + [DigitChar(2)];
    assert Decimal(12) == ['1', '2'];
    var text := Decimal(12) + Spaces(8);
    assert IsLatin1(text);
    assert Header(12) == ToBytes(text);
    assert f[0] == '1' as int;
    assert ToChars(f[..1][..1]) == ['1'];
    ParseDigitsPadded(['1'], 0);
    assert ['1'] + Spaces(0) == ['1'];
  }

  /** Once the buffer holds more than the declared frame, the loop's test
      never lets it stop again: `len(p_msg) - header_size != msg_size` stays
      true on the server and `len(p_msg) - header_size == msg_size` stays
      false on the client, so whatever data follows, no payload is
      delivered. */
  lemma {:induction false} OverlongForever(buf: seq<byte>, n: int, chunks: seq<seq<byte>>)
    requires |buf| - HeaderSize > n
    ensures !Reassemble(buf, Some(n), DataEvents(chunks)).Payload?
    decreases |chunks|
  {
    if chunks != [] && chunks[0] != [] {
      DataEventsCons(chunks, []);
      assert DataEvents(chunks) + [] == DataEvents(chunks);
      assert DataEvents(chunks[1..]) + [] == DataEvents(chunks[1..]);
      OverlongForever(buf + chunks[0], n, chunks[1..]);
    }
  }

  /** A first chunk that carries more than the frame its header declares
      never satisfies the stop test: on its own the loop asks for more data,
      and no data that follows makes it deliver a payload. */
  lemma OverlongChunk(p: seq<byte>, extra: seq<byte>, more: seq<seq<byte>>)
    requires |p| < MaxPayload && extra != []
    ensures Reassemble([], None, [Data(Encode(p) + extra)]) == Starved
    ensures !Reassemble([], None, DataEvents([Encode(p) + extra] + more)).Payload?
  {
    FrameLayout(p);
    var chunk := Encode(p) + extra;
    assert chunk[..Min(HeaderSize, |chunk|)] == Encode(p)[..Min(HeaderSize, |Encode(p)|)];
    assert ParseHeader(chunk) == Some(|p|);
    assert [Data(chunk)][1..] == [];
    DataEventsCons([chunk] + more, []);
    assert DataEvents([chunk] + more) + [] == DataEvents([chunk] + more);
    assert ([chunk] + more)[1..] == more;
    assert DataEvents(more) + [] == DataEvents(more);
    var events := DataEvents([chunk] + more);
    assert events[0] == Data(chunk) && events[1..] == DataEvents(more);
    assert [] + chunk == chunk && |chunk| - HeaderSize != |p|;
    assert Reassemble([], None, events) == Reassemble(chunk, Some(|p|), DataEvents(more));
    OverlongForever(chunk, |p|, more);
  }
}
