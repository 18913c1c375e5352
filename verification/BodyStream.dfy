/** src/gateway/app.ts: reading a body that may be sent again, and looking at the start of a response. */
module BodyStream {
  import opened Streams

  const REPLAY_LIMIT_BYTES: nat := 8 * 1024 * 1024

  /** A body as the runtime hands it over: chunks of any size, empty ones included, until the end. */
  class Reader {
    var chunks: seq<seq<byte>>

    constructor (chunks: seq<seq<byte>>)
      ensures this.chunks == chunks
    {
      this.chunks := chunks;
    }

    method Read() returns (r: Option<seq<byte>>)
      modifies this
      ensures old(chunks) == [] ==> r == None && chunks == []
      ensures old(chunks) != [] ==> r == Some(old(chunks)[0]) && chunks == old(chunks)[1..]
    {
      if chunks == [] { return None; }
      r := Some(chunks[0]);
      chunks := chunks[1..];
    }
  }

  /** The chunks already read, then whatever the reader still holds. */
  class Chained {
    const head: seq<seq<byte>>
    const reader: Reader
    var i: nat

    ghost predicate Valid()
      reads this
    {
      i <= |head|
    }

    ghost function Remaining(): seq<byte>
      requires Valid()
      reads this, reader
    {
      Flatten(head[i..]) + Flatten(reader.chunks)
    }

    ghost function Pulls(): nat
      requires Valid()
      reads this, reader
    {
      |head| - i + |reader.chunks|
    }

    constructor (head: seq<seq<byte>>, reader: Reader)
      ensures Valid() && this.head == head && this.reader == reader
      ensures Remaining() == Flatten(head) + Flatten(reader.chunks)
    {
      this.head, this.reader, i := head, reader, 0;
      new;
      assert head[0..] == head;
    }

    method Pull() returns (r: Option<seq<byte>>)
      requires Valid()
      modifies this, reader
      ensures Valid()
      ensures r == None ==> old(Remaining()) == [] == Remaining()
      ensures r.Some? ==> old(Remaining()) == r.value + Remaining() && Pulls() < old(Pulls())
    {
      if i < |head| {
        assert head[i..][1..] == head[i + 1..];
        r := Some(head[i]);
        i := i + 1;
        assert old(Remaining()) == r.value + Remaining();
      } else {
        assert head[i..] == [];
        ghost var before := reader.chunks;
        r := reader.Read();
        assert r.Some? ==> Flatten(before) == r.value + Flatten(reader.chunks);
      }
    }

    /** Whoever pulls until the stream closes receives exactly what remained. */
    method Drain() returns (bytes: seq<byte>)
      requires Valid()
      modifies this, reader
      ensures Valid() && bytes == old(Remaining()) && Remaining() == []
    {
      hide Flatten;
      bytes := [];
      var open := true;
      assert [] + Remaining() == Remaining();
      while open
        invariant Valid() && old(Remaining()) == bytes + Remaining() && (!open ==> Remaining() == [])
        decreases open, Pulls()
      {
        ghost var before := Remaining();
        var r := Pull();
        if r == None {
          open := false;
        } else {
          assert bytes + before == bytes + r.value + Remaining();
          bytes := bytes + r.value;
        }
      }
    }
  }

  lemma {:induction false} FlattenAt(chunks: seq<seq<byte>>, i: nat)
    requires i < |chunks|
    ensures Flatten(chunks[..i + 1]) == Flatten(chunks[..i]) + chunks[i]
    ensures Flatten(chunks) == Flatten(chunks[..i + 1]) + Flatten(chunks[i + 1..])
  {
    FlattenSnoc(chunks[..i], chunks[i]);
    assert chunks[..i + 1] == chunks[..i] + [chunks[i]];
    FlattenConcat(chunks[..i + 1], chunks[i + 1..]);
    assert chunks == chunks[..i + 1] + chunks[i + 1..];
  }

  /** The chunks copied one after another into a buffer of their total size. */
  method Join(chunks: seq<seq<byte>>, size: nat) returns (r: seq<byte>)
    requires size == |Flatten(chunks)|
    ensures r == Flatten(chunks)
  {
    var bytes := new byte[size];
    var at := 0;
    assert chunks[..0] == [];
    for i := 0 to |chunks|
      invariant at == |Flatten(chunks[..i])| <= size && bytes[..at] == Flatten(chunks[..i])
    {
      var c := chunks[i];
      FlattenAt(chunks, i);
      forall k | 0 <= k < |c| { bytes[at + k] := c[k]; }
      assert bytes[..at + |c|] == Flatten(chunks[..i]) + c;
      at := at + |c|;
    }
    assert chunks[..|chunks|] == chunks;
    r := bytes[..];
  }

  /** Reads chunks while no more than `limit` bytes have come: all of them, or one chunk past the limit. */
  method ReadUpTo(reader: Reader, limit: nat) returns (chunks: seq<seq<byte>>, size: nat, done: bool)
    modifies reader
    ensures old(reader.chunks) == chunks + reader.chunks && size == |Flatten(chunks)|
    ensures done <==> |Flatten(old(reader.chunks))| <= limit
    ensures done ==> reader.chunks == []
    ensures !done ==> chunks != [] && size > limit && |Flatten(chunks[..|chunks| - 1])| <= limit
  {
    chunks, size, done := [], 0, false;
    while size <= limit
      invariant old(reader.chunks) == chunks + reader.chunks && size == |Flatten(chunks)| && !done
      invariant size > limit ==> chunks != [] && |Flatten(chunks[..|chunks| - 1])| <= limit
      decreases |reader.chunks|
    {
      var r := reader.Read();
      if r == None {
        done := true;
        assert chunks + [] == chunks;
        break;
      }
      FlattenSnoc(chunks, r.value);
      assert (chunks + [r.value])[..|chunks|] == chunks;
      chunks := chunks + [r.value];
      size := size + |r.value|;
    }
    FlattenConcat(chunks, reader.chunks);
  }

  datatype Body = NoBody | Buffered(bytes: seq<byte>) | Stream(stream: Chained) | Refused

  /**
   * `declared` is the Content-Length when it is a finite number. A length within the limit means a native read, which
   * the runtime refuses when more arrives than was declared; otherwise the body itself decides, and nothing is lost.
   */
  method ReadBody(reader: Reader?, declared: Option<nat>) returns (body: Body)
    modifies reader
    ensures reader == null <==> body == NoBody
    ensures reader != null && declared.Some? && declared.value <= REPLAY_LIMIT_BYTES ==>
      body == if |Flatten(old(reader.chunks))| <= declared.value then Buffered(Flatten(old(reader.chunks))) else Refused
    ensures body.Buffered? ==> reader.chunks == []
    ensures reader != null && declared == None ==>
      if |Flatten(old(reader.chunks))| <= REPLAY_LIMIT_BYTES then body == Buffered(Flatten(old(reader.chunks)))
        else body.Stream?
    ensures reader != null && declared.Some? && declared.value > REPLAY_LIMIT_BYTES ==>
      body.Stream? && body.stream.head == [] && reader.chunks == old(reader.chunks)
    ensures body.Stream? ==> fresh(body.stream) && body.stream.reader == reader && body.stream.Valid()
    ensures body.Stream? ==> body.stream.Remaining() == Flatten(old(reader.chunks))
    ensures body.Stream? && body.stream.head != [] ==>
      |Flatten(body.stream.head[..|body.stream.head| - 1])| <= REPLAY_LIMIT_BYTES
  {
    if reader == null { return NoBody; }
    ghost var all := reader.chunks;
    if declared.Some? && declared.value <= REPLAY_LIMIT_BYTES {
      var native := reader.chunks;
      reader.chunks := [];
      if |Flatten(native)| > declared.value { return Refused; }
      return Buffered(Flatten(native));
    }
    var chunks: seq<seq<byte>> := [];
    if declared == None {
      var size, done;
      chunks, size, done := ReadUpTo(reader, REPLAY_LIMIT_BYTES);
      FlattenConcat(chunks, reader.chunks);
      if done {
        var bytes := Join(chunks, size);
        return Buffered(bytes);
      }
    }
    var stream := new Chained(chunks, reader);
    return Stream(stream);
  }

  datatype Remade = Bytes(bytes: seq<byte>) | Rest(stream: Chained)

  /**
   * The start of a response and the response made again. `bytes` stays within `cap` exactly when the whole body does:
   * otherwise it runs past it, up to the end of the chunk that crossed.
   */
  method Peek(reader: Reader?, cap: nat) returns (bytes: seq<byte>, whole: bool, remade: Remade)
    modifies reader
    ensures reader == null ==> bytes == [] && whole && remade == Bytes([])
    ensures reader != null ==> bytes <= Flatten(old(reader.chunks)) && (whole <==> |Flatten(old(reader.chunks))| <= cap)
    ensures reader != null && whole ==> bytes == Flatten(old(reader.chunks)) && remade == Bytes(bytes)
    ensures reader != null && !whole ==>
      remade.Rest? && fresh(remade.stream) && remade.stream.Valid() && remade.stream.reader == reader
    ensures reader != null && !whole ==> remade.stream.Remaining() == Flatten(old(reader.chunks))
    ensures |bytes| <= cap <==> whole
    ensures !whole ==> remade.stream.head != [] && bytes == Flatten(remade.stream.head)
    ensures !whole ==> |Flatten(remade.stream.head[..|remade.stream.head| - 1])| <= cap
  {
    if reader == null { return [], true, Bytes([]); }
    ghost var all := reader.chunks;
    var chunks, size, done := ReadUpTo(reader, cap);
    FlattenConcat(chunks, reader.chunks);
    bytes := Join(chunks, size);
    whole := done && size <= cap;
    if done {
      assert chunks + [] == chunks;
      remade := Bytes(bytes);
    } else {
      var stream := new Chained(chunks, reader);
      remade := Rest(stream);
    }
  }

  /** For every cap a one-chunk body exists of which a peek returns more than the cap. */
  method PeekPastCap(cap: nat) returns (bytes: seq<byte>)
    ensures |bytes| == cap + 1
  {
    var body := seq(cap + 1, _ => 0);
    var reader := new Reader([body]);
    assert Flatten([body]) == body + Flatten([]);
    var whole, remade;
    bytes, whole, remade := Peek(reader, cap);
  }
}
